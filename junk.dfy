/** The junk filter of the frequency report: a fixed blacklist of
    one-character tokens, and the cleaning of a raw tokenizer token against
    it. Strings are sequences of Unicode code points (Go runes). */
module Junk {

  /** The code points of the blacklist, entry for entry and in the order of
      main.go, written as a concatenation of short runs (which keeps lookups
      cheap for the verifier). It holds the kanji 一 (U+4E00) and the opening
      bracket 「 (U+300C) but not the closing bracket 」 (U+300D). */
  const JunkRunes: seq<char> :=
      ['(', ' ', '一', '-', '（', '）']
    + [')', '｡', '､', '.', '％', '～']
    + ['？', '\U{3000}', '…', '！', '”', '“']
    + ['･', '—', '➡', '♪', '≪', '≫']
    + ['＞', '＜', '!', '‼', '?', '〞']
    + ['「', '｢', '｣', '[', ']', '♬']
    + ['１', '２', '３', '４', '５', '６']
    + ['７', '８', '９', '０', '\\']

  /** junkTokens: the blacklist as the list of strings it is in the source.
      Every entry of the source's literal is one code point, so the list is
      the one-rune strings of JunkRunes. */
  const JunkTokens: seq<string> := seq(|JunkRunes|, i requires 0 <= i < |JunkRunes| => [JunkRunes[i]])

  /** Whether `c` is one of `list`, looked for from the front. This is
      sequence membership `c in list` defined a second time, as a recursion,
      so that the verifier looks into the long blacklist only as far as a
      proof needs; ListedIsIn shows the two agree. */
  predicate Listed(c: char, list: seq<char>) {
    list != [] && (list[0] == c || Listed(c, list[1..]))
  }

  lemma {:induction false} ListedIsIn(c: char, list: seq<char>)
    ensures Listed(c, list) <==> c in list
  {
    if list != [] {
      ListedIsIn(c, list[1..]);
      assert list == [list[0]] + list[1..];
    }
  }

  /** A code point is junk when the one-rune string made of it is
      blacklisted; removeJunkFromToken asks isJunkToken(string(r)). */
  predicate IsJunkChar(c: char) {
    Listed(c, JunkRunes)
  }

  /** The blacklist holds 47 entries, each a single code point, and a string
      is blacklisted exactly when it is one junk code point. */
  lemma JunkTokensAreJunkChars(s: string)
    ensures |JunkTokens| == 47
    ensures forall i :: 0 <= i < |JunkTokens| ==> |JunkTokens[i]| == 1
    ensures s in JunkTokens <==> |s| == 1 && IsJunkChar(s[0])
  {
    if |s| > 0 {
      ListedIsIn(s[0], JunkRunes);
    }
    if s in JunkTokens {
      var i :| 0 <= i < |JunkTokens| && JunkTokens[i] == s;
    }
    if |s| == 1 && IsJunkChar(s[0]) {
      var i :| 0 <= i < |JunkRunes| && JunkRunes[i] == s[0];
      assert JunkTokens[i] == s;
    }
  }

  /** Linear search of a list of strings for a whole string. */
  method Member(entries: seq<string>, token: string) returns (found: bool)
    ensures found <==> token in entries
  {
    for i := 0 to |entries|
      invariant token !in entries[..i]
    {
      if token == entries[i] {
        return true;
      }
    }
    assert entries[..|entries|] == entries;
    return false;
  }

  /** isJunkToken: whether the token is one of the blacklist's entries. */
  method IsJunkToken(token: string) returns (junk: bool)
    ensures junk <==> token in JunkTokens
    ensures junk <==> |token| == 1 && IsJunkChar(token[0])
  {
    junk := Member(JunkTokens, token);
    JunkTokensAreJunkChars(token);
  }

  /** Specification of cleaning: the token's non-junk code points, in order. */
  function Clean(s: string): (r: string)
    ensures |r| <= |s|
    ensures forall i :: 0 <= i < |r| ==> !IsJunkChar(r[i])
  {
    if s == [] then [] else (if IsJunkChar(s[0]) then [] else [s[0]]) + Clean(s[1..])
  }

  /** `s` with every occurrence of each code point of `drop` deleted. With a
      singleton `drop = {c}` this is strings.ReplaceAll(s, string(c), ""):
      a one-rune pattern occurs exactly at the positions holding `c`. */
  function Strip(s: string, drop: set<char>): (r: string)
    ensures |r| <= |s|
    ensures forall i :: 0 <= i < |r| ==> r[i] !in drop
  {
    if s == [] then [] else (if s[0] in drop then [] else [s[0]]) + Strip(s[1..], drop)
  }

  /** Deleting one set of code points and then another is deleting both. */
  lemma {:induction false} StripTwice(s: string, a: set<char>, b: set<char>)
    ensures Strip(Strip(s, a), b) == Strip(s, a + b)
  {
    if s != [] {
      StripTwice(s[1..], a, b);
      var head := if s[0] in a then [] else [s[0]];
      StripAppend(head, Strip(s[1..], a), b);
      assert Strip(s, a) == head + Strip(s[1..], a);
      if s[0] !in a {
        assert Strip(head, b) == (if s[0] in b then [] else [s[0]]) + Strip([], b);
      }
    }
  }

  lemma {:induction false} StripAppend(x: string, y: string, drop: set<char>)
    ensures Strip(x + y, drop) == Strip(x, drop) + Strip(y, drop)
  {
    if x != [] {
      assert (x + y)[1..] == x[1..] + y;
      StripAppend(x[1..], y, drop);
    } else {
      assert x + y == y;
    }
  }

  /** Deleting exactly the junk code points that occur in `s` is cleaning `s`. */
  lemma {:induction false} StripIsClean(s: string, drop: set<char>)
    requires forall c :: c in s ==> (c in drop <==> IsJunkChar(c))
    ensures Strip(s, drop) == Clean(s)
  {
    if s != [] {
      assert forall c :: c in s[1..] ==> c in s;
      StripIsClean(s[1..], drop);
    }
  }

  /** removeJunkFromToken: for every rune of the token that is junk, delete
      all its occurrences from the running result. */
  method RemoveJunkFromToken(token: string) returns (cleanToken: string)
    ensures cleanToken == Clean(token)
  {
    cleanToken := token;
    ghost var removed: set<char> := {};
    assert Strip(token, {}) == token by { StripNothing(token); }
    for i := 0 to |token|
      invariant cleanToken == Strip(token, removed)
      invariant forall c :: c in removed <==> c in token[..i] && IsJunkChar(c)
    {
      var r := token[i];
      assert token[..i + 1] == token[..i] + [r];
      var junk := IsJunkToken([r]);
      if junk {
        StripTwice(token, removed, {r});
        cleanToken := Strip(cleanToken, {r});
        removed := removed + {r};
      }
    }
    assert token[..|token|] == token;
    StripIsClean(token, removed);
  }

  lemma {:induction false} StripNothing(s: string)
    ensures Strip(s, {}) == s
  {
    if s != [] {
      StripNothing(s[1..]);
    }
  }

  /** Cleaning distributes over concatenation: it keeps order. */
  lemma {:induction false} CleanAppend(x: string, y: string)
    ensures Clean(x + y) == Clean(x) + Clean(y)
  {
    if x != [] {
      assert (x + y)[1..] == x[1..] + y;
      CleanAppend(x[1..], y);
    } else {
      assert x + y == y;
    }
  }

  /** Cleaning keeps every occurrence of every non-junk code point and no
      occurrence of a junk one. */
  lemma {:induction false} CleanKeepsNonJunk(s: string, c: char)
    ensures multiset(Clean(s))[c] == if IsJunkChar(c) then 0 else multiset(s)[c]
  {
    if s != [] {
      CleanKeepsNonJunk(s[1..], c);
      assert s == [s[0]] + s[1..];
      var head := if IsJunkChar(s[0]) then [] else [s[0]];
      assert Clean(s) == head + Clean(s[1..]);
      assert multiset(Clean(s)) == multiset(head) + multiset(Clean(s[1..]));
    }
  }

  /** A token without junk is left as it is. */
  lemma {:induction false} CleanOfClean(s: string)
    requires forall i :: 0 <= i < |s| ==> !IsJunkChar(s[i])
    ensures Clean(s) == s
  {
    if s != [] {
      CleanOfClean(s[1..]);
    }
  }

  /** Cleaning is idempotent. */
  lemma CleanIdempotent(s: string)
    ensures Clean(Clean(s)) == Clean(s)
  {
    CleanOfClean(Clean(s));
  }

  /** A token made only of junk cleans to the empty string, and conversely. */
  lemma {:induction false} CleanEmptyIffAllJunk(s: string)
    ensures Clean(s) == [] <==> forall i :: 0 <= i < |s| ==> IsJunkChar(s[i])
  {
    if s != [] {
      CleanEmptyIffAllJunk(s[1..]);
      assert forall i :: 1 <= i < |s| ==> s[i] == s[1..][i - 1];
    }
  }

  /** No kana and no CJK ideograph other than 一 is on the blacklist:
      hiragana and katakana (U+3040-U+30FF), halfwidth katakana
      (U+FF66-U+FF9F), CJK Extension A (U+3400-U+4DBF), the unified
      ideographs after 一 (U+4E01-U+9FFF), the compatibility ideographs
      (U+F900-U+FAFF) and the ideographs beyond the BMP (U+20000-U+3FFFF). */
  lemma KanaAndKanjiAreNotJunk(c: char)
    requires || '\U{3040}' <= c <= '\U{30FF}'
             || '\U{FF66}' <= c <= '\U{FF9F}'
             || '\U{3400}' <= c <= '\U{4DBF}'
             || '\U{4E01}' <= c <= '\U{9FFF}'
             || '\U{F900}' <= c <= '\U{FAFF}'
             || '\U{20000}' <= c <= '\U{3FFFF}'
    ensures !IsJunkChar(c)
  {
    ListedIsIn(c, JunkRunes);
  }

  /** A bracketed full-width question mark is all junk and vanishes. */
  lemma BracketedQuestionMarkVanishes()
    ensures Clean("（？）") == ""
  {
    ListedIsIn('（', JunkRunes);
    ListedIsIn('？', JunkRunes);
    ListedIsIn('）', JunkRunes);
    CleanEmptyIffAllJunk("（？）");
  }

  /** The kanji 一 is on the blacklist, so it is dropped from a word. */
  lemma KanjiOneIsDropped()
    ensures Clean("一人") == "人"
  {
    ListedIsIn('一', JunkRunes);
    KanaAndKanjiAreNotJunk('人');
    assert "一人"[1..] == "人";
    assert Clean("人") == "人" by { CleanOfClean("人"); }
  }

  /** An opening bracket is dropped but the matching closing one is kept. */
  lemma ClosingBracketIsKept()
    ensures Clean("「猫」") == "猫」"
  {
    var s := "「猫」";
    assert s[0] == '「' && s[1..] == "猫」";
    ListedIsIn('「', JunkRunes);
    assert Clean(s) == Clean("猫」");
    CatAndClosingBracketAreNotJunk();
    CleanOfClean("猫」");
  }

  lemma CatAndClosingBracketAreNotJunk()
    ensures !IsJunkChar('猫') && !IsJunkChar('」')
  {
    KanaAndKanjiAreNotJunk('猫');
    ListedIsIn('」', JunkRunes);
  }
}
