/** The report pipeline of main.go:40-108 put together: count the cleaned
    tokens of every file, rank the keys, render the table. The tokenizer's
    output for each file is the input `segs`; whether a code point is East
    Asian Wide or Fullwidth is the input `isWide`. */
module Report {
  import opened Junk
  import opened Aggregate
  import opened Rank
  import opened Render

  /** The table text and the order of its rows. */
  method FrequencyReport(segs: seq<seq<string>>, isWide: char -> bool) returns (keys: seq<string>, out: string)
    ensures multiset(keys) == multiset(Run(Flatten(segs)).frequencies.Keys)
    ensures SortedByFreq(keys, Run(Flatten(segs)).frequencies)
    ensures out == Concat(TableLines(Run(Flatten(segs)).frequencies, keys, Run(Flatten(segs)).longestTokenLen,
                                     MaxCount(Run(Flatten(segs)).frequencies), isWide))
  {
    var frequencies, longestTokenLen := CountTokens(segs);
    var highestFreq;
    keys, highestFreq := RankKeys(frequencies);
    out := RenderTable(frequencies, keys, longestTokenLen, highestFreq, isWide);
  }

  /** Every row of a report lines up with the header's columns and can be
      read back: its token cell fills the token column on screen and trims to
      the key, and its count cell fills the count column and reads as the
      key's count. "On screen" is DisplayWidth, the program's own width
      model; beyond it the lemma assumes only that a space is not wide,
      which holds for width.LookupRune. */
  lemma RowsAligned(t: Tally, keys: seq<string>, isWide: char -> bool)
    requires Valid(t)
    requires multiset(keys) == multiset(t.frequencies.Keys)
    requires !isWide(' ')
    ensures forall i :: 0 <= i < |keys| ==>
      && keys[i] in t.frequencies
      && DisplayWidth(TokenCell(keys[i], TokenColumnWidth(t.longestTokenLen), isWide), isWide)
         == TokenColumnWidth(t.longestTokenLen)
      && TrimRight(TokenCell(keys[i], TokenColumnWidth(t.longestTokenLen), isWide)) == keys[i]
      && |FreqCell(t.frequencies[keys[i]], FreqColumnWidth(MaxCount(t.frequencies)))|
         == FreqColumnWidth(MaxCount(t.frequencies))
      && Value(TrimRight(FreqCell(t.frequencies[keys[i]], FreqColumnWidth(MaxCount(t.frequencies)))))
         == t.frequencies[keys[i]]
  {
    PermutationOfKeys(keys, t.frequencies);
    ListedIsIn(' ', JunkRunes);
    forall i | 0 <= i < |keys|
      ensures keys[i] in t.frequencies
      ensures DisplayWidth(TokenCell(keys[i], TokenColumnWidth(t.longestTokenLen), isWide), isWide)
         == TokenColumnWidth(t.longestTokenLen)
      ensures TrimRight(TokenCell(keys[i], TokenColumnWidth(t.longestTokenLen), isWide)) == keys[i]
      ensures |FreqCell(t.frequencies[keys[i]], FreqColumnWidth(MaxCount(t.frequencies)))|
         == FreqColumnWidth(MaxCount(t.frequencies))
      ensures Value(TrimRight(FreqCell(t.frequencies[keys[i]], FreqColumnWidth(MaxCount(t.frequencies)))))
         == t.frequencies[keys[i]]
    {
      var k := keys[i];
      assert k in keys;
      assert k == Clean(k);
      assert !IsJunkChar(k[|k| - 1]);
      TokenCellAligned(k, t.longestTokenLen, isWide);
      FreqCellAligned(t.frequencies[k], MaxCount(t.frequencies));
      CellsReadBack(k, t.frequencies[k], TokenColumnWidth(t.longestTokenLen), FreqColumnWidth(MaxCount(t.frequencies)), isWide);
    }
  }

  /** The rows of any report line up as RowsAligned says. */
  lemma ReportRowsAligned(segs: seq<seq<string>>, keys: seq<string>, isWide: char -> bool)
    requires multiset(keys) == multiset(Run(Flatten(segs)).frequencies.Keys)
    requires !isWide(' ')
    ensures forall i :: 0 <= i < |keys| ==>
      DisplayWidth(TokenCell(keys[i], TokenColumnWidth(Run(Flatten(segs)).longestTokenLen), isWide), isWide)
      == TokenColumnWidth(Run(Flatten(segs)).longestTokenLen)
  {
    RunValid(Flatten(segs));
    RowsAligned(Run(Flatten(segs)), keys, isWide);
  }

  /** Five tokens of one file: the particles の and は are not on the
      blacklist and are counted; 猫 is counted twice and so heads every
      ranking. */
  lemma CatHeadsTheRanking(tokens: seq<string>, keys: seq<string>)
    requires tokens == ["の", "猫", "猫", "は", "可愛い"]
    requires multiset(keys) == multiset(Run(tokens).frequencies.Keys)
    requires SortedByFreq(keys, Run(tokens).frequencies)
    ensures Run(tokens).frequencies == map["の" := 1, "猫" := 2, "は" := 1, "可愛い" := 1]
    ensures Run(tokens).longestTokenLen == 3
    ensures keys != [] && keys[0] == "猫"
  {
    ScenarioCleans();
    RunOfFive("の", "猫", "は", "可愛い");
    UniqueTopHeadsRanking(keys, Run(tokens).frequencies, "猫");
  }

  /** Counting raw tokens x, y, y, z, w whose cleaned forms are four
      distinct non-empty strings, the last raw token the longest. */
  lemma RunOfFive(x: string, y: string, z: string, w: string)
    requires Clean(x) != [] && Clean(y) != [] && Clean(z) != [] && Clean(w) != []
    requires Clean(x) != Clean(y) && Clean(x) != Clean(z) && Clean(x) != Clean(w)
    requires Clean(y) != Clean(z) && Clean(y) != Clean(w) && Clean(z) != Clean(w)
    requires |x| <= |w| && |y| <= |w| && |z| <= |w|
    ensures Run([x, y, y, z, w]).frequencies == map[Clean(x) := 1, Clean(y) := 2, Clean(z) := 1, Clean(w) := 1]
    ensures Run([x, y, y, z, w]).longestTokenLen == |w|
  {
    var s3 := [x, y, y];
    var s4 := s3 + [z];
    RunOfThree(x, y);
    var t3 := Run(s3);
    RunAppend(s3, z);
    StepNewKey(t3, z);
    StepLongest(t3, z);
    var t4 := Run(s4);
    RunAppend(s4, w);
    StepNewKey(t4, w);
    StepLongest(t4, w);
    assert s4 + [w] == [x, y, y, z, w];
  }

  /** Counting raw tokens x, y, y whose cleaned forms are distinct and
      non-empty. */
  lemma RunOfThree(x: string, y: string)
    requires Clean(x) != [] && Clean(y) != [] && Clean(x) != Clean(y)
    ensures Run([x, y, y]).frequencies == map[Clean(x) := 1, Clean(y) := 2]
    ensures Run([x, y, y]).longestTokenLen <= |x| || Run([x, y, y]).longestTokenLen <= |y|
    ensures |x| <= Run([x, y, y]).longestTokenLen && |y| <= Run([x, y, y]).longestTokenLen
  {
    var s1 := [] + [x];
    var s2 := s1 + [y];
    RunAppend([], x);
    StepNewKey(Empty, x);
    StepLongest(Empty, x);
    var t1 := Run(s1);
    RunAppend(s1, y);
    StepNewKey(t1, y);
    StepLongest(t1, y);
    var t2 := Run(s2);
    RunAppend(s2, y);
    StepOldKey(t2, y);
    StepLongest(t2, y);
    assert s2 + [y] == [x, y, y];
  }

  /** The four words of the example are left unchanged by cleaning. */
  lemma ScenarioCleans()
    ensures Clean("の") == "の" && Clean("猫") == "猫" && Clean("は") == "は" && Clean("可愛い") == "可愛い"
  {
    KanaAndKanjiAreNotJunk('の');
    KanaAndKanjiAreNotJunk('猫');
    KanaAndKanjiAreNotJunk('は');
    KanaAndKanjiAreNotJunk('可');
    KanaAndKanjiAreNotJunk('愛');
    KanaAndKanjiAreNotJunk('い');
    CleanOfClean("の");
    CleanOfClean("猫");
    CleanOfClean("は");
    CleanOfClean("可愛い");
  }
}
