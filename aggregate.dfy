/** The aggregation loop of the report (main.go:45-68): every raw token the
    tokenizer returns for every subtitle file is cleaned; a token that
    cleans to the empty string is skipped, any other one is counted under
    its cleaned form, and the longest counted RAW token is remembered. */
module Aggregate {
  import opened Junk

  /** frequencies[k] as Go reads a map: a missing key reads as 0. */
  function Lookup(frequencies: map<string, nat>, k: string): nat {
    if k in frequencies then frequencies[k] else 0
  }

  /** The aggregator's two variables: the frequency table and longestTokenLen. */
  datatype Tally = Tally(frequencies: map<string, nat>, longestTokenLen: nat)

  /** The table before the first token. */
  const Empty := Tally(map[], 0)

  /** The invariant of the table: every key is a non-empty junk-free token
      counted at least once, and no longer than longestTokenLen. */
  ghost predicate Valid(t: Tally) {
    forall k :: k in t.frequencies ==>
      && k != []
      && Clean(k) == k
      && t.frequencies[k] >= 1
      && |k| <= t.longestTokenLen
  }

  /** One iteration of the loop body at main.go:59-66, for one raw token. */
  function Step(t: Tally, token: string): Tally {
    var cleanToken := Clean(token);
    if cleanToken == [] then t
    else
      Tally(t.frequencies[cleanToken := Lookup(t.frequencies, cleanToken) + 1],
            if |token| > t.longestTokenLen then |token| else t.longestTokenLen)
  }

  /** What recording one raw token does to the table: a token that cleans
      to the empty string changes nothing; otherwise the count of its
      cleaned form goes up by exactly one (from 0 when it is new), and no
      other key's count or presence changes. */
  lemma StepCounts(t: Tally, token: string)
    ensures Clean(token) == [] ==> Step(t, token) == t
    ensures Clean(token) != [] ==>
      && Clean(token) in Step(t, token).frequencies
      && Step(t, token).frequencies[Clean(token)] == Lookup(t.frequencies, Clean(token)) + 1
    ensures forall k :: k != Clean(token) ==>
      && (k in Step(t, token).frequencies <==> k in t.frequencies)
      && Lookup(Step(t, token).frequencies, k) == Lookup(t.frequencies, k)
  {
  }

  /** What recording one raw token does to longestTokenLen: it never
      decreases, it covers a kept raw token, and it changes only to the
      length of a kept raw token. */
  lemma StepLongest(t: Tally, token: string)
    ensures t.longestTokenLen <= Step(t, token).longestTokenLen
    ensures Clean(token) != [] ==> |token| <= Step(t, token).longestTokenLen
    ensures Step(t, token).longestTokenLen == t.longestTokenLen
         || (Clean(token) != [] && Step(t, token).longestTokenLen == |token|)
  {
  }

  /** Counting a token whose cleaned form is not yet in the table. */
  lemma StepNewKey(t: Tally, x: string)
    requires Clean(x) != [] && Clean(x) !in t.frequencies
    ensures Step(t, x).frequencies == t.frequencies[Clean(x) := 1]
  {
  }

  /** Counting a token whose cleaned form is already in the table. */
  lemma StepOldKey(t: Tally, x: string)
    requires Clean(x) != [] && Clean(x) in t.frequencies
    ensures Step(t, x).frequencies == t.frequencies[Clean(x) := t.frequencies[Clean(x)] + 1]
  {
  }

  /** One step keeps the table's invariant. */
  lemma StepKeepsValid(t: Tally, token: string)
    requires Valid(t)
    ensures Valid(Step(t, token))
  {
    var key, r := Clean(token), Step(t, token);
    if key != [] {
      forall k | k in r.frequencies
        ensures k != [] && Clean(k) == k && r.frequencies[k] >= 1 && |k| <= r.longestTokenLen
      {
        if k == key {
          CleanIdempotent(token);
        } else {
          assert k in t.frequencies;
        }
      }
    }
  }

  /** The state after the loop has run over `tokens`, in order. */
  function Run(tokens: seq<string>): Tally {
    if tokens == [] then Empty else Step(Run(tokens[..|tokens| - 1]), tokens[|tokens| - 1])
  }

  /** The table's invariant holds after any run. */
  lemma {:induction false} RunValid(tokens: seq<string>)
    ensures Valid(Run(tokens))
  {
    if tokens != [] {
      RunValid(tokens[..|tokens| - 1]);
      StepKeepsValid(Run(tokens[..|tokens| - 1]), tokens[|tokens| - 1]);
    }
  }

  lemma RunAppend(tokens: seq<string>, token: string)
    ensures Run(tokens + [token]) == Step(Run(tokens), token)
  {
    assert (tokens + [token])[..|tokens|] == tokens;
  }

  /** The raw tokens of all files, file after file. */
  function Flatten(segs: seq<seq<string>>): seq<string> {
    if segs == [] then [] else Flatten(segs[..|segs| - 1]) + segs[|segs| - 1]
  }

  /** The loop body at main.go:59-66 for one raw token. */
  method Record(frequencies: map<string, nat>, longestTokenLen: nat, token: string)
    returns (frequencies': map<string, nat>, longestTokenLen': nat)
    ensures Tally(frequencies', longestTokenLen') == Step(Tally(frequencies, longestTokenLen), token)
  {
    frequencies', longestTokenLen' := frequencies, longestTokenLen;
    var cleanToken := RemoveJunkFromToken(token);
    if cleanToken != [] {
      frequencies' := frequencies'[cleanToken := Lookup(frequencies', cleanToken) + 1];
      if |token| > longestTokenLen' {
        longestTokenLen' := |token|;
      }
    }
  }

  /** The loop at main.go:45-68, over the tokenizer's output for each file
      (`segs[f]` is `t.Wakati(...)` for file `f`). */
  method CountTokens(segs: seq<seq<string>>) returns (frequencies: map<string, nat>, longestTokenLen: nat)
    ensures Tally(frequencies, longestTokenLen) == Run(Flatten(segs))
  {
    frequencies := map[];
    longestTokenLen := 0;
    ghost var done: seq<string> := [];
    for f := 0 to |segs|
      invariant done == Flatten(segs[..f])
      invariant Tally(frequencies, longestTokenLen) == Run(done)
    {
      var seg := segs[f];
      ghost var before := done;
      for j := 0 to |seg|
        invariant done == before + seg[..j]
        invariant Tally(frequencies, longestTokenLen) == Run(done)
      {
        var token := seg[j];
        frequencies, longestTokenLen := Record(frequencies, longestTokenLen, token);
        RunAppend(done, token);
        assert seg[..j + 1] == seg[..j] + [token];
        done := done + [token];
      }
      assert segs[..f + 1][..f] == segs[..f];
      assert seg[..|seg|] == seg;
    }
    assert segs[..|segs|] == segs;
  }

  // ----- What the table means -----

  /** An independent count: how many of the raw tokens clean to `k`. */
  function Occurrences(tokens: seq<string>, k: string): (n: nat)
    ensures n <= |tokens|
  {
    if tokens == [] then 0
    else (if Clean(tokens[0]) == k then 1 else 0) + Occurrences(tokens[1..], k)
  }

  lemma {:induction false} OccurrencesAppend(tokens: seq<string>, token: string, k: string)
    ensures Occurrences(tokens + [token], k) == Occurrences(tokens, k) + (if Clean(token) == k then 1 else 0)
  {
    if tokens != [] {
      assert (tokens + [token])[1..] == tokens[1..] + [token];
      OccurrencesAppend(tokens[1..], token, k);
    }
  }

  /** Each non-empty cleaned form is counted exactly as often as raw tokens
      clean to it, and is a key exactly when that happens at least once. */
  lemma {:induction false} CountsAreOccurrences(tokens: seq<string>, k: string)
    requires k != []
    ensures Lookup(Run(tokens).frequencies, k) == Occurrences(tokens, k)
    ensures k in Run(tokens).frequencies <==> Occurrences(tokens, k) > 0
  {
    if tokens != [] {
      var prefix, last := tokens[..|tokens| - 1], tokens[|tokens| - 1];
      assert tokens == prefix + [last];
      CountsAreOccurrences(prefix, k);
      OccurrencesAppend(prefix, last, k);
      RunAppend(prefix, last);
    }
  }

  /** How many raw tokens do not clean to the empty string. */
  function Kept(tokens: seq<string>): (n: nat)
    ensures n <= |tokens|
  {
    if tokens == [] then 0
    else (if Clean(tokens[0]) != [] then 1 else 0) + Kept(tokens[1..])
  }

  lemma {:induction false} KeptAppend(tokens: seq<string>, token: string)
    ensures Kept(tokens + [token]) == Kept(tokens) + (if Clean(token) != [] then 1 else 0)
  {
    if tokens != [] {
      assert (tokens + [token])[1..] == tokens[1..] + [token];
      KeptAppend(tokens[1..], token);
    }
  }

  /** The sum of all counts of a table. */
  ghost function Sum(m: map<string, nat>): nat
    decreases |m|
  {
    if m == map[] then 0
    else
      var k :| k in m;
      assert |m - {k}| < |m| by { assert (m - {k}).Keys == m.Keys - {k}; }
      m[k] + Sum(m - {k})
  }

  /** The sum does not depend on which key is taken out first. */
  lemma {:induction false} SumRemove(m: map<string, nat>, k: string)
    requires k in m
    ensures Sum(m) == m[k] + Sum(m - {k})
    decreases |m|
  {
    var j :| j in m && Sum(m) == m[j] + Sum(m - {j});
    if j != k {
      assert (m - {j}).Keys == m.Keys - {j};
      assert (m - {k}).Keys == m.Keys - {k};
      SumRemove(m - {j}, k);
      SumRemove(m - {k}, j);
      assert m - {j} - {k} == m - {k} - {j};
    }
  }

  /** Recording a token adds one to the sum exactly when it is kept. */
  lemma StepSum(t: Tally, token: string)
    ensures Sum(Step(t, token).frequencies) == Sum(t.frequencies) + (if Clean(token) != [] then 1 else 0)
  {
    var k := Clean(token);
    if k != [] {
      var m, m' := t.frequencies, Step(t, token).frequencies;
      SumRemove(m', k);
      assert m' - {k} == m - {k};
      if k in m {
        SumRemove(m, k);
      } else {
        assert m - {k} == m;
      }
    }
  }

  /** The sum of all counts is the number of raw tokens that were kept. */
  lemma {:induction false} SumIsKept(tokens: seq<string>)
    ensures Sum(Run(tokens).frequencies) == Kept(tokens)
  {
    if tokens != [] {
      var prefix, last := tokens[..|tokens| - 1], tokens[|tokens| - 1];
      assert tokens == prefix + [last];
      SumIsKept(prefix);
      KeptAppend(prefix, last);
      StepSum(Run(prefix), last);
    }
  }

  /** longestTokenLen covers every kept raw token. */
  lemma {:induction false} LongestCoversKept(tokens: seq<string>)
    ensures forall i :: 0 <= i < |tokens| && Clean(tokens[i]) != [] ==> |tokens[i]| <= Run(tokens).longestTokenLen
  {
    if tokens != [] {
      var prefix, last := tokens[..|tokens| - 1], tokens[|tokens| - 1];
      LongestCoversKept(prefix);
      StepLongest(Run(prefix), last);
      forall i | 0 <= i < |tokens| && Clean(tokens[i]) != []
        ensures |tokens[i]| <= Run(tokens).longestTokenLen
      {
        if i < |prefix| {
          assert tokens[i] == prefix[i];
        }
      }
    }
  }

  /** A non-zero longestTokenLen is the length of some kept raw token. */
  lemma {:induction false} LongestIsAttained(tokens: seq<string>)
    ensures Run(tokens).longestTokenLen > 0 ==>
      exists i :: 0 <= i < |tokens| && Clean(tokens[i]) != [] && |tokens[i]| == Run(tokens).longestTokenLen
  {
    if tokens != [] {
      var prefix, last := tokens[..|tokens| - 1], tokens[|tokens| - 1];
      LongestIsAttained(prefix);
      StepLongest(Run(prefix), last);
      var n := Run(tokens).longestTokenLen;
      if n > 0 {
        if n == Run(prefix).longestTokenLen {
          var i :| 0 <= i < |prefix| && Clean(prefix[i]) != [] && |prefix[i]| == n;
          assert tokens[i] == prefix[i];
        } else {
          assert Clean(tokens[|tokens| - 1]) != [] && |tokens[|tokens| - 1]| == n;
        }
      }
    }
  }

  /** longestTokenLen is the length of the longest kept raw token, and 0
      exactly when no raw token is kept. */
  lemma LongestIsLongestKept(tokens: seq<string>)
    ensures forall i :: 0 <= i < |tokens| && Clean(tokens[i]) != [] ==> |tokens[i]| <= Run(tokens).longestTokenLen
    ensures Run(tokens).longestTokenLen > 0 ==>
      exists i :: 0 <= i < |tokens| && Clean(tokens[i]) != [] && |tokens[i]| == Run(tokens).longestTokenLen
    ensures Run(tokens).longestTokenLen == 0 <==> forall i :: 0 <= i < |tokens| ==> Clean(tokens[i]) == []
  {
    LongestCoversKept(tokens);
    LongestIsAttained(tokens);
  }

  /** The table only grows and longestTokenLen never decreases while the
      loop runs: every prefix's state is below the final one. */
  lemma {:induction false} RunGrows(tokens: seq<string>, n: nat)
    requires n <= |tokens|
    ensures Run(tokens[..n]).longestTokenLen <= Run(tokens).longestTokenLen
    ensures forall k :: Lookup(Run(tokens[..n]).frequencies, k) <= Lookup(Run(tokens).frequencies, k)
    decreases |tokens| - n
  {
    if n < |tokens| {
      RunGrows(tokens, n + 1);
      assert tokens[..n + 1][..n] == tokens[..n];
    } else {
      assert tokens[..n] == tokens;
    }
  }
}
