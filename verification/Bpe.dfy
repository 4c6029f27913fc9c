/** QwenModel.bpe of convert_hf_to_gguf.py: byte pair merging up to a rank, and the merge list made with it. */
module Bpe {
  import opened Bytes
  import opened Wrappers
  import opened Sequences

  type Text = seq<Byte>
  type Ranks = map<Text, int>

  /** The parts a token starts as: its bytes, one by one. */
  function Singles(token: Text): (parts: seq<Text>)
    ensures |parts| == |token| && forall i :: 0 <= i < |token| ==> parts[i] == [token[i]]
  {
    seq(|token|, i requires 0 <= i < |token| => [token[i]])
  }

  predicate Mergeable(ranks: Ranks, parts: seq<Text>, i: nat) {
    i + 1 < |parts| && parts[i] + parts[i + 1] in ranks
  }

  function RankAt(ranks: Ranks, parts: seq<Text>, i: nat): (n: int)
    requires Mergeable(ranks, parts, i)
  {
    ranks[parts[i] + parts[i + 1]]
  }

  /** Whether pair i is the leftmost one of least rank among the first n pairs. */
  predicate IsBest(ranks: Ranks, parts: seq<Text>, n: nat, i: nat) {
    i < n && Mergeable(ranks, parts, i)
    && forall j: nat :: j < n && Mergeable(ranks, parts, j) ==>
         RankAt(ranks, parts, i) <= RankAt(ranks, parts, j)
         && (RankAt(ranks, parts, i) == RankAt(ranks, parts, j) ==> i <= j)
  }

  /** The leftmost pair of least rank among the first n pairs, when one of them has a rank. */
  function Best(ranks: Ranks, parts: seq<Text>, n: nat): (b: Option<nat>)
    requires n == 0 || n < |parts|
    ensures b.Some? ==> Mergeable(ranks, parts, b.value) && IsBest(ranks, parts, n, b.value)
    ensures b.None? ==> forall j: nat :: j < n ==> !Mergeable(ranks, parts, j)
  {
    if n == 0 then None else
    var b := Best(ranks, parts, n - 1);
    if Mergeable(ranks, parts, n - 1) && (b.None? || RankAt(ranks, parts, n - 1) < RankAt(ranks, parts, b.value))
    then Some(n - 1) else b
  }

  function Pairs(parts: seq<Text>): (n: nat) {
    if parts == [] then 0 else |parts| - 1
  }

  predicate Under(rank: int, cap: Option<int>) {
    cap.None? || rank < cap.value
  }

  function MergeAt(parts: seq<Text>, i: nat): (r: seq<Text>)
    requires i + 1 < |parts|
    ensures |r| == |parts| - 1
  {
    parts[..i] + [parts[i] + parts[i + 1]] + parts[i + 2..]
  }

  /** The parts left when merging from `parts` stops. */
  function Run(ranks: Ranks, parts: seq<Text>, cap: Option<int>): (r: seq<Text>)
    decreases |parts|
  {
    var b := Best(ranks, parts, Pairs(parts));
    if b.None? || !Under(RankAt(ranks, parts, b.value), cap) then parts
    else Run(ranks, MergeAt(parts, b.value), cap)
  }

  lemma RunUnfolds(ranks: Ranks, parts: seq<Text>, cap: Option<int>, b: Option<nat>)
    requires b == Best(ranks, parts, Pairs(parts))
    ensures Run(ranks, parts, cap) == if b.None? || !Under(RankAt(ranks, parts, b.value), cap) then parts
                                      else Run(ranks, MergeAt(parts, b.value), cap)
  {
  }

  method Merge(ranks: Ranks, token: Text, maxRank: Option<int>) returns (parts: seq<Text>)
    ensures parts == Run(ranks, Singles(token), maxRank)
  {
    hide Run, IsBest;
    parts := Singles(token);
    while true
      invariant Run(ranks, parts, maxRank) == Run(ranks, Singles(token), maxRank)
      decreases |parts|
    {
      var minIdx: Option<nat> := None;
      var minRank: Option<int> := None;
      var i := 0;
      while i + 1 < |parts|
        invariant 0 <= i <= Pairs(parts)
        invariant minIdx == Best(ranks, parts, i)
        invariant minRank == if minIdx.None? then None else Some(RankAt(ranks, parts, minIdx.value))
      {
        var pair := parts[i] + parts[i + 1];
        if pair in ranks && (minRank.None? || ranks[pair] < minRank.value) {
          minIdx, minRank := Some(i), Some(ranks[pair]);
        }
        i := i + 1;
      }
      RunUnfolds(ranks, parts, maxRank, minIdx);
      if minRank.None? || (maxRank.Some? && minRank.value >= maxRank.value) {
        break;
      }
      parts := parts[..minIdx.value] + [parts[minIdx.value] + parts[minIdx.value + 1]] + parts[minIdx.value + 2..];
    }
  }

  // ---------- What a run does

  /** One merge, at pair i: of all neighbours that join to a token it is the leftmost pair of least rank, and its rank
      is under the cap. */
  predicate IsMergeAt(ranks: Ranks, cap: Option<int>, x: seq<Text>, y: seq<Text>, i: nat) {
    && Mergeable(ranks, x, i) && IsBest(ranks, x, |x| - 1, i) && (cap.Some? ==> RankAt(ranks, x, i) < cap.value)
    && y == x[..i] + [x[i] + x[i + 1]] + x[i + 2..]
  }

  ghost predicate IsMerge(ranks: Ranks, cap: Option<int>, x: seq<Text>, y: seq<Text>) {
    exists i: nat :: IsMergeAt(ranks, cap, x, y, i)
  }

  predicate CannotMerge(ranks: Ranks, cap: Option<int>, x: seq<Text>) {
    forall j: nat :: j < |x| && Mergeable(ranks, x, j) ==> cap.Some? && RankAt(ranks, x, j) >= cap.value
  }

  /** A run goes from its parts to its end by such merges, and ends where none is left. */
  lemma {:induction false} RunMerges(ranks: Ranks, parts: seq<Text>, cap: Option<int>) returns (trace: seq<seq<Text>>)
    ensures trace != [] && trace[0] == parts && trace[|trace| - 1] == Run(ranks, parts, cap)
    ensures forall k :: 0 <= k < |trace| - 1 ==> IsMerge(ranks, cap, trace[k], trace[k + 1])
    ensures CannotMerge(ranks, cap, Run(ranks, parts, cap))
    decreases |parts|
  {
    hide IsMerge, CannotMerge;
    var b := Best(ranks, parts, Pairs(parts));
    if b.None? || !Under(RankAt(ranks, parts, b.value), cap) {
      trace := [parts];
      assert CannotMerge(ranks, cap, parts) by { NoMerge(ranks, parts, cap); }
    } else {
      var next := MergeAt(parts, b.value);
      assert IsMerge(ranks, cap, parts, next) by { BestMerges(ranks, parts, cap, b.value); }
      var rest := RunMerges(ranks, next, cap);
      trace := [parts] + rest;
    }
  }

  lemma NoMerge(ranks: Ranks, parts: seq<Text>, cap: Option<int>)
    requires var b := Best(ranks, parts, Pairs(parts)); b.None? || !Under(RankAt(ranks, parts, b.value), cap)
    ensures CannotMerge(ranks, cap, parts)
  {
  }

  lemma BestMerges(ranks: Ranks, parts: seq<Text>, cap: Option<int>, i: nat)
    requires Best(ranks, parts, Pairs(parts)) == Some(i) && Under(RankAt(ranks, parts, i), cap)
    ensures IsMerge(ranks, cap, parts, MergeAt(parts, i))
  {
    assert IsMergeAt(ranks, cap, parts, MergeAt(parts, i), i);
  }

  // ---------- What every run keeps

  predicate NoneEmpty(parts: seq<Text>) {
    forall i :: 0 <= i < |parts| ==> parts[i] != []
  }

  lemma {:induction false} SinglesJoin(token: Text)
    ensures Flatten(Singles(token)) == token
  {
    if token != [] {
      assert Singles(token)[1..] == Singles(token[1..]);
      SinglesJoin(token[1..]);
      assert token == [token[0]] + token[1..];
    }
  }

  lemma PairJoins(b: Text, c: Text, d: seq<Text>)
    ensures Flatten([b + c] + d) == Flatten([b] + ([c] + d)) == b + (c + Flatten(d))
  {
    assert ([b + c] + d)[1..] == d && ([c] + d)[1..] == d && ([b] + ([c] + d))[1..] == [c] + d;
    assert (b + c) + Flatten(d) == b + (c + Flatten(d));
  }

  lemma SplitAtPair(parts: seq<Text>, i: nat)
    requires i + 1 < |parts|
    ensures parts == parts[..i] + ([parts[i]] + ([parts[i + 1]] + parts[i + 2..]))
    ensures MergeAt(parts, i) == parts[..i] + ([parts[i] + parts[i + 1]] + parts[i + 2..])
  {
  }

  lemma MergeKeepsJoin(parts: seq<Text>, i: nat)
    requires i + 1 < |parts|
    ensures Flatten(MergeAt(parts, i)) == Flatten(parts)
  {
    hide *;
    var a, b, c, d := parts[..i], parts[i], parts[i + 1], parts[i + 2..];
    SplitAtPair(parts, i);
    PairJoins(b, c, d);
    FlattenAppend(a, [b + c] + d);
    FlattenAppend(a, [b] + ([c] + d));
  }

  /** The parts always join to the token, and none is empty. */
  lemma {:induction false} RunKeepsToken(ranks: Ranks, parts: seq<Text>, cap: Option<int>)
    requires NoneEmpty(parts)
    ensures Flatten(Run(ranks, parts, cap)) == Flatten(parts) && NoneEmpty(Run(ranks, parts, cap))
    decreases |parts|
  {
    hide Flatten;
    var b := Best(ranks, parts, Pairs(parts));
    if b.Some? && Under(RankAt(ranks, parts, b.value), cap) {
      MergeKeepsJoin(parts, b.value);
      RunKeepsToken(ranks, MergeAt(parts, b.value), cap);
    }
  }

  /** A part of more than one byte is a token ranked under the cap. */
  predicate PartsRanked(ranks: Ranks, parts: seq<Text>, cap: Option<int>) {
    forall i :: 0 <= i < |parts| && |parts[i]| != 1 ==> parts[i] in ranks && Under(ranks[parts[i]], cap)
  }

  lemma {:induction false} RunRanksParts(ranks: Ranks, parts: seq<Text>, cap: Option<int>)
    requires PartsRanked(ranks, parts, cap)
    ensures PartsRanked(ranks, Run(ranks, parts, cap), cap)
    decreases |parts|
  {
    var b := Best(ranks, parts, Pairs(parts));
    if b.Some? && Under(RankAt(ranks, parts, b.value), cap) {
      RunRanksParts(ranks, MergeAt(parts, b.value), cap);
    }
  }

  /** When a run stops, no two neighbours join to a token ranked under the cap. */
  lemma {:induction false} RunStopsAtCap(ranks: Ranks, parts: seq<Text>, cap: Option<int>, i: nat)
    requires Mergeable(ranks, Run(ranks, parts, cap), i)
    ensures !Under(RankAt(ranks, Run(ranks, parts, cap), i), cap)
    decreases |parts|
  {
    var b := Best(ranks, parts, Pairs(parts));
    if b.Some? && Under(RankAt(ranks, parts, b.value), cap) {
      RunStopsAtCap(ranks, MergeAt(parts, b.value), cap, i);
    }
  }

  predicate AtMost(c1: Option<int>, c2: Option<int>) {
    c2.None? || (c1.Some? && c1.value <= c2.value)
  }

  /** A run with a larger cap is the run with the smaller cap, resumed. */
  lemma {:induction false} RunResumes(ranks: Ranks, parts: seq<Text>, c1: Option<int>, c2: Option<int>)
    requires AtMost(c1, c2)
    ensures Run(ranks, parts, c2) == Run(ranks, Run(ranks, parts, c1), c2)
    decreases |parts|
  {
    var b := Best(ranks, parts, Pairs(parts));
    if b.Some? && Under(RankAt(ranks, parts, b.value), c1) {
      RunResumes(ranks, MergeAt(parts, b.value), c1, c2);
    }
  }

  // ---------- The merge list

  function TokenRun(ranks: Ranks, token: Text, cap: int): (texts: seq<Text>) {
    Run(ranks, Singles(token), Some(cap))
  }

  /** All of the above for the run of one token. */
  lemma TokenRunParts(ranks: Ranks, token: Text, cap: int)
    ensures var parts := TokenRun(ranks, token, cap);
            Flatten(parts) == token && NoneEmpty(parts) && PartsRanked(ranks, parts, Some(cap))
  {
    SinglesJoin(token);
    RunKeepsToken(ranks, Singles(token), Some(cap));
    RunRanksParts(ranks, Singles(token), Some(cap));
  }

  lemma JoinOfTwo(parts: seq<Text>)
    requires |parts| == 2
    ensures Flatten(parts) == parts[0] + parts[1]
  {
    assert parts[1..][1..] == [] && parts[1..][0] == parts[1];
    assert Flatten(parts[1..]) == parts[1];
  }

  /** When the run capped at a token's own rank leaves two parts, one more rank joins them to the token. */
  lemma TwoPartsJoin(ranks: Ranks, token: Text)
    requires token in ranks && |TokenRun(ranks, token, ranks[token])| == 2
    ensures TokenRun(ranks, token, ranks[token] + 1) == [token]
  {
    var rank := ranks[token];
    var parts := TokenRun(ranks, token, rank);
    TokenRunParts(ranks, token, rank);
    JoinOfTwo(parts);
    RunResumes(ranks, Singles(token), Some(rank), Some(rank + 1));
    assert Mergeable(ranks, parts, 0) && RankAt(ranks, parts, 0) == rank;
    var b := Best(ranks, parts, 1);
    assert IsBest(ranks, parts, 1, b.value);
    assert MergeAt(parts, 0) == [token];
    assert Best(ranks, [token], 0) == None;
  }

  predicate DistinctRanks(ranks: Ranks) {
    forall a, b :: a in ranks && b in ranks && ranks[a] == ranks[b] ==> a == b
  }

  /** A pair of neighbours that joins to the whole is the only pair. */
  lemma PairIsWhole(parts: seq<Text>, i: nat)
    requires i + 1 < |parts| && NoneEmpty(parts) && parts[i] + parts[i + 1] == Flatten(parts)
    ensures |parts| == 2
  {
    hide Flatten;
    var a, b, c, d := parts[..i], parts[i], parts[i + 1], parts[i + 2..];
    JoinNonEmpty(a);
    JoinNonEmpty(d);
    SplitAtPair(parts, i);
    PairJoins(b, c, d);
    FlattenAppend(a, [b] + ([c] + d));
  }

  lemma JoinNonEmpty(parts: seq<Text>)
    requires NoneEmpty(parts)
    ensures parts == [] <==> Flatten(parts) == []
  {
    if parts != [] {
      assert parts[0] != [];
    }
  }

  /** With distinct ranks it is exact: two parts are left if and only if one more rank gives the token back. */
  lemma TwoPartsIff(ranks: Ranks, token: Text)
    requires token in ranks && |token| > 1 && DistinctRanks(ranks)
    ensures |TokenRun(ranks, token, ranks[token])| == 2 <==> TokenRun(ranks, token, ranks[token] + 1) == [token]
  {
    var rank := ranks[token];
    var parts := TokenRun(ranks, token, rank);
    if |parts| == 2 {
      TwoPartsJoin(ranks, token);
    } else {
      TokenRunParts(ranks, token, rank);
      RunResumes(ranks, Singles(token), Some(rank), Some(rank + 1));
      var b := Best(ranks, parts, Pairs(parts));
      if b.Some? && RankAt(ranks, parts, b.value) < rank + 1 {
        RunStopsAtCap(ranks, Singles(token), Some(rank), b.value);
        PairIsWhole(parts, b.value);
        assert false;
      }
    }
  }

  /** A merge rule: the two parts a token is made of. */
  type Rule = (Text, Text)

  /** Whether the rule makes the token out of single bytes and of tokens of lower rank. */
  predicate Makes(ranks: Ranks, rule: Rule, token: Text)
    requires token in ranks
  {
    && rule.0 + rule.1 == token && rule.0 != [] && rule.1 != []
    && PartsRanked(ranks, [rule.0, rule.1], Some(ranks[token]))
  }

  function LongTokens(order: seq<Text>): (r: seq<Text>) {
    if order == [] then [] else
    var n := |order| - 1;
    LongTokens(order[..n]) + (if |order[n]| == 1 then [] else [order[n]])
  }

  lemma {:induction false} LongTokensAre(order: seq<Text>, t: Text)
    ensures t in LongTokens(order) <==> t in order && |t| != 1
  {
    if order != [] {
      LongTokensAre(order[..|order| - 1], t);
      assert order == order[..|order| - 1] + [order[|order| - 1]];
    }
  }

  predicate RuleFor(ranks: Ranks, rule: Rule, token: Text)
    requires token in ranks
  {
    TokenRun(ranks, token, ranks[token]) == [rule.0, rule.1]
  }

  lemma RuleMakes(ranks: Ranks, rule: Rule, token: Text)
    requires token in ranks && RuleFor(ranks, rule, token)
    ensures Makes(ranks, rule, token) && TokenRun(ranks, token, ranks[token] + 1) == [token]
  {
    TokenRunParts(ranks, token, ranks[token]);
    JoinOfTwo([rule.0, rule.1]);
    TwoPartsJoin(ranks, token);
    assert [rule.0, rule.1][0] != [] && [rule.0, rule.1][1] != [];
  }

  /** The merge list, one rule for each token of more than one byte, in the order of the dictionary. The
      assertion in the loop fails exactly when some token's run does not leave two parts. */
  method MergeList(ranks: Ranks, order: seq<Text>) returns (merges: Option<seq<Rule>>)
    requires forall t :: t in order ==> t in ranks
    ensures merges.None? <==> exists t :: t in order && |t| != 1 && |TokenRun(ranks, t, ranks[t])| != 2
    ensures merges.Some? ==> |merges.value| == |LongTokens(order)| && forall k :: 0 <= k < |merges.value| ==>
              LongTokens(order)[k] in ranks && Makes(ranks, merges.value[k], LongTokens(order)[k])
  {
    hide TokenRun, Makes;
    var rules: seq<Rule> := [];
    var i := 0;
    while i < |order|
      invariant 0 <= i <= |order| && |rules| == |LongTokens(order[..i])|
      invariant forall k :: 0 <= k < i && |order[k]| != 1 ==> |TokenRun(ranks, order[k], ranks[order[k]])| == 2
      invariant forall k :: 0 <= k < |rules| ==>
                  LongTokens(order[..i])[k] in ranks && Makes(ranks, rules[k], LongTokens(order[..i])[k])
    {
      assert order[..i + 1][..i] == order[..i];
      var token := order[i];
      if |token| != 1 {
        var merged := Merge(ranks, token, Some(ranks[token]));
        TokenRunIs(ranks, token, ranks[token], merged);
        if |merged| != 2 {
          return None;
        }
        RuleMakes(ranks, (merged[0], merged[1]), token);
        rules := rules + [(merged[0], merged[1])];
      }
      i := i + 1;
    }
    assert order[..i] == order;
    merges := Some(rules);
  }

  lemma TokenRunIs(ranks: Ranks, token: Text, cap: int, parts: seq<Text>)
    requires parts == Run(ranks, Singles(token), Some(cap))
    ensures parts == TokenRun(ranks, token, cap)
    ensures |parts| == 2 ==> TokenRun(ranks, token, cap) == [parts[0], parts[1]]
  {
  }
}
