/** The diff split of common/chat-auto-parser-helpers.cpp: two texts are cut into a shared prefix,
    a shared suffix and what is left of each, with the cuts on marker boundaries. */
module DiffSplits {
  import opened Sequences
  import opened Segments

  datatype DiffSplit = DiffSplit(prefix: string, suffix: string, left: string, right: string)

  predicate Reconstructs(d: DiffSplit, left: string, right: string) {
    d.prefix + d.left + d.suffix == left && d.prefix + d.right + d.suffix == right
  }

  /** The segments of `a` are all shared with the longer `b`, half of them at either end. */
  predicate Halved(a: seq<Segment>, b: seq<Segment>) {
    |a| > 0 && |a| % 2 == 0 && |a| < |b| && AgreeFront(a, b, |a| / 2) && AgreeBack(a, b, |a| / 2)
  }

  /** The guard of the branch that goes wrong: `a` is used up, and the segment its cursors are
      stuck on, which is part of the suffix already, equals an end of what remains of `b`. */
  predicate MatchedTwice(a: seq<Segment>, b: seq<Segment>) {
    Halved(a, b) &&
    var k := |a| / 2;
    if |b| == |a| + 1 then a[k] == b[k] && a[k].kind == MARKER
    else a[k] == b[|b| - 1 - k] || a[k] == b[k]
  }

  /** The text tail: common characters move to the suffix and then to the prefix. */
  function TextTail(prefix: string, suffix: string, remL: string, remR: string, canSuffix: bool, canPrefix: bool)
    : (split: DiffSplit)
  {
    var ts := if canSuffix then CommonSuffix(remL, remR) else 0;
    var tp := if canPrefix then CommonPrefix(remL[..|remL| - ts], remR[..|remR| - ts]) else 0;
    DiffSplit(prefix + remL[..tp], remL[|remL| - ts..] + suffix, remL[tp..|remL| - ts], remR[tp..|remR| - ts])
  }

  /** The texts of p segments in front, of s at the back, and of those between. */
  function FrontText(X: seq<Segment>, p: nat): (text: string)
    requires p <= |X|
  {
    Join(X[..p])
  }

  function BackText(X: seq<Segment>, s: nat): (text: string)
    requires s <= |X|
  {
    Join(X[|X| - s..])
  }

  function MiddleText(X: seq<Segment>, p: nat, s: nat): (text: string)
    requires p + s <= |X|
  {
    Join(X[p..|X| - s])
  }

  /** The split of two lists of segments that share `p` segments in front and `s` at the back,
      and of whose remainders neither is empty. Only texts are cut further. */
  function SplitAt(a: seq<Segment>, b: seq<Segment>, p: nat, s: nat): (d: DiffSplit)
    requires p + s < |a| && p + s < |b|
  {
    TextTail(FrontText(a, p), BackText(a, s), MiddleText(a, p, s), MiddleText(b, p, s),
             a[|a| - 1 - s].kind == TEXT && b[|b| - 1 - s].kind == TEXT,
             a[p].kind == TEXT && b[p].kind == TEXT)
  }

  /** The last fix-up: a left text that is a prefix of the right one is the whole prefix. */
  function Unrotated(d: DiffSplit, left: string, right: string): (split: DiffSplit) {
    if d.left == "" && d.right != "" && left <= right then DiffSplit(left, "", "", right[|left|..]) else d
  }

  /** The state of the segment matching: cursors, flags and the text matched so far. */
  datatype Cursors = Cursors(leftStart: nat, leftEnd: nat, rightStart: nat, rightEnd: nat,
                             leftConsumed: bool, rightConsumed: bool, prefix: string, suffix: string)

  ghost function Smaller(a: nat, b: nat): (n: nat) { if a < b then a else b }

  /** The number of segments in the suffix, read off the left cursors. */
  ghost function BackCount(L: seq<Segment>, c: Cursors): (n: nat)
    requires c.leftEnd < |L|
  {
    |L| - 1 - c.leftEnd + (if c.leftConsumed then 1 else 0)
  }

  ghost predicate InRange(L: seq<Segment>, R: seq<Segment>, c: Cursors) {
    c.leftStart <= c.leftEnd < |L| && c.rightStart <= c.rightEnd < |R|
  }

  /** What every iteration of the matching loop keeps. */
  ghost predicate Matching(L: seq<Segment>, R: seq<Segment>, c: Cursors, rounds: nat) {
    && InRange(L, R, c)
    && var p, s := c.leftStart, BackCount(L, c);
    && c.rightStart == p && s == |R| - 1 - c.rightEnd + (if c.rightConsumed then 1 else 0)
    && p <= CommonPrefix(L, R) && s <= CommonSuffix(L, R) && p + s <= |L| && p + s <= |R|
    && (c.leftConsumed <==> p + s == |L|) && (c.rightConsumed <==> p + s == |R|)
    && p <= rounds && s <= rounds
    && (p == rounds || p == CommonPrefix(L, R)) && (s == rounds || s == CommonSuffix(L, R))
    && (c.leftConsumed || c.rightConsumed ==> p == s)
    && c.prefix == Join(L[..p]) && c.suffix == Join(L[|L| - s..])
  }

  lemma {:induction false} JoinAppend(a: seq<Segment>, b: seq<Segment>)
    ensures Join(a + b) == Join(a) + Join(b)
  {
    if a == [] {
      assert a + b == b;
    } else {
      assert (a + b)[0] == a[0] && (a + b)[1..] == a[1..] + b;
      JoinAppend(a[1..], b);
    }
  }

  lemma JoinOne(seg: Segment)
    ensures Join([seg]) == seg.value
  {
    assert [seg][1..] == [];
  }

  lemma JoinNone(L: seq<Segment>)
    ensures Join(L[..0]) == "" && Join(L[|L|..]) == ""
  {
  }

  /** Taking one more segment into the prefix. */
  lemma JoinGrowsFront(L: seq<Segment>, p: nat)
    requires p < |L|
    ensures Join(L[..p + 1]) == Join(L[..p]) + L[p].value
  {
    assert L[..p + 1] == L[..p] + [L[p]];
    JoinAppend(L[..p], [L[p]]);
    JoinOne(L[p]);
  }

  /** Taking one more segment into the suffix. */
  lemma JoinGrowsBack(L: seq<Segment>, p: nat)
    requires p < |L|
    ensures Join(L[p..]) == L[p].value + Join(L[p + 1..])
  {
    assert L[p..][1..] == L[p + 1..];
  }

  /** The next segments match exactly while the longest common runs are not used up. */
  lemma NextMatches(L: seq<Segment>, R: seq<Segment>, p: nat, s: nat)
    requires p < |L| && p < |R| && s < |L| && s < |R|
    requires p <= CommonPrefix(L, R) && s <= CommonSuffix(L, R)
    ensures L[p] == R[p] <==> p < CommonPrefix(L, R)
    ensures L[|L| - 1 - s] == R[|R| - 1 - s] <==> s < CommonSuffix(L, R)
  {
    assert FromBack(L, s) == FromBack(R, s) <==> s < CommonSuffix(L, R);
  }

  /** The matching loop: one segment from the front and one from the back in every round. */
  method MatchEnds(L: seq<Segment>, R: seq<Segment>) returns (c: Cursors, ghost rounds: nat)
    requires L != [] && R != []
    ensures LoopDone(L, R, c, rounds) && InRange(L, R, c)
  {
    hide Join, CommonPrefix, CommonSuffix, AgreeFront, AgreeBack;
    var leftStart, leftEnd, rightStart, rightEnd := 0, |L| - 1, 0, |R| - 1;
    var leftConsumed, rightConsumed := false, false;
    var prefix, suffix := "", "";
    rounds := 0;
    assert Join(L[..0]) == "" && Join(L[|L|..]) == "" by { JoinNone(L); }
    while leftStart != leftEnd && rightStart != rightEnd
      invariant 0 <= leftStart <= leftEnd < |L| && 0 <= rightStart <= rightEnd < |R|
      invariant var c := Cursors(leftStart, leftEnd, rightStart, rightEnd, leftConsumed, rightConsumed, prefix, suffix);
                Matching(L, R, c, rounds)
      decreases |L| + |R| - rounds, leftEnd - leftStart
    {
      var advanced := false;
      NextMatches(L, R, leftStart, |L| - 1 - leftEnd);
      if L[leftStart] == R[rightStart] {
        JoinGrowsFront(L, leftStart);
        prefix := prefix + L[leftStart].value;
        leftStart, rightStart, advanced := leftStart + 1, rightStart + 1, true;
      }
      if L[leftEnd] == R[rightEnd] {
        JoinGrowsBack(L, leftEnd);
        suffix := L[leftEnd].value + suffix;
        if leftStart != leftEnd { leftEnd := leftEnd - 1; } else { leftConsumed := true; }
        if rightStart != rightEnd { rightEnd := rightEnd - 1; } else { rightConsumed := true; }
        advanced := true;
      }
      if !advanced { break; }
      rounds := rounds + 1;
    }
    c := Cursors(leftStart, leftEnd, rightStart, rightEnd, leftConsumed, rightConsumed, prefix, suffix);
  }

  /** How the loop ends: a side is down to one segment, or both ends have stopped matching. */
  ghost predicate LoopDone(L: seq<Segment>, R: seq<Segment>, c: Cursors, rounds: nat) {
    && Matching(L, R, c, rounds)
    && var p, s := c.leftStart, BackCount(L, c);
       p + s + 1 >= Smaller(|L|, |R|) || (p == CommonPrefix(L, R) && s == CommonSuffix(L, R))
  }

  /** The loop uses up one side alone exactly when that side is halved by the other. */
  lemma ConsumedIffHalved(L: seq<Segment>, R: seq<Segment>, c: Cursors, rounds: nat)
    requires LoopDone(L, R, c, rounds)
    ensures c.leftConsumed && !c.rightConsumed <==> Halved(L, R)
    ensures c.rightConsumed && !c.leftConsumed <==> Halved(R, L)
    ensures c.leftConsumed && c.rightConsumed ==> L == R
  {
    hide CommonPrefix, CommonSuffix, Join, AgreeFront, AgreeBack;
    WithinCommonPrefix(L, R, |L| / 2);
    WithinCommonSuffix(L, R, |L| / 2);
    WithinCommonPrefix(L, R, |R| / 2);
    WithinCommonSuffix(L, R, |R| / 2);
    if c.leftConsumed && c.rightConsumed {
      SameEnds(L, R, c.leftStart);
    }
  }

  lemma SameEnds(L: seq<Segment>, R: seq<Segment>, p: nat)
    requires |L| == |R| && p <= |L| && p <= CommonPrefix(L, R) && |L| - p <= CommonSuffix(L, R)
    ensures L == R
  {
    forall i | p <= i < |L| ensures L[i] == R[i] {
      assert FromBack(L, |L| - 1 - i) == FromBack(R, |L| - 1 - i);
    }
  }

  /** The segments the cursors leave over on a side. */
  function Remainder(X: seq<Segment>, start: nat, end: nat, consumed: bool): (rest: seq<Segment>)
    requires start <= end < |X|
  {
    X[start..if consumed then end else end + 1]
  }

  function LeftOver(L: seq<Segment>, c: Cursors): (rest: seq<Segment>)
    requires c.leftStart <= c.leftEnd < |L|
  {
    Remainder(L, c.leftStart, c.leftEnd, c.leftConsumed)
  }

  function RightOver(R: seq<Segment>, c: Cursors): (rest: seq<Segment>)
    requires c.rightStart <= c.rightEnd < |R|
  {
    Remainder(R, c.rightStart, c.rightEnd, c.rightConsumed)
  }

  /** The cursors cut `p` shared segments off the front and `s` off the back. */
  ghost predicate Cut(L: seq<Segment>, R: seq<Segment>, c: Cursors, p: nat, s: nat) {
    && InRange(L, R, c)
    && p + s <= |L| && p + s <= |R| && p <= CommonPrefix(L, R) && s <= CommonSuffix(L, R)
    && c.prefix == Join(L[..p]) && c.suffix == Join(L[|L| - s..])
    && Leaves(|L|, c.leftStart, c.leftEnd, c.leftConsumed, p, s)
    && Leaves(|R|, c.rightStart, c.rightEnd, c.rightConsumed, p, s)
  }

  /** Cursors on a list of `n` segments stand right inside `p` and `s` segments that are taken. */
  ghost predicate Leaves(n: nat, start: nat, end: nat, consumed: bool, p: nat, s: nat) {
    if consumed then start == end && p + s == n else start == p && end + 1 == n - s
  }

  /** How many segments go to the suffix when the shared ones use up a list of m: half of them, rounded up, or
      what the prefix cannot take, but never more than are shared there. */
  function BackShare(P: nat, S: nat, m: nat): (s: nat)
    requires P <= m
  {
    var half := if (m + 1) / 2 < m - P then m - P else (m + 1) / 2;
    if S < half then S else half
  }

  /** The cut is a longest one: nothing shared is left at either end, or one side is used up. The
      last segments of two equal lists may be kept when they are text, as the text tail finds them. */
  ghost predicate Longest(L: seq<Segment>, R: seq<Segment>, p: nat, s: nat) {
    var P, S, m := CommonPrefix(L, R), CommonSuffix(L, R), Smaller(|L|, |R|);
    if P + S < m then p == P && s == S
    else if L == R then p + s == m || (p + s == m - 1 && L[p].kind == TEXT)
    else p + s == m && s == BackShare(P, S, m)
  }

  /** The longer side when the shorter one is used up and one of its segments is counted again: at the back if it
      is the next one there, and otherwise in front. */
  ghost predicate CountedTwice(a: seq<Segment>, b: seq<Segment>, prefix: string, suffix: string, rest: string)
    requires MatchedTwice(a, b)
  {
    var k := |a| / 2;
    if |b| == |a| + 1 then rest == ""
    else if a[k] == b[|b| - 1 - k] then
      prefix == Join(a[..k]) && suffix == a[k].value + Join(a[k..]) && rest == Join(b[k..|b| - 1 - k]) != ""
    else prefix == Join(a[..k]) + a[k].value && suffix == Join(a[k..]) && rest == Join(b[k + 1..|b| - k]) != ""
  }

  /** `x` is used up and the text counted as shared is longer than it. */
  ghost predicate Overrun(x: seq<Segment>, over: seq<Segment>, c: Cursors) {
    over == [] && |c.prefix| + |c.suffix| > |Join(x)|
  }

  /** What the branches after the loop leave. */
  ghost predicate Absorbed(L: seq<Segment>, R: seq<Segment>, c: Cursors, p: nat, s: nat) {
    && InRange(L, R, c)
    && if MatchedTwice(L, R) then
         Overrun(L, LeftOver(L, c), c) && CountedTwice(L, R, c.prefix, c.suffix, Join(RightOver(R, c)))
       else if MatchedTwice(R, L) then
         Overrun(R, RightOver(R, c), c) && CountedTwice(R, L, c.prefix, c.suffix, Join(LeftOver(L, c)))
       else (L == R && LeftOver(L, c) == RightOver(R, c) == []) || (Cut(L, R, c, p, s) && Longest(L, R, p, s))
  }

  /** The branches after the loop, on a side that is down to one segment. */
  function AbsorbLast(L: seq<Segment>, R: seq<Segment>, c: Cursors): (r: Cursors)
    requires c.leftStart <= c.leftEnd < |L| && c.rightStart <= c.rightEnd < |R|
    ensures r.leftStart <= r.leftEnd < |L| && r.rightStart <= r.rightEnd < |R|
  {
    if c.leftStart == c.leftEnd && c.rightStart != c.rightEnd then
      if L[c.leftStart] == R[c.rightEnd] then
        c.(suffix := R[c.rightEnd].value + c.suffix, rightEnd := c.rightEnd - 1, leftConsumed := true)
      else if L[c.leftStart] == R[c.rightStart] then
        c.(prefix := c.prefix + R[c.rightStart].value, rightStart := c.rightStart + 1, leftConsumed := true)
      else c
    else if c.rightStart == c.rightEnd && c.leftStart != c.leftEnd then
      if L[c.leftEnd] == R[c.rightStart] then
        c.(suffix := L[c.leftEnd].value + c.suffix, leftEnd := c.leftEnd - 1, rightConsumed := true)
      else if L[c.leftStart] == R[c.rightStart] then
        c.(prefix := c.prefix + L[c.leftStart].value, leftStart := c.leftStart + 1, rightConsumed := true)
      else c
    else if c.leftStart == c.leftEnd && c.rightStart == c.rightEnd && L[c.leftStart] == R[c.rightStart]
            && L[c.leftStart].kind == MARKER then
      c.(prefix := c.prefix + R[c.rightStart].value, leftConsumed := true, rightConsumed := true)
    else c
  }

  /** Neither flag set by the loop: the branches take at most one more shared segment. */
  lemma AbsorbOpen(L: seq<Segment>, R: seq<Segment>, c: Cursors, rounds: nat) returns (p: nat, s: nat)
    requires LoopDone(L, R, c, rounds) && !c.leftConsumed && !c.rightConsumed
    ensures Cut(L, R, AbsorbLast(L, R, c), p, s) && Longest(L, R, p, s)
  {
    hide *;
    p, s := AbsorbCounts(L, R, c, rounds);
    AbsorbTexts(L, R, c, rounds, p, s);
  }

  /** How many segments the branches take: one at the back if the backs still match, else one
      in front if the fronts do and one side is down to its last segment. */
  ghost predicate Takes(L: seq<Segment>, R: seq<Segment>, c: Cursors, p: nat, s: nat) {
    && InRange(L, R, c)
    && var p0, s0, r := c.leftStart, BackCount(L, c), AbsorbLast(L, R, c);
    && (|| (p == p0 && s == s0 && r == c)
        || (p == p0 + 1 && s == s0 && p0 < |L| && r.prefix == c.prefix + L[p0].value && r.suffix == c.suffix)
        || (p == p0 && s == s0 + 1 && s0 < |L| && r.prefix == c.prefix && r.suffix == L[|L| - 1 - s0].value + c.suffix))
    && p + s <= |L| && p + s <= |R| && p <= CommonPrefix(L, R) && s <= CommonSuffix(L, R)
    && Leaves(|L|, r.leftStart, r.leftEnd, r.leftConsumed, p, s)
    && Leaves(|R|, r.rightStart, r.rightEnd, r.rightConsumed, p, s)
  }

  lemma AbsorbCounts(L: seq<Segment>, R: seq<Segment>, c: Cursors, rounds: nat) returns (p: nat, s: nat)
    requires LoopDone(L, R, c, rounds) && !c.leftConsumed && !c.rightConsumed
    ensures Takes(L, R, c, p, s) && Longest(L, R, p, s)
  {
    hide Join, CommonPrefix, CommonSuffix, AgreeFront, AgreeBack;
    p, s := c.leftStart, BackCount(L, c);
    NextMatches(L, R, p, s);
    if |L| == |R| && p + s + 1 == |L| && L[p] == R[p] {
      SameButOne(L, R, p);
      p := if L[p].kind == MARKER then p + 1 else p;
    } else if |L| != |R| && p + s + 1 == Smaller(|L|, |R|) {
      if s < CommonSuffix(L, R) {
        s := s + 1;
      } else if p < CommonPrefix(L, R) {
        p := p + 1;
      }
    }
  }

  lemma SameButOne(L: seq<Segment>, R: seq<Segment>, p: nat)
    requires |L| == |R| && p < |L| && L[p] == R[p]
    requires p <= CommonPrefix(L, R) && |L| - p - 1 <= CommonSuffix(L, R)
    ensures L == R && CommonPrefix(L, R) == CommonSuffix(L, R) == |L|
  {
    hide CommonPrefix, CommonSuffix;
    WithinCommonPrefix(L, R, p);
    WithinCommonSuffix(L, R, |L| - p - 1);
    WithinCommonPrefix(L, R, p + 1);
    SameEnds(L, R, p + 1);
    WithinCommonPrefix(L, R, |L|);
    WithinCommonSuffix(L, R, |L|);
  }

  lemma AbsorbTexts(L: seq<Segment>, R: seq<Segment>, c: Cursors, rounds: nat, p: nat, s: nat)
    requires LoopDone(L, R, c, rounds) && Takes(L, R, c, p, s)
    ensures Cut(L, R, AbsorbLast(L, R, c), p, s)
  {
    hide Join, CommonPrefix, CommonSuffix, AbsorbLast, AgreeFront, AgreeBack;
    var p0, s0 := c.leftStart, BackCount(L, c);
    if p > p0 {
      JoinGrowsFront(L, p0);
    } else if s > s0 {
      JoinGrowsBack(L, |L| - 1 - s0);
    }
  }

  /** The left segments used up by the loop alone, and the branches taking one of them again. */
  lemma AbsorbHalvedLeft(L: seq<Segment>, R: seq<Segment>, c: Cursors, rounds: nat)
    requires LoopDone(L, R, c, rounds) && c.leftConsumed && !c.rightConsumed && NoneEmpty(L) && NoneEmpty(R)
    ensures Absorbed(L, R, AbsorbLast(L, R, c), c.leftStart, c.leftStart)
  {
    hide Join, CommonPrefix, CommonSuffix, AgreeFront, AgreeBack, CountedTwice;
    ConsumedIffHalved(L, R, c, rounds);
    JoinSplit(L, c.leftStart);
    if MatchedTwice(L, R) {
      CountedOnTheLeft(L, R, c, rounds);
    }
  }

  lemma CountedOnTheLeft(L: seq<Segment>, R: seq<Segment>, c: Cursors, rounds: nat)
    requires LoopDone(L, R, c, rounds) && c.leftConsumed && !c.rightConsumed && NoneEmpty(R) && MatchedTwice(L, R)
    ensures var r := AbsorbLast(L, R, c);
            CountedTwice(L, R, r.prefix, r.suffix, Join(RightOver(R, r)))
  {
    hide Join, CommonPrefix, CommonSuffix, AgreeFront, AgreeBack;
    JoinNonEmpty(RightOver(R, AbsorbLast(L, R, c)));
  }

  lemma AbsorbHalvedRight(L: seq<Segment>, R: seq<Segment>, c: Cursors, rounds: nat)
    requires LoopDone(L, R, c, rounds) && c.rightConsumed && !c.leftConsumed && NoneEmpty(L) && NoneEmpty(R)
    ensures Absorbed(L, R, AbsorbLast(L, R, c), c.leftStart, c.leftStart)
  {
    hide Join, CommonPrefix, CommonSuffix, AgreeFront, AgreeBack, CountedTwice;
    ConsumedIffHalved(L, R, c, rounds);
    var k := c.leftStart;
    SlicesAgree(L, R, k, k);
    JoinSplit(R, k);
    if MatchedTwice(R, L) {
      CountedOnTheRight(L, R, c, rounds);
    }
  }

  lemma CountedOnTheRight(L: seq<Segment>, R: seq<Segment>, c: Cursors, rounds: nat)
    requires LoopDone(L, R, c, rounds) && c.rightConsumed && !c.leftConsumed && NoneEmpty(L) && MatchedTwice(R, L)
    ensures var r := AbsorbLast(L, R, c);
            CountedTwice(R, L, r.prefix, r.suffix, Join(LeftOver(L, r)))
  {
    hide Join, CommonPrefix, CommonSuffix, AgreeFront, AgreeBack;
    SlicesAgree(L, R, c.leftStart, c.leftStart);
    JoinNonEmpty(LeftOver(L, AbsorbLast(L, R, c)));
  }

  lemma AbsorbBoth(L: seq<Segment>, R: seq<Segment>, c: Cursors, rounds: nat)
    requires LoopDone(L, R, c, rounds) && c.leftConsumed && c.rightConsumed
    ensures Absorbed(L, R, AbsorbLast(L, R, c), c.leftStart, c.leftStart)
  {
    hide Join, CommonPrefix, CommonSuffix, AgreeFront, AgreeBack;
    ConsumedIffHalved(L, R, c, rounds);
  }

  lemma JoinSplit(L: seq<Segment>, p: nat)
    requires p <= |L|
    ensures Join(L) == Join(L[..p]) + Join(L[p..])
  {
    assert L == L[..p] + L[p..];
    JoinAppend(L[..p], L[p..]);
  }

  lemma SlicesAgree(L: seq<Segment>, R: seq<Segment>, p: nat, s: nat)
    requires p <= |L| && p <= |R| && s <= |L| && s <= |R|
    requires p <= CommonPrefix(L, R) && s <= CommonSuffix(L, R)
    ensures L[..p] == R[..p] && L[|L| - s..] == R[|R| - s..]
  {
    hide CommonPrefix, CommonSuffix;
    WithinCommonPrefix(L, R, p);
    WithinCommonSuffix(L, R, s);
    BackSlices(L, R, s);
  }

  lemma AbsorbAll(L: seq<Segment>, R: seq<Segment>, c: Cursors, rounds: nat) returns (p: nat, s: nat)
    requires LoopDone(L, R, c, rounds) && NoneEmpty(L) && NoneEmpty(R)
    ensures Absorbed(L, R, AbsorbLast(L, R, c), p, s)
  {
    hide Join, CommonPrefix, CommonSuffix, AgreeFront, AgreeBack, AbsorbLast;
    p, s := c.leftStart, c.leftStart;
    if c.leftConsumed && c.rightConsumed {
      AbsorbBoth(L, R, c, rounds);
    } else if c.leftConsumed {
      AbsorbHalvedLeft(L, R, c, rounds);
    } else if c.rightConsumed {
      AbsorbHalvedRight(L, R, c, rounds);
    } else {
      ConsumedIffHalved(L, R, c, rounds);
      p, s := AbsorbOpen(L, R, c, rounds);
    }
  }

  method CommonPrefixLen(a: string, b: string) returns (n: nat)
    ensures n == CommonPrefix(a, b)
  {
    n := 0;
    var minLen := if |a| < |b| then |a| else |b|;
    while n < minLen && a[n] == b[n]
      invariant n <= minLen && AgreeFront(a, b, n)
    {
      n := n + 1;
    }
    WithinCommonPrefix(a, b, n);
    WithinCommonPrefix(a, b, n + 1);
  }

  method CommonSuffixLen(a: string, b: string) returns (n: nat)
    ensures n == CommonSuffix(a, b)
  {
    n := 0;
    var minLen := if |a| < |b| then |a| else |b|;
    while n < minLen && a[|a| - 1 - n] == b[|b| - 1 - n]
      invariant n <= minLen && AgreeBack(a, b, n)
    {
      assert FromBack(a, n) == FromBack(b, n);
      n := n + 1;
    }
    WithinCommonSuffix(a, b, n);
    WithinCommonSuffix(a, b, n + 1);
    assert n < minLen ==> FromBack(a, n) != FromBack(b, n);
  }

  method SplitTexts(prefix: string, suffix: string, remL: string, remR: string, canSuffix: bool, canPrefix: bool)
    returns (d: DiffSplit)
    ensures d == TextTail(prefix, suffix, remL, remR, canSuffix, canPrefix)
  {
    hide CommonPrefix, CommonSuffix;
    var suffixLen, prefixLen := 0, 0;
    if canSuffix {
      suffixLen := CommonSuffixLen(remL, remR);
    }
    if canPrefix {
      prefixLen := CommonPrefixLen(remL[..|remL| - suffixLen], remR[..|remR| - suffixLen]);
    }
    d := DiffSplit(prefix + remL[..prefixLen], remL[|remL| - suffixLen..] + suffix,
                   remL[prefixLen..|remL| - suffixLen], remR[prefixLen..|remR| - suffixLen]);
  }

  /** Both fix-ups. */
  function FixUp(d: DiffSplit, left: string, right: string): (split: DiffSplit) {
    Unrotated(if d.left == "" && d.right == "" then d.(prefix := left, suffix := "") else d, left, right)
  }

  lemma TextTailOfNothing(prefix: string, suffix: string, rem: string, canSuffix: bool, canPrefix: bool)
    ensures TextTail(prefix, suffix, "", rem, canSuffix, canPrefix) == DiffSplit(prefix, suffix, "", rem)
    ensures TextTail(prefix, suffix, rem, "", canSuffix, canPrefix) == DiffSplit(prefix, suffix, rem, "")
  {
  }

  /** One side used up with too much counted as shared: only the last fix-up can save the split. */
  lemma OverrunLeft(left: string, right: string, prefix: string, suffix: string, remR: string)
    requires |prefix| + |suffix| > |left| && left != right
    ensures var d := FixUp(DiffSplit(prefix, suffix, "", remR), left, right);
            && (Reconstructs(d, left, right) <==> remR != "" && left <= right)
            && (remR == "" ==> d == DiffSplit(left, "", "", ""))
  {
    if left <= right {
      assert right == left + right[|left|..];
    }
  }

  lemma OverrunRight(left: string, right: string, prefix: string, suffix: string, remL: string)
    requires |prefix| + |suffix| > |right| && left != right
    ensures !Reconstructs(FixUp(DiffSplit(prefix, suffix, remL, ""), left, right), left, right)
  {
    if remL == "" {
      assert left + "" + "" == left;
    }
  }

  /** Fix-ups keep a split that reconstructs its texts. */
  lemma FixUpReconstructs(d: DiffSplit, left: string, right: string)
    requires Reconstructs(d, left, right)
    ensures Reconstructs(FixUp(d, left, right), left, right)
  {
    if d.left == "" && d.right == "" {
      assert left == right;
    }
    if left <= right {
      assert right == left + right[|left|..];
    }
  }

  /** The pre-fix-up split at given cursors. */
  function TailAt(L: seq<Segment>, R: seq<Segment>, c: Cursors): (split: DiffSplit)
    requires c.leftStart <= c.leftEnd < |L| && c.rightStart <= c.rightEnd < |R|
  {
    TextTail(c.prefix, c.suffix, Join(LeftOver(L, c)), Join(RightOver(R, c)),
             L[c.leftEnd].kind == TEXT && R[c.rightEnd].kind == TEXT,
             L[c.leftStart].kind == TEXT && R[c.rightStart].kind == TEXT)
  }

  // ---------- What the split is, in its own terms

  /** z is the longest text that both x and y end with. */
  ghost predicate LongestEnd(z: string, x: string, y: string) {
    && |z| <= |x| && |z| <= |y| && x[|x| - |z|..] == z == y[|y| - |z|..]
    && (|z| < |x| && |z| < |y| ==> x[|x| - 1 - |z|] != y[|y| - 1 - |z|])
  }

  /** a is the longest text that both x and y start with. */
  ghost predicate LongestStart(a: string, x: string, y: string) {
    && a <= x && a <= y
    && (|a| < |x| && |a| < |y| ==> x[|a|] != y[|a|])
  }

  /** The differences x and y are cut further: the longest common end goes to the suffix where that is allowed, then
      the longest common start of what is left to the prefix. */
  ghost predicate IsTextCut(d: DiffSplit, prefix: string, suffix: string, x: string, y: string,
                            canSuffix: bool, canPrefix: bool)
  {
    && prefix <= d.prefix && |suffix| <= |d.suffix|
    && var a, z := d.prefix[|prefix|..], d.suffix[..|d.suffix| - |suffix|];
    && d.suffix == z + suffix && x == a + d.left + z && y == a + d.right + z
    && (if canSuffix then LongestEnd(z, x, y) else z == "")
    && (if canPrefix then LongestStart(a, a + d.left, a + d.right) else a == "")
  }

  /** All shared segments are cut off, and what remains on both sides is cut as texts. */
  ghost predicate IsInnerCut(d: DiffSplit, L: seq<Segment>, R: seq<Segment>) {
    var P, S := CommonPrefix(L, R), CommonSuffix(L, R);
    && P + S < |L| && P + S < |R|
    && IsTextCut(d, FrontText(L, P), BackText(L, S), MiddleText(L, P, S), MiddleText(R, P, S),
                 L[|L| - 1 - S].kind == TEXT && R[|R| - 1 - S].kind == TEXT, L[P].kind == TEXT && R[P].kind == TEXT)
  }

  /** Shared segments use up a side, those of the suffix first once both ends have given as many. */
  ghost predicate IsUsedUp(d: DiffSplit, L: seq<Segment>, R: seq<Segment>) {
    var m := Smaller(|L|, |R|);
    var s := BackShare(CommonPrefix(L, R), CommonSuffix(L, R), m);
    var p := m - s;
    && p >= 0 && d == DiffSplit(FrontText(L, p), BackText(L, s), MiddleText(L, p, s), MiddleText(R, p, s))
  }

  /** The split before the fix-ups: with shared segments used up on one side, counted twice there, or neither. */
  ghost predicate IsCut(d: DiffSplit, L: seq<Segment>, R: seq<Segment>) {
    if MatchedTwice(L, R) then d.left == "" && CountedTwice(L, R, d.prefix, d.suffix, d.right)
    else if MatchedTwice(R, L) then d.right == "" && CountedTwice(R, L, d.prefix, d.suffix, d.left)
    else if CommonPrefix(L, R) + CommonSuffix(L, R) < Smaller(|L|, |R|) then IsInnerCut(d, L, R)
    else if L == R then d.left == d.right == ""
    else IsUsedUp(d, L, R)
  }

  /** With no difference all of the text is the prefix, and a left text that the right one goes on with is the prefix
      too. */
  ghost predicate IsFixed(d0: DiffSplit, d: DiffSplit, left: string, right: string) {
    if d0.left == "" && d0.right == "" then d == DiffSplit(left, "", "", "")
    else if d0.left == "" && left <= right then d == DiffSplit(left, "", "", right[|left|..])
    else d == d0
  }

  /** What a split of two texts is. */
  ghost predicate IsSplitOf(d: DiffSplit, left: string, right: string) {
    var L, R := Segmentation(left), Segmentation(right);
    var P, S, m := CommonPrefix(L, R), CommonSuffix(L, R), Smaller(|L|, |R|);
    && (Reconstructs(d, left, right) <==>
        !MatchedTwice(R, L) && (MatchedTwice(L, R) ==> |L| + 2 <= |R| && left <= right))
    && (left == right ==> d == DiffSplit(left, "", "", ""))
    && (MatchedTwice(L, R) && |R| == |L| + 1 ==> d == DiffSplit(left, "", "", ""))
    && (!MatchedTwice(L, R) && !MatchedTwice(R, L) && P + S >= m ==>
        (|L| <= |R| ==> d.left == "") && (|R| <= |L| ==> d.right == ""))
    && exists d0 :: IsCut(d0, L, R) && IsFixed(d0, d, left, right)
  }

  lemma FixUpFixes(d: DiffSplit, left: string, right: string)
    ensures IsFixed(d, FixUp(d, left, right), left, right)
  {
  }

  /** The text tail cuts the longest texts off that it may. */
  lemma TextTailCuts(prefix: string, suffix: string, x: string, y: string, canSuffix: bool, canPrefix: bool)
    ensures IsTextCut(TextTail(prefix, suffix, x, y, canSuffix, canPrefix), prefix, suffix, x, y, canSuffix, canPrefix)
  {
    hide CommonPrefix, CommonSuffix, LongestEnd, LongestStart, IsTextCut;
    var ts := if canSuffix then CommonSuffix(x, y) else 0;
    var x', y' := x[..|x| - ts], y[..|y| - ts];
    var tp := if canPrefix then CommonPrefix(x', y') else 0;
    var a, z := x[..tp], x[|x| - ts..];
    CommonEnd(x, y, ts);
    CommonStart(x', y', tp);
    CutParts(x, y, tp, ts);
    NothingMoved(x, ts, tp);
    CutIs(prefix, suffix, a, z, x, y, x[tp..|x| - ts], y[tp..|y| - ts], canSuffix, canPrefix);
  }

  lemma NothingMoved(x: string, ts: nat, tp: nat)
    requires ts <= |x| && tp <= |x|
    ensures (ts == 0 ==> x[|x| - ts..] == "") && (tp == 0 ==> x[..tp] == "")
  {
  }

  lemma CutIs(prefix: string, suffix: string, a: string, z: string, x: string, y: string, left: string,
              right: string, canSuffix: bool, canPrefix: bool)
    requires x == a + left + z && y == a + right + z
    requires if canSuffix then LongestEnd(z, x, y) else z == ""
    requires if canPrefix then LongestStart(a, a + left, a + right) else a == ""
    ensures IsTextCut(DiffSplit(prefix + a, z + suffix, left, right), prefix, suffix, x, y, canSuffix, canPrefix)
  {
    hide LongestEnd, LongestStart;
    assert (prefix + a)[|prefix|..] == a && (z + suffix)[..|z|] == z;
  }

  lemma CommonEnd(x: string, y: string, ts: nat)
    requires ts == CommonSuffix(x, y) || ts == 0
    ensures ts <= |x| && ts <= |y| && x[|x| - ts..] == y[|y| - ts..]
    ensures ts == CommonSuffix(x, y) ==> LongestEnd(x[|x| - ts..], x, y)
  {
    hide CommonSuffix, AgreeBack;
    assert AgreeBack(x, y, ts) by { WithinCommonSuffix(x, y, ts); }
    BackSlices(x, y, ts);
    assert ts == CommonSuffix(x, y) && ts < |x| && ts < |y| ==> FromBack(x, ts) != FromBack(y, ts);
  }

  lemma CommonStart(x: string, y: string, tp: nat)
    requires tp == CommonPrefix(x, y) || tp == 0
    ensures tp <= |x| && tp <= |y| && x[..tp] == y[..tp]
    ensures tp == CommonPrefix(x, y) ==> LongestStart(x[..tp], x, y)
  {
  }

  lemma CutParts(x: string, y: string, tp: nat, ts: nat)
    requires tp + ts <= |x| && tp + ts <= |y|
    requires x[|x| - ts..] == y[|y| - ts..] && x[..|x| - ts][..tp] == y[..|y| - ts][..tp]
    ensures var a, z := x[..tp], x[|x| - ts..];
            && x[..|x| - ts][..tp] == a && x[..|x| - ts] == a + x[tp..|x| - ts] && y[..|y| - ts] == a + y[tp..|y| - ts]
            && x == a + x[tp..|x| - ts] + z && y == a + y[tp..|y| - ts] + z
  {
    assert y[..tp] == y[..|y| - ts][..tp];
  }

  lemma Reassemble(d: DiffSplit, prefix: string, suffix: string, x: string, y: string, canSuffix: bool, canPrefix: bool)
    requires IsTextCut(d, prefix, suffix, x, y, canSuffix, canPrefix)
    ensures Reconstructs(d, prefix + x + suffix, prefix + y + suffix)
  {
    hide LongestEnd, LongestStart;
    var a, z := d.prefix[|prefix|..], d.suffix[..|d.suffix| - |suffix|];
    assert d.prefix == prefix + a;
    Grouped(prefix, a, d.left, z, suffix);
    Grouped(prefix, a, d.right, z, suffix);
  }

  lemma Grouped(prefix: string, a: string, x: string, z: string, suffix: string)
    ensures (prefix + a) + x + (z + suffix) == prefix + (a + x + z) + suffix
  {
  }

  /** The text tail moves characters, it loses none. */
  lemma TextTailReconstructs(prefix: string, suffix: string, remL: string, remR: string, canSuffix: bool,
                             canPrefix: bool)
    ensures var d := TextTail(prefix, suffix, remL, remR, canSuffix, canPrefix);
            Reconstructs(d, prefix + remL + suffix, prefix + remR + suffix)
  {
    hide TextTail, IsTextCut, Reconstructs;
    var d := TextTail(prefix, suffix, remL, remR, canSuffix, canPrefix);
    TextTailCuts(prefix, suffix, remL, remR, canSuffix, canPrefix);
    Reassemble(d, prefix, suffix, remL, remR, canSuffix, canPrefix);
  }

  lemma SelfCommon(L: seq<Segment>)
    ensures CommonPrefix(L, L) == CommonSuffix(L, L) == |L|
  {
    WithinCommonPrefix(L, L, |L|);
    WithinCommonSuffix(L, L, |L|);
  }

  /** Two texts with their tokenizations. */
  ghost predicate Tokenized(left: string, right: string, L: seq<Segment>, R: seq<Segment>) {
    && L == Segmentation(left) && R == Segmentation(right)
    && Join(L) == left && Join(R) == right && NoneEmpty(L) && NoneEmpty(R)
    && (left == right <==> L == R)
  }

  lemma Tokenize(left: string, right: string)
    ensures Tokenized(left, right, Segmentation(left), Segmentation(right))
  {
    SegmentationReconstructs(left);
    SegmentationReconstructs(right);
  }

  lemma JoinNonEmpty(X: seq<Segment>)
    requires NoneEmpty(X)
    ensures Join(X) == "" <==> X == []
  {
  }

  /** A side that is used up leaves what was cut, and the rest of the other side. */
  lemma TailOfUsedUp(L: seq<Segment>, R: seq<Segment>, c: Cursors)
    requires InRange(L, R, c)
    ensures LeftOver(L, c) == [] ==> TailAt(L, R, c) == DiffSplit(c.prefix, c.suffix, "", Join(RightOver(R, c)))
    ensures RightOver(R, c) == [] ==> TailAt(L, R, c) == DiffSplit(c.prefix, c.suffix, Join(LeftOver(L, c)), "")
  {
    hide TextTail;
    var canSuffix := L[c.leftEnd].kind == TEXT && R[c.rightEnd].kind == TEXT;
    var canPrefix := L[c.leftStart].kind == TEXT && R[c.rightStart].kind == TEXT;
    TextTailOfNothing(c.prefix, c.suffix, Join(RightOver(R, c)), canSuffix, canPrefix);
    TextTailOfNothing(c.prefix, c.suffix, Join(LeftOver(L, c)), canSuffix, canPrefix);
  }

  lemma SplitLeftTwice(left: string, right: string, L: seq<Segment>, R: seq<Segment>, d: DiffSplit)
    requires Tokenized(left, right, L, R) && MatchedTwice(L, R) && |d.prefix| + |d.suffix| > |left| && d.left == ""
    requires CountedTwice(L, R, d.prefix, d.suffix, d.right)
    ensures IsSplitOf(FixUp(d, left, right), left, right)
  {
    hide Join, CommonPrefix, CommonSuffix, Segmentation, FixUp, Reconstructs;
    OverrunLeft(left, right, d.prefix, d.suffix, d.right);
    FixUpFixes(d, left, right);
    assert IsCut(d, L, R);
  }

  lemma SplitRightTwice(left: string, right: string, L: seq<Segment>, R: seq<Segment>, d: DiffSplit)
    requires Tokenized(left, right, L, R) && MatchedTwice(R, L) && |d.prefix| + |d.suffix| > |right| && d.right == ""
    requires CountedTwice(R, L, d.prefix, d.suffix, d.left)
    ensures IsSplitOf(FixUp(d, left, right), left, right)
  {
    hide Join, CommonPrefix, CommonSuffix, Segmentation, FixUp, Reconstructs;
    OverrunRight(left, right, d.prefix, d.suffix, d.left);
    FixUpFixes(d, left, right);
    NotHalvedBoth(L, R);
    assert IsCut(d, L, R);
  }

  lemma NotHalvedBoth(L: seq<Segment>, R: seq<Segment>)
    requires MatchedTwice(R, L)
    ensures !MatchedTwice(L, R)
  {
  }

  /** Nothing is left on either side: there is no difference. */
  lemma NoDifference(d: DiffSplit, text: string)
    requires d.left == "" && d.right == ""
    ensures FixUp(d, text, text) == DiffSplit(text, "", "", "")
    ensures Reconstructs(DiffSplit(text, "", "", ""), text, text)
  {
  }

  lemma SplitEqual(text: string, L: seq<Segment>, d: DiffSplit)
    requires Tokenized(text, text, L, L) && d.left == "" && d.right == ""
    ensures IsSplitOf(FixUp(d, text, text), text, text)
  {
    hide Join, CommonPrefix, CommonSuffix, Segmentation, FixUp, Reconstructs, AgreeFront, AgreeBack;
    NoDifference(d, text);
    SelfCommon(L);
    FixUpFixes(d, text, text);
    assert IsCut(d, L, L);
  }

  /** Lists that are used up on one side. */
  lemma SplitUsedUp(left: string, right: string, L: seq<Segment>, R: seq<Segment>, d: DiffSplit)
    requires Tokenized(left, right, L, R) && L != R && !MatchedTwice(L, R) && !MatchedTwice(R, L)
    requires Reconstructs(d, left, right) && CommonPrefix(L, R) + CommonSuffix(L, R) >= Smaller(|L|, |R|)
    requires (|L| <= |R| ==> d.left == "") && (|R| <= |L| ==> d.right == "") && IsCut(d, L, R)
    ensures IsSplitOf(FixUp(d, left, right), left, right)
  {
    hide Join, CommonPrefix, CommonSuffix, Segmentation, MatchedTwice, Reconstructs, IsCut;
    FixUpReconstructs(d, left, right);
    FixUpFixes(d, left, right);
  }

  lemma SplitRemainders(left: string, right: string, L: seq<Segment>, R: seq<Segment>, d: DiffSplit)
    requires Tokenized(left, right, L, R) && !MatchedTwice(L, R) && !MatchedTwice(R, L)
    requires CommonPrefix(L, R) + CommonSuffix(L, R) < Smaller(|L|, |R|)
    requires d == SplitAt(L, R, CommonPrefix(L, R), CommonSuffix(L, R)) && Reconstructs(d, left, right)
    ensures IsSplitOf(FixUp(d, left, right), left, right)
  {
    hide Join, CommonPrefix, CommonSuffix, Segmentation, MatchedTwice, SplitAt, IsCut, IsFixed, Reconstructs, FixUp;
    SelfCommon(L);
    FixUpReconstructs(d, left, right);
    FixUpFixes(d, left, right);
    SplitAtCuts(L, R, d);
    SplitOfEqual(left, right, d);
  }

  lemma SplitOfEqual(left: string, right: string, d: DiffSplit)
    requires Reconstructs(d, left, right)
    ensures left == right && d.left == "" ==> FixUp(d, left, right) == DiffSplit(left, "", "", "")
  {
  }

  lemma SplitAtCuts(L: seq<Segment>, R: seq<Segment>, d: DiffSplit)
    requires !MatchedTwice(L, R) && !MatchedTwice(R, L)
    requires CommonPrefix(L, R) + CommonSuffix(L, R) < Smaller(|L|, |R|)
    requires d == SplitAt(L, R, CommonPrefix(L, R), CommonSuffix(L, R))
    ensures IsCut(d, L, R)
  {
    hide CommonPrefix, CommonSuffix, MatchedTwice, IsInnerCut, SplitAt;
    SplitAtIsInner(L, R);
  }

  lemma SplitAtIsInner(L: seq<Segment>, R: seq<Segment>)
    requires CommonPrefix(L, R) + CommonSuffix(L, R) < |L| && CommonPrefix(L, R) + CommonSuffix(L, R) < |R|
    ensures IsInnerCut(SplitAt(L, R, CommonPrefix(L, R), CommonSuffix(L, R)), L, R)
  {
    hide FrontText, BackText, MiddleText, CommonPrefix, CommonSuffix, TextTail, IsTextCut, AgreeFront, AgreeBack;
    var P, S := CommonPrefix(L, R), CommonSuffix(L, R);
    TextTailCuts(FrontText(L, P), BackText(L, S), MiddleText(L, P, S), MiddleText(R, P, S),
                 L[|L| - 1 - S].kind == TEXT && R[|R| - 1 - S].kind == TEXT, L[P].kind == TEXT && R[P].kind == TEXT);
  }

  lemma LeavesSlice(X: seq<Segment>, start: nat, end: nat, consumed: bool, p: nat, s: nat)
    requires start <= end < |X| && p + s <= |X| && Leaves(|X|, start, end, consumed, p, s)
    ensures Remainder(X, start, end, consumed) == X[p..|X| - s]
  {
  }

  /** Cutting shared segments off both ends keeps both texts whole. */
  lemma CutReconstructs(L: seq<Segment>, R: seq<Segment>, c: Cursors, p: nat, s: nat)
    requires Cut(L, R, c, p, s)
    ensures Reconstructs(TailAt(L, R, c), Join(L), Join(R))
  {
    hide Join, CommonPrefix, CommonSuffix, TextTail, AgreeFront, AgreeBack, Reconstructs;
    LeavesSlice(L, c.leftStart, c.leftEnd, c.leftConsumed, p, s);
    LeavesSlice(R, c.rightStart, c.rightEnd, c.rightConsumed, p, s);
    SlicesAgree(L, R, p, s);
    JoinThree(L, p, s);
    JoinThree(R, p, s);
    TextTailReconstructs(c.prefix, c.suffix, Join(LeftOver(L, c)), Join(RightOver(R, c)),
                         L[c.leftEnd].kind == TEXT && R[c.rightEnd].kind == TEXT,
                         L[c.leftStart].kind == TEXT && R[c.rightStart].kind == TEXT);
  }

  lemma JoinThree(X: seq<Segment>, p: nat, s: nat)
    requires p + s <= |X|
    ensures Join(X) == Join(X[..p]) + Join(X[p..|X| - s]) + Join(X[|X| - s..])
  {
    hide Join;
    var front := X[..|X| - s];
    JoinSplit(X, |X| - s);
    JoinSplit(front, p);
    assert front[..p] == X[..p] && front[p..] == X[p..|X| - s];
  }

  /** What the cut leaves, read as the split it is. */
  lemma CutTail(L: seq<Segment>, R: seq<Segment>, c: Cursors, p: nat, s: nat)
    requires Cut(L, R, c, p, s) && p + s < |L| && p + s < |R|
    ensures TailAt(L, R, c) == SplitAt(L, R, p, s)
  {
    hide Join, CommonPrefix, CommonSuffix, AgreeFront, AgreeBack, TextTail;
    LeavesSlice(L, c.leftStart, c.leftEnd, c.leftConsumed, p, s);
    LeavesSlice(R, c.rightStart, c.rightEnd, c.rightConsumed, p, s);
  }

  lemma CutTailUsedUp(L: seq<Segment>, R: seq<Segment>, c: Cursors, p: nat, s: nat)
    requires Cut(L, R, c, p, s)
    ensures p + s == |L| ==> TailAt(L, R, c).left == ""
    ensures p + s == |R| ==> TailAt(L, R, c).right == ""
    ensures p + s == |L| || p + s == |R| ==>
              TailAt(L, R, c) == DiffSplit(FrontText(L, p), BackText(L, s), MiddleText(L, p, s), MiddleText(R, p, s))
  {
    hide Join, CommonPrefix, CommonSuffix, AgreeFront, AgreeBack, TextTail;
    LeavesSlice(L, c.leftStart, c.leftEnd, c.leftConsumed, p, s);
    LeavesSlice(R, c.rightStart, c.rightEnd, c.rightConsumed, p, s);
    var canSuffix := L[c.leftEnd].kind == TEXT && R[c.rightEnd].kind == TEXT;
    var canPrefix := L[c.leftStart].kind == TEXT && R[c.rightStart].kind == TEXT;
    if p + s == |L| {
      JoinEmpty(LeftOver(L, c));
      TextTailOfNothing(c.prefix, c.suffix, Join(RightOver(R, c)), canSuffix, canPrefix);
    }
    if p + s == |R| {
      JoinEmpty(RightOver(R, c));
      TextTailOfNothing(c.prefix, c.suffix, Join(LeftOver(L, c)), canSuffix, canPrefix);
    }
  }

  lemma JoinEmpty(X: seq<Segment>)
    requires X == []
    ensures Join(X) == ""
  {
  }

  /** One equal text segment on either side is common text. */
  lemma SameTextTail(L: seq<Segment>, p: nat, s: nat)
    requires p + s + 1 == |L| && L[p].kind == TEXT
    ensures SplitAt(L, L, p, s).left == "" && SplitAt(L, L, p, s).right == ""
  {
    hide Join;
    var rem := Join(L[p..|L| - s]);
    WithinCommonSuffix(rem, rem, |rem|);
  }

  lemma UsedUpCuts(L: seq<Segment>, R: seq<Segment>, c: Cursors, p: nat, s: nat)
    requires Cut(L, R, c, p, s) && Longest(L, R, p, s) && L != R && !MatchedTwice(L, R) && !MatchedTwice(R, L)
    requires CommonPrefix(L, R) + CommonSuffix(L, R) >= Smaller(|L|, |R|)
    ensures IsCut(TailAt(L, R, c), L, R)
  {
    hide Join, CommonPrefix, CommonSuffix, MatchedTwice, TailAt, IsUsedUp;
    CutIsUsedUp(L, R, c, p, s);
  }

  lemma CutIsUsedUp(L: seq<Segment>, R: seq<Segment>, c: Cursors, p: nat, s: nat)
    requires Cut(L, R, c, p, s) && p + s == Smaller(|L|, |R|)
    requires s == BackShare(CommonPrefix(L, R), CommonSuffix(L, R), Smaller(|L|, |R|))
    ensures IsUsedUp(TailAt(L, R, c), L, R)
  {
    hide FrontText, BackText, MiddleText, CommonPrefix, CommonSuffix, TailAt, BackShare, Leaves, AgreeFront, AgreeBack;
    CutTailUsedUp(L, R, c, p, s);
  }

  lemma SplitCut(left: string, right: string, L: seq<Segment>, R: seq<Segment>, c: Cursors, p: nat, s: nat)
    requires Tokenized(left, right, L, R) && Cut(L, R, c, p, s) && Longest(L, R, p, s)
    requires !MatchedTwice(L, R) && !MatchedTwice(R, L)
    ensures IsSplitOf(FixUp(TailAt(L, R, c), left, right), left, right)
  {
    hide Join, CommonPrefix, CommonSuffix, AgreeFront, AgreeBack, Segmentation, SplitAt, TextTail, MatchedTwice, FixUp,
         Reconstructs, IsSplitOf, IsCut, TailAt;
    var d := TailAt(L, R, c);
    CutReconstructs(L, R, c, p, s);
    CutTailUsedUp(L, R, c, p, s);
    if p + s < |L| && p + s < |R| {
      CutTail(L, R, c, p, s);
    }
    if CommonPrefix(L, R) + CommonSuffix(L, R) < Smaller(|L|, |R|) {
      SplitRemainders(left, right, L, R, d);
    } else if L == R {
      if p + s < |L| {
        SameTextTail(L, p, s);
      }
      SplitEqual(left, L, d);
    } else {
      UsedUpCuts(L, R, c, p, s);
      SplitUsedUp(left, right, L, R, d);
    }
  }

  lemma SplitIsSplit(left: string, right: string, L: seq<Segment>, R: seq<Segment>, c: Cursors, p: nat, s: nat)
    requires Tokenized(left, right, L, R) && Absorbed(L, R, c, p, s)
    ensures IsSplitOf(FixUp(TailAt(L, R, c), left, right), left, right)
  {
    hide Join, CommonPrefix, CommonSuffix, AgreeFront, AgreeBack, Segmentation, SplitAt, MatchedTwice, FixUp,
         Reconstructs, IsSplitOf, TextTail, CountedTwice, TailAt;
    TailOfUsedUp(L, R, c);
    if MatchedTwice(L, R) {
      SplitLeftTwice(left, right, L, R, TailAt(L, R, c));
    } else if MatchedTwice(R, L) {
      SplitRightTwice(left, right, L, R, TailAt(L, R, c));
    } else if L == R && LeftOver(L, c) == RightOver(R, c) == [] {
      JoinEmpty(LeftOver(L, c));
      JoinEmpty(RightOver(R, c));
      SplitEqual(left, L, TailAt(L, R, c));
    } else {
      SplitCut(left, right, L, R, c, p, s);
    }
  }

  lemma SplitOfNothing(text: string)
    ensures IsSplitOf(DiffSplit("", "", "", text), "", text)
    ensures IsSplitOf(DiffSplit("", "", text, ""), text, "")
  {
    hide Join, Segmentation;
    var S := Segmentation(text);
    assert Segmentation("") == [] && Join([]) == "" && Join(S) == text by { NothingSegmented(text); }
    assert S[..0] == [] == S[|S|..] && S[0..|S|] == S;
    var d, e := DiffSplit("", "", "", text), DiffSplit("", "", text, "");
    NothingCut(S, d, e, text);
    assert IsFixed(d, d, "", text) && IsFixed(e, e, text, "");
  }

  lemma NothingSegmented(text: string)
    ensures Segmentation("") == [] && Join([]) == "" && Join(Segmentation(text)) == text
  {
    SegmentationReconstructs(text);
  }

  lemma NothingCut(S: seq<Segment>, d: DiffSplit, e: DiffSplit, text: string)
    requires Join([]) == "" && Join(S) == text
    requires d == DiffSplit("", "", "", text) && e == DiffSplit("", "", text, "")
    ensures IsCut(d, [], S) && IsCut(e, S, [])
  {
    hide Join, FrontText, BackText, MiddleText;
    NothingTaken(S);
    NothingTaken([]);
  }

  lemma NothingTaken(S: seq<Segment>)
    requires Join([]) == ""
    ensures FrontText(S, 0) == "" && BackText(S, 0) == "" && MiddleText(S, 0, 0) == Join(S)
  {
    hide Join;
    assert S[..0] == [] == S[|S|..] && S[0..|S|] == S;
  }

  method CalculateDiffSplit(left: string, right: string) returns (d: DiffSplit)
    ensures IsSplitOf(d, left, right)
  {
    hide Join, CommonPrefix, CommonSuffix, AgreeFront, AgreeBack, Segmentation, SplitAt, MatchedTwice, Reconstructs,
         IsSplitOf, LoopDone, Matching, Absorbed, AbsorbLast, NoneEmpty;
    var L := SegmentizeMarkers(left);
    var R := SegmentizeMarkers(right);
    Tokenize(left, right);
    if L == [] {
      JoinEmpty(L);
      SplitOfNothing(right);
      return DiffSplit("", "", "", right);
    }
    if R == [] {
      JoinEmpty(R);
      SplitOfNothing(left);
      return DiffSplit("", "", left, "");
    }
    var c0, rounds := MatchEnds(L, R);
    var c := AbsorbLast(L, R, c0);
    ghost var p, s := AbsorbAll(L, R, c0, rounds);
    SplitIsSplit(left, right, L, R, c, p, s);

    var canHaveTextSuffix := L[c.leftEnd].kind == TEXT && R[c.rightEnd].kind == TEXT;
    var canHaveTextPrefix := L[c.leftStart].kind == TEXT && R[c.rightStart].kind == TEXT;
    d := SplitTexts(c.prefix, c.suffix, Join(LeftOver(L, c)), Join(RightOver(R, c)), canHaveTextSuffix,
                    canHaveTextPrefix);
    if d.left == "" && d.right == "" {
      d := d.(prefix := left, suffix := "");
    }
    if d.left == "" && d.right != "" && |left| <= |right| && right[..|left|] == left {
      d := DiffSplit(left, "", "", right[|left|..]);
    }
  }

  /** Only one split cuts two texts so. */
  lemma TextCutUnique(d: DiffSplit, e: DiffSplit, prefix: string, suffix: string, x: string, y: string,
                      canSuffix: bool, canPrefix: bool)
    requires IsTextCut(d, prefix, suffix, x, y, canSuffix, canPrefix)
    requires IsTextCut(e, prefix, suffix, x, y, canSuffix, canPrefix)
    ensures d == e
  {
    hide LongestEnd, LongestStart;
    var a, z := d.prefix[|prefix|..], d.suffix[..|d.suffix| - |suffix|];
    var b, w := e.prefix[|prefix|..], e.suffix[..|e.suffix| - |suffix|];
    SameEndCut(d.left, d.right, a, z, e.left, e.right, b, w, x, y, canSuffix);
    SameStartCut(d.left, d.right, a, e.left, e.right, b, z, x, y, canPrefix);
    assert d.prefix == prefix + a && e.prefix == prefix + b;
  }

  lemma SameEndCut(l: string, r: string, a: string, z: string, l': string, r': string, b: string, w: string,
                   x: string, y: string, canSuffix: bool)
    requires x == a + l + z == b + l' + w && y == a + r + z == b + r' + w
    requires if canSuffix then LongestEnd(z, x, y) && LongestEnd(w, x, y) else z == "" == w
    ensures z == w
  {
    if canSuffix {
      NoLongerEnd(z, w, x, y);
      NoLongerEnd(w, z, x, y);
    }
  }

  lemma NoLongerEnd(z: string, w: string, x: string, y: string)
    requires LongestEnd(z, x, y) && |w| <= |x| && |w| <= |y| && x[|x| - |w|..] == w == y[|y| - |w|..]
    ensures |w| <= |z|
  {
    assert forall i :: |x| - |w| <= i < |x| ==> x[i] == w[i - |x| + |w|] == y[i - |x| + |y|];
  }

  lemma NoLongerStart(a: string, b: string, x: string, y: string)
    requires LongestStart(a, x, y) && b <= x && b <= y
    ensures |b| <= |a|
  {
  }

  lemma SameStartCut(l: string, r: string, a: string, l': string, r': string, b: string, z: string,
                     x: string, y: string, canPrefix: bool)
    requires x == a + l + z == b + l' + z && y == a + r + z == b + r' + z
    requires if canPrefix then LongestStart(a, a + l, a + r) && LongestStart(b, b + l', b + r') else a == "" == b
    ensures a == b && l == l' && r == r'
  {
    var n, k := |x| - |z|, |y| - |z|;
    assert a + l == x[..n] == b + l' && a + r == y[..k] == b + r';
    if canPrefix {
      NoLongerStart(a, b, a + l, a + r);
      NoLongerStart(b, a, b + l', b + r');
    }
    assert a == (a + l)[..|a|] && b == (b + l')[..|b|];
    assert l == (a + l)[|a|..] && l' == (b + l')[|b|..] && r == (a + r)[|a|..] && r' == (b + r')[|b|..];
  }

  /** Where the last remaining segments of both sides are text, the two differences do not end alike, and where the
      first are, they do not start alike. */
  lemma DifferencesDiffer(left: string, right: string, d: DiffSplit)
    requires IsSplitOf(d, left, right)
    requires var L, R := Segmentation(left), Segmentation(right);
             && !MatchedTwice(L, R) && !MatchedTwice(R, L)
             && CommonPrefix(L, R) + CommonSuffix(L, R) < Smaller(|L|, |R|)
    ensures var L, R := Segmentation(left), Segmentation(right);
            var P, S := CommonPrefix(L, R), CommonSuffix(L, R);
            && (L[|L| - 1 - S].kind == TEXT && R[|R| - 1 - S].kind == TEXT ==>
                  d.left == "" || d.right == "" || d.left[|d.left| - 1] != d.right[|d.right| - 1])
            && (L[P].kind == TEXT && R[P].kind == TEXT ==>
                  d.left == "" || d.right == "" || d.left[0] != d.right[0])
  {
    hide Segmentation, CommonPrefix, CommonSuffix, MatchedTwice, Reconstructs, FrontText, BackText, MiddleText,
         IsTextCut;
    var L, R := Segmentation(left), Segmentation(right);
    var d0 :| IsCut(d0, L, R) && IsFixed(d0, d, left, right);
    if d0.left != "" && d0.right != "" {
      var P, S := CommonPrefix(L, R), CommonSuffix(L, R);
      CutEnds(d0, FrontText(L, P), BackText(L, S), MiddleText(L, P, S), MiddleText(R, P, S),
              L[|L| - 1 - S].kind == TEXT && R[|R| - 1 - S].kind == TEXT, L[P].kind == TEXT && R[P].kind == TEXT);
    }
  }

  lemma CutEnds(d: DiffSplit, prefix: string, suffix: string, x: string, y: string, canSuffix: bool, canPrefix: bool)
    requires IsTextCut(d, prefix, suffix, x, y, canSuffix, canPrefix) && d.left != "" && d.right != ""
    ensures canSuffix ==> d.left[|d.left| - 1] != d.right[|d.right| - 1]
    ensures canPrefix ==> d.left[0] != d.right[0]
  {
    var a, z := d.prefix[|prefix|..], d.suffix[..|d.suffix| - |suffix|];
    assert x[|x| - 1 - |z|] == (a + d.left + z)[|a| + |d.left| - 1] == d.left[|d.left| - 1];
    assert y[|y| - 1 - |z|] == (a + d.right + z)[|a| + |d.right| - 1] == d.right[|d.right| - 1];
    assert (a + d.left)[|a|] == d.left[0] && (a + d.right)[|a|] == d.right[0];
  }

  predicate Distinct<T(==)>(x: seq<T>) {
    forall i, j :: 0 <= i < j < |x| ==> x[i] != x[j]
  }

  /** Texts in which no segment repeats never meet the bad branch, so they are always reconstructed. */
  lemma DistinctSegmentsReconstruct(left: string, right: string, d: DiffSplit)
    requires Distinct(Segmentation(left)) && Distinct(Segmentation(right))
    requires IsSplitOf(d, left, right)
    ensures Reconstructs(d, left, right)
  {
    hide Segmentation, CommonPrefix, CommonSuffix, Reconstructs, SplitAt;
    DistinctNotTwice(Segmentation(left), Segmentation(right));
    DistinctNotTwice(Segmentation(right), Segmentation(left));
  }

  lemma DistinctNotTwice(a: seq<Segment>, b: seq<Segment>)
    requires Distinct(b)
    ensures !MatchedTwice(a, b)
  {
    if Halved(a, b) {
      var k := |a| / 2;
      assert FromBack(a, k - 1) == FromBack(b, k - 1);
      assert a[k] == b[|b| - k];
    }
  }

  const MARK_A: Segment := Segment(MARKER, "<a>")
  const MARK_B: Segment := Segment(MARKER, "<b>")

  /** A pair of texts that the split does not reconstruct: it reports no difference at all. */
  lemma LostSegment(d: DiffSplit)
    requires IsSplitOf(d, "<a><b>", "<a><b><b>")
    ensures d == DiffSplit("<a><b>", "", "", "") && !Reconstructs(d, "<a><b>", "<a><b><b>")
  {
    hide CommonPrefix, CommonSuffix, Segmentation, IsCut, WellSegmented, Join;
    Markers();
    Spell([MARK_A, MARK_B], "<a><b>");
    Spell([MARK_A, MARK_B, MARK_B], "<a><b><b>");
    CountedMarkers();
  }

  lemma CountedMarkers()
    ensures MatchedTwice([MARK_A, MARK_B], [MARK_A, MARK_B, MARK_B])
  {
    var L, R := [MARK_A, MARK_B], [MARK_A, MARK_B, MARK_B];
    assert L[1] == R[1] && FromBack(L, 0) == FromBack(R, 0);
  }

  lemma Markers()
    ensures WellSegmented([MARK_A, MARK_B]) && Join([MARK_A, MARK_B]) == "<a><b>"
    ensures WellSegmented([MARK_A, MARK_B, MARK_B]) && Join([MARK_A, MARK_B, MARK_B]) == "<a><b><b>"
  {
    hide WellSegmented, Join;
    MarkerInFront(MARK_B, []);
    MarkerInFront(MARK_B, [MARK_B]);
    MarkerInFront(MARK_A, [MARK_B]);
    MarkerInFront(MARK_A, [MARK_B, MARK_B]);
    assert [MARK_B] == [MARK_B] + [] && [MARK_B, MARK_B] == [MARK_B] + [MARK_B]
           && [MARK_A, MARK_B] == [MARK_A] + [MARK_B] && [MARK_A, MARK_B, MARK_B] == [MARK_A] + [MARK_B, MARK_B];
    assert WellSegmented([]) && Join([]) == "" by { NoSegments(); }
  }

  lemma NoSegments()
    ensures WellSegmented([]) && Join([]) == ""
  {
  }

  lemma MarkerInFront(m: Segment, rest: seq<Segment>)
    requires m.kind == MARKER && IsMarkerText(m.value)
    ensures Join([m] + rest) == m.value + Join(rest) && (WellSegmented(rest) ==> WellSegmented([m] + rest))
  {
    assert ([m] + rest)[1..] == rest;
  }

  lemma Spell(segs: seq<Segment>, text: string)
    requires WellSegmented(segs) && Join(segs) == text
    ensures Segmentation(text) == segs
  {
    SegmentationUnique(segs);
  }
}
