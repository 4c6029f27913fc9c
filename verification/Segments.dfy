/** The marker tokenizer of common/chat-auto-parser-helpers.cpp. */
module Segments {

  datatype SegmentType = TEXT | MARKER

  datatype Segment = Segment(kind: SegmentType, value: string)

  predicate IsOpener(c: char) { c == '<' || c == '[' }

  predicate IsCloser(op: char, c: char) {
    (op == '<' && c == '>') || (op == '[' && c == ']')
  }

  /** The text that a list of segments spells. */
  function Join(segs: seq<Segment>): (text: string) {
    if segs == [] then "" else segs[0].value + Join(segs[1..])
  }

  predicate NoneEmpty(segs: seq<Segment>) {
    forall k :: 0 <= k < |segs| ==> segs[k].value != ""
  }

  /** A complete marker: an opener, no closer for it inside, and its closer as the last character. */
  predicate IsMarkerText(v: string) {
    && |v| >= 2 && IsOpener(v[0]) && IsCloser(v[0], v[|v| - 1])
    && forall k :: 1 <= k < |v| - 1 ==> !IsCloser(v[0], v[k])
  }

  /** Text with no opener in it. */
  predicate IsPlainText(v: string) {
    v != "" && forall k :: 0 <= k < |v| ==> !IsOpener(v[k])
  }

  /** An opener whose closer never comes. */
  predicate IsUnclosed(v: string) {
    v != "" && IsOpener(v[0]) && forall k :: 1 <= k < |v| ==> !IsCloser(v[0], v[k])
  }

  /** Which lists of segments are tokenizations: markers are complete, plain texts are
      as long as possible, and an unclosed opener swallows the rest as one text. */
  ghost predicate WellSegmented(segs: seq<Segment>) {
    segs == [] ||
    (WellSegmented(segs[1..]) &&
     match segs[0].kind
     case MARKER => IsMarkerText(segs[0].value)
     case TEXT =>
       || (IsUnclosed(segs[0].value) && |segs| == 1)
       || (IsPlainText(segs[0].value) && (|segs| == 1 || (segs[1].value != "" && IsOpener(segs[1].value[0])))))
  }

  /** The first position at or after `from` that holds a closer for `op`, or |text|. */
  function FirstCloser(op: char, text: string, from: nat): (i: nat)
    requires from <= |text|
    ensures from <= i <= |text|
    ensures i < |text| ==> IsCloser(op, text[i])
    ensures forall k :: from <= k < i ==> !IsCloser(op, text[k])
    decreases |text| - from
  {
    if from == |text| || IsCloser(op, text[from]) then from else FirstCloser(op, text, from + 1)
  }

  /** The first position at or after `from` that holds an opener, or |text|. */
  function FirstOpener(text: string, from: nat): (i: nat)
    requires from <= |text|
    ensures from <= i <= |text|
    ensures i < |text| ==> IsOpener(text[i])
    ensures forall k :: from <= k < i ==> !IsOpener(text[k])
    decreases |text| - from
  {
    if from == |text| || IsOpener(text[from]) then from else FirstOpener(text, from + 1)
  }

  /** Where the segment that starts at `from` ends. */
  function SegmentEnd(text: string, from: nat): (to: nat)
    requires from < |text|
    ensures from < to <= |text|
  {
    if IsOpener(text[from]) then
      var j := FirstCloser(text[from], text, from + 1);
      if j == |text| then j else j + 1
    else FirstOpener(text, from)
  }

  /** The segment that starts at `from`. */
  function SegmentAt(text: string, from: nat): (seg: Segment)
    requires from < |text|
    ensures seg.value == text[from..SegmentEnd(text, from)] && seg.value != ""
  {
    var complete := IsOpener(text[from]) && FirstCloser(text[from], text, from + 1) < |text|;
    Segment(if complete then MARKER else TEXT, text[from..SegmentEnd(text, from)])
  }

  /** The tokenization of text[from..]. */
  function SegmentationFrom(text: string, from: nat): (segs: seq<Segment>)
    requires from <= |text|
    decreases |text| - from
  {
    if from == |text| then []
    else [SegmentAt(text, from)] + SegmentationFrom(text, SegmentEnd(text, from))
  }

  /** The tokenization of a text, segment by segment. */
  function Segmentation(text: string): (segs: seq<Segment>) {
    SegmentationFrom(text, 0)
  }

  /** Segments concatenate back to the text, none is empty, and the list is a tokenization. */
  lemma SegmentationReconstructs(text: string)
    ensures Join(Segmentation(text)) == text
    ensures WellSegmented(Segmentation(text))
    ensures NoneEmpty(Segmentation(text))
  {
    ReconstructsFrom(text, 0);
    assert text[0..] == text;
  }

  lemma {:induction false} ReconstructsFrom(text: string, from: nat)
    requires from <= |text|
    ensures var segs := SegmentationFrom(text, from);
            Join(segs) == text[from..] && WellSegmented(segs) && NoneEmpty(segs)
    decreases |text| - from
  {
    if from < |text| {
      var to, seg := SegmentEnd(text, from), SegmentAt(text, from);
      ReconstructsFrom(text, to);
      var tail := SegmentationFrom(text, to);
      assert SegmentationFrom(text, from)[1..] == tail;
      assert text[from..] == text[from..to] + text[to..];
      SegmentShape(text, from);
      if to < |text| {
        assert tail[0] == SegmentAt(text, to);
        assert tail[0].value[0] == text[to];
      }
    }
  }

  /** What a segment is, and what may follow it. */
  lemma SegmentShape(text: string, from: nat)
    requires from < |text|
    ensures var seg, to := SegmentAt(text, from), SegmentEnd(text, from);
            match seg.kind
            case MARKER => IsMarkerText(seg.value)
            case TEXT => || (IsUnclosed(seg.value) && to == |text|)
                         || (IsPlainText(seg.value) && (to == |text| || IsOpener(text[to])))
  {
    var v := SegmentAt(text, from).value;
    assert forall k :: 0 <= k < |v| ==> v[k] == text[from + k];
  }

  /** The segment that starts at `border` is `seg` and ends at `to`. */
  ghost predicate Ends(text: string, border: nat, seg: Segment, to: nat) {
    border < |text| && SegmentAt(text, border) == seg && SegmentEnd(text, border) == to
  }

  /** A tokenization is determined by the text it spells. */
  lemma SegmentationUnique(segs: seq<Segment>)
    requires WellSegmented(segs)
    ensures Segmentation(Join(segs)) == segs
  {
    UniqueFrom(Join(segs), 0, segs);
    assert Join(segs)[0..] == Join(segs);
  }

  lemma {:induction false} UniqueFrom(text: string, from: nat, segs: seq<Segment>)
    requires from <= |text| && WellSegmented(segs) && Join(segs) == text[from..]
    ensures SegmentationFrom(text, from) == segs
    decreases |segs|
  {
    if segs == [] {
      assert text[from..] == "";
    } else {
      hide *;
      var to := from + |segs[0].value|;
      Peel(text, from, segs);
      UniqueFrom(text, to, segs[1..]);
      Unfold(text, from, segs[0], to);
      assert segs == [segs[0]] + segs[1..];
    }
  }

  lemma Unfold(text: string, from: nat, seg: Segment, to: nat)
    requires Ends(text, from, seg, to)
    ensures SegmentationFrom(text, from) == [seg] + SegmentationFrom(text, to)
  {
  }

  lemma Peel(text: string, from: nat, segs: seq<Segment>)
    requires from <= |text| && segs != [] && WellSegmented(segs) && Join(segs) == text[from..]
    ensures var to := from + |segs[0].value|;
            to <= |text| && Ends(text, from, segs[0], to) && WellSegmented(segs[1..]) && Join(segs[1..]) == text[to..]
  {
    SplitJoin(text, from, segs);
    HeadIs(text, from, segs[0]);
  }

  lemma SplitJoin(text: string, from: nat, segs: seq<Segment>)
    requires from <= |text| && segs != [] && Join(segs) == text[from..]
    ensures var to := from + |segs[0].value|;
            to <= |text| && segs[0].value == text[from..to] && Join(segs[1..]) == text[to..]
            && (|segs| > 1 && segs[1].value != "" ==> to < |text| && text[to] == segs[1].value[0])
            && (|segs| == 1 ==> to == |text|)
  {
    var v, tail := segs[0].value, Join(segs[1..]);
    var to := from + |v|;
    assert text[from..] == v + tail;
    assert text[from..to] == text[from..][..|v|] && text[to..] == text[from..][|v|..];
    if |segs| > 1 && segs[1].value != "" {
      assert segs[1..][0] == segs[1];
      assert text[to] == tail[0];
    }
  }

  lemma HeadIs(text: string, from: nat, seg: Segment)
    requires from + |seg.value| <= |text| && seg.value == text[from..from + |seg.value|]
    requires var v := seg.value; var to := from + |v|;
             match seg.kind
             case MARKER => IsMarkerText(v)
             case TEXT => || (IsUnclosed(v) && to == |text|)
                          || (IsPlainText(v) && (to == |text| || IsOpener(text[to])))
    ensures from < |text| && SegmentAt(text, from) == seg && SegmentEnd(text, from) == from + |seg.value|
  {
    var v, to := seg.value, from + |seg.value|;
    assert forall k :: from <= k < to ==> text[k] == v[k - from];
    if seg.kind == MARKER {
      assert FirstCloser(text[from], text, from + 1) == to - 1;
    } else if IsPlainText(v) {
      assert FirstOpener(text, from) == to;
    } else {
      assert FirstCloser(text[from], text, from + 1) == |text|;
    }
  }

  /** The scanner's flags agree with the text between the last border and the cursor. */
  ghost predicate Scanning(text: string, inMarker: bool, opener: char, border: nat, cur: nat) {
    && border <= cur <= |text|
    && if inMarker then border < cur && IsOpener(opener) && opener == text[border]
       && cur <= FirstCloser(opener, text, border + 1)
       else cur <= FirstOpener(text, border)
  }

  lemma Starts(text: string)
    ensures Scanning(text, false, '\0', 0, 0)
    ensures [] + SegmentationFrom(text, 0) == Segmentation(text)
  {
  }

  lemma Opens(text: string, border: nat, cur: nat)
    requires cur < |text| && Scanning(text, false, '\0', border, cur) && IsOpener(text[cur])
    ensures border < cur ==> Ends(text, border, Segment(TEXT, text[border..cur]), cur)
    ensures Scanning(text, true, text[cur], cur, cur + 1)
  {
  }

  lemma Closes(text: string, opener: char, border: nat, cur: nat)
    requires cur < |text| && Scanning(text, true, opener, border, cur) && IsCloser(opener, text[cur])
    ensures Ends(text, border, Segment(MARKER, text[border..cur + 1]), cur + 1)
    ensures Scanning(text, false, '\0', cur + 1, cur + 1)
  {
  }

  lemma Advances(text: string, inMarker: bool, opener: char, border: nat, cur: nat)
    requires cur < |text| && Scanning(text, inMarker, opener, border, cur)
    requires if inMarker then !IsCloser(opener, text[cur]) else !IsOpener(text[cur])
    ensures Scanning(text, inMarker, opener, border, cur + 1)
  {
  }

  lemma RunsOut(text: string, inMarker: bool, opener: char, border: nat)
    requires border < |text| && Scanning(text, inMarker, opener, border, |text|)
    ensures Ends(text, border, Segment(TEXT, text[border..]), |text|)
  {
  }

  lemma Finishes(text: string, segs: seq<Segment>)
    requires segs + SegmentationFrom(text, |text|) == Segmentation(text)
    ensures segs == Segmentation(text)
  {
  }

  lemma NextSegment(text: string, before: seq<Segment>, border: nat, seg: Segment, to: nat)
    requires border <= to <= |text| && Ends(text, border, seg, to)
    requires before + SegmentationFrom(text, border) == Segmentation(text)
    ensures before + [seg] + SegmentationFrom(text, to) == Segmentation(text)
  {
    assert before + [seg] + SegmentationFrom(text, to) == before + ([seg] + SegmentationFrom(text, to));
  }

  method SegmentizeMarkers(text: string) returns (segs: seq<Segment>)
    ensures segs == Segmentation(text)
  {
    hide *;
    segs := [];
    Starts(text);
    var inMarker, markerOpener := false, '\0';
    var lastBorder := 0;
    for curPos := 0 to |text|
      invariant 0 <= lastBorder <= curPos
      invariant Scanning(text, inMarker, if inMarker then markerOpener else '\0', lastBorder, curPos)
      invariant segs + SegmentationFrom(text, lastBorder) == Segmentation(text)
    {
      if !inMarker && IsOpener(text[curPos]) {
        Opens(text, lastBorder, curPos);
        if lastBorder < curPos {
          NextSegment(text, segs, lastBorder, Segment(TEXT, text[lastBorder..curPos]), curPos);
          segs := segs + [Segment(TEXT, text[lastBorder..curPos])];
        }
        lastBorder, inMarker, markerOpener := curPos, true, text[curPos];
      } else if inMarker && IsCloser(markerOpener, text[curPos]) {
        Closes(text, markerOpener, lastBorder, curPos);
        NextSegment(text, segs, lastBorder, Segment(MARKER, text[lastBorder..curPos + 1]), curPos + 1);
        segs := segs + [Segment(MARKER, text[lastBorder..curPos + 1])];
        lastBorder, inMarker, markerOpener := curPos + 1, false, '\0';
      } else {
        Advances(text, inMarker, if inMarker then markerOpener else '\0', lastBorder, curPos);
      }
    }
    if lastBorder < |text| {
      RunsOut(text, inMarker, if inMarker then markerOpener else '\0', lastBorder);
      NextSegment(text, segs, lastBorder, Segment(TEXT, text[lastBorder..]), |text|);
      segs := segs + [Segment(TEXT, text[lastBorder..])];
    }
    Finishes(text, segs);
  }
}
