/**
 Cutting template output into MARKERs (`<...>` or `[...]`) and TEXT runs
 (self.llama/common/chat-auto-parser-helpers.cpp, segmentize_markers).
 */
module Segments {

  datatype Kind = Text | Marker

  datatype Segment = Segment(kind: Kind, value: string)

  const OPENERS: set<char> := {'<', '['}

  function Closer(opener: char): char {
    if opener == '<' then '>' else ']'
  }

  /** The text a list of segments stands for. */
  function Concat(segs: seq<Segment>): string {
    if segs == [] then "" else segs[0].value + Concat(segs[1..])
  }

  lemma ConcatAppend(a: seq<Segment>, b: seq<Segment>)
    ensures Concat(a + b) == Concat(a) + Concat(b)
  {
    if a == [] {
      assert a + b == b;
    } else {
      assert (a + b)[1..] == a[1..] + b;
      ConcatAppend(a[1..], b);
    }
  }

  /** The first position at or after `from` whose character is in `chars`, or |s|. */
  function FirstIn(s: string, from: nat, chars: set<char>): (r: nat)
    requires from <= |s|
    ensures from <= r <= |s|
    ensures forall k :: from <= k < r ==> s[k] !in chars
    ensures r < |s| ==> s[r] in chars
    decreases |s| - from
  {
    if from == |s| || s[from] in chars then from else FirstIn(s, from + 1, chars)
  }

  lemma FirstInUnique(s: string, from: nat, chars: set<char>, r: nat)
    requires from <= r <= |s|
    requires forall k :: from <= k < r ==> s[k] !in chars
    requires r < |s| ==> s[r] in chars
    ensures FirstIn(s, from, chars) == r
    decreases r - from
  {
    if from < r {
      FirstInUnique(s, from + 1, chars, r);
    }
  }

  /** The segment a non-empty text begins with. */
  function FirstSegment(text: string): (f: Segment)
    requires text != ""
    ensures 0 < |f.value| <= |text|
    ensures f.value == text[..|f.value|]
  {
    if text[0] in OPENERS then
      var j := FirstIn(text, 1, {Closer(text[0])});
      if j == |text| then Segment(Text, text) else Segment(Marker, text[..j + 1])
    else
      Segment(Text, text[..FirstIn(text, 0, OPENERS)])
  }

  /** The segmentation of a text, one segment at a time from the left. */
  function Segmentation(text: string): seq<Segment>
    decreases |text|
  {
    if text == "" then []
    else
      var f := FirstSegment(text);
      [f] + Segmentation(text[|f.value|..])
  }

  // ----- What a segmentation is, without saying how it is found

  predicate WellFormedMarker(v: string) {
    && |v| >= 2
    && v[0] in OPENERS
    && v[|v| - 1] == Closer(v[0])
    && (forall k :: 1 <= k < |v| - 1 ==> v[k] != Closer(v[0]))
  }

  predicate OpenerFree(v: string) {
    forall k :: 0 <= k < |v| ==> v[k] !in OPENERS
  }

  /** A tail that opens a marker and never closes it. */
  predicate UnclosedTail(v: string) {
    && v != ""
    && v[0] in OPENERS
    && (forall k :: 1 <= k < |v| ==> v[k] != Closer(v[0]))
  }

  /** Segment i is a closed marker, a maximal opener-free run, or an unclosed tail in last place. */
  predicate WellPlaced(segs: seq<Segment>, i: nat)
    requires i < |segs|
  {
    var v := segs[i].value;
    match segs[i].kind
    case Marker => WellFormedMarker(v)
    case Text =>
      || (i == |segs| - 1 && UnclosedTail(v))
      || (&& v != ""
          && OpenerFree(v)
          && (i + 1 < |segs| ==> segs[i + 1].value != "" && segs[i + 1].value[0] in OPENERS))
  }

  predicate IsSegmentation(segs: seq<Segment>, text: string) {
    && Concat(segs) == text
    && (forall i :: 0 <= i < |segs| ==> WellPlaced(segs, i))
  }

  lemma WellPlacedTail(segs: seq<Segment>)
    requires segs != []
    requires forall i :: 0 <= i < |segs| ==> WellPlaced(segs, i)
    ensures forall i :: 0 <= i < |segs[1..]| ==> WellPlaced(segs[1..], i)
  {
    forall i | 0 <= i < |segs[1..]|
      ensures WellPlaced(segs[1..], i)
    {
      assert WellPlaced(segs, i + 1);
    }
  }

  lemma ConsWellPlaced(f: Segment, rest: seq<Segment>)
    requires forall i :: 0 <= i < |rest| ==> WellPlaced(rest, i)
    requires WellPlaced([f] + rest, 0)
    ensures forall i :: 0 <= i < |[f] + rest| ==> WellPlaced([f] + rest, i)
  {
    forall i | 0 < i < |[f] + rest|
      ensures WellPlaced([f] + rest, i)
    {
      assert WellPlaced(rest, i - 1);
    }
  }

  /** The first segment is well placed before whatever begins where it ends. */
  lemma FirstIsPlaced(text: string, rest: seq<Segment>)
    requires text != ""
    requires rest == [] <==> |FirstSegment(text).value| == |text|
    requires rest != [] ==> rest[0].value != "" && rest[0].value[0] == text[|FirstSegment(text).value|]
    ensures WellPlaced([FirstSegment(text)] + rest, 0)
  {
    hide FirstIn;
  }

  lemma SegmentationFirst(text: string)
    requires text != ""
    ensures Segmentation(text) != [] && Segmentation(text)[0] == FirstSegment(text)
    ensures FirstSegment(text).value != "" && FirstSegment(text).value[0] == text[0]
  {
    hide FirstIn;
  }

  lemma {:induction false} SegmentationIsOne(text: string)
    ensures IsSegmentation(Segmentation(text), text)
    decreases |text|
  {
    hide FirstIn, WellPlaced, FirstSegment;
    if text != "" {
      var f := FirstSegment(text);
      var tail := text[|f.value|..];
      var rest := Segmentation(tail);
      SegmentationFirst(text);
      SegmentationIsOne(tail);
      if tail != "" {
        SegmentationFirst(tail);
      }
      FirstIsPlaced(text, rest);
      ConsWellPlaced(f, rest);
      assert ([f] + rest)[1..] == rest;
      assert text == f.value + tail;
    }
  }

  lemma FirstSegmentIs(segs: seq<Segment>, text: string)
    requires segs != [] && segs[0].value != ""
    requires WellPlaced(segs, 0)
    requires text == segs[0].value + Concat(segs[1..])
    ensures FirstSegment(text) == segs[0]
  {
    var v := segs[0].value;
    assert text[..|v|] == v;
    if segs[0].kind == Marker {
      FirstInUnique(text, 1, {Closer(text[0])}, |v| - 1);
    } else if UnclosedTail(v) && |segs| == 1 {
      assert text == v;
      FirstInUnique(text, 1, {Closer(text[0])}, |text|);
    } else {
      if |segs| > 1 {
        assert text[|v|] == segs[1..][0].value[0];
      }
      FirstInUnique(text, 0, OPENERS, |v|);
    }
  }

  /** The conditions of IsSegmentation leave no choice: the segmentation is unique. */
  lemma {:induction false} SegmentationUnique(segs: seq<Segment>, text: string)
    ensures IsSegmentation(segs, text) <==> segs == Segmentation(text)
    decreases |segs|
  {
    SegmentationIsOne(text);
    if IsSegmentation(segs, text) && segs != [] {
      var v, rest := segs[0].value, segs[1..];
      assert WellPlaced(segs, 0);
      WellPlacedTail(segs);
      SegmentationUnique(rest, Concat(rest));
      FirstSegmentIs(segs, text);
      assert text[|v|..] == Concat(rest);
      assert segs == [segs[0]] + rest;
    }
  }

  /** A text that ends in a closed marker can be cut there: the two parts are segmented independently. */
  lemma SegmentationDistributes(s: string, t: string)
    requires Segmentation(s) == [] || Segmentation(s)[|Segmentation(s)| - 1].kind == Marker
    ensures Segmentation(s + t) == Segmentation(s) + Segmentation(t)
  {
    var a, b := Segmentation(s), Segmentation(t);
    SegmentationIsOne(s);
    SegmentationIsOne(t);
    ConcatAppend(a, b);
    var segs := a + b;
    forall i | 0 <= i < |segs|
      ensures WellPlaced(segs, i)
    {
      if i < |a| {
        assert WellPlaced(a, i);
      } else {
        assert WellPlaced(b, i - |a|);
      }
    }
    SegmentationUnique(segs, s + t);
  }

  lemma OneSegment(f: Segment)
    requires WellPlaced([f], 0)
    ensures Segmentation(f.value) == [f]
  {
    assert [f][1..] == [] && f.value + "" == f.value;
    assert Concat([f]) == f.value;
    SegmentationUnique([f], f.value);
  }

  /** Each kind of bracket closes with its own, whatever brackets of the other kind are inside; a lone closer is text. */
  lemma BothKinds()
    ensures Segmentation("<]>") == [Segment(Marker, "<]>")]
    ensures Segmentation("[>]") == [Segment(Marker, "[>]")]
    ensures Segmentation("<]>" + "[>]") == [Segment(Marker, "<]>"), Segment(Marker, "[>]")]
    ensures Segmentation("<a]") == [Segment(Text, "<a]")] && Segmentation("[a>") == [Segment(Text, "[a>")]
    ensures Segmentation("a>]") == [Segment(Text, "a>]")]
  {
    hide Segmentation;
    OneSegment(Segment(Marker, "<]>"));
    OneSegment(Segment(Marker, "[>]"));
    OneSegment(Segment(Text, "<a]"));
    OneSegment(Segment(Text, "[a>"));
    OneSegment(Segment(Text, "a>]"));
    SegmentationDistributes("<]>", "[>]");
  }

  /** Every segment carries text. */
  lemma SegmentsNonEmpty(text: string)
    ensures Concat(Segmentation(text)) == text
    ensures forall i :: 0 <= i < |Segmentation(text)| ==> Segmentation(text)[i].value != ""
  {
    SegmentationIsOne(text);
    var segs := Segmentation(text);
    forall i | 0 <= i < |segs|
      ensures segs[i].value != ""
    {
      assert WellPlaced(segs, i);
    }
  }

  lemma SegmentationOfNothing()
    ensures Segmentation("") == []
  {
  }

  lemma AppendFirst(text: string, segs: seq<Segment>, rest: string)
    requires rest != ""
    requires Segmentation(text) == segs + Segmentation(rest)
    ensures Segmentation(text) == segs + [FirstSegment(rest)] + Segmentation(rest[|FirstSegment(rest).value|..])
  {
  }

  /** One pass over the text with a border, an open flag and the opener seen last. */
  method SegmentizeMarkers(text: string) returns (segs: seq<Segment>)
    ensures segs == Segmentation(text)
  {
    hide Segmentation, FirstSegment;
    segs := [];
    var inMarker, markerOpener := false, '\0';
    var lastBorder := 0;
    var curPos := 0;
    assert text[0..] == text;
    while curPos < |text|
      invariant 0 <= lastBorder <= curPos <= |text|
      invariant Segmentation(text) == segs + Segmentation(text[lastBorder..])
      invariant !inMarker ==> forall k :: lastBorder <= k < curPos ==> text[k] !in OPENERS
      invariant inMarker ==> lastBorder < curPos && text[lastBorder] == markerOpener && markerOpener in OPENERS
      invariant inMarker ==> forall k :: lastBorder < k < curPos ==> text[k] != Closer(markerOpener)
    {
      var c := text[curPos];
      ghost var rest := text[lastBorder..];
      if !inMarker && c in OPENERS {
        if lastBorder < curPos {
          RunAt(text, lastBorder, curPos);
          AppendFirst(text, segs, rest);
          segs := segs + [Segment(Text, text[lastBorder..curPos])];
        }
        lastBorder, inMarker, markerOpener := curPos, true, c;
      } else if inMarker && c == Closer(markerOpener) {
        MarkerAt(text, lastBorder, curPos);
        AppendFirst(text, segs, rest);
        segs := segs + [Segment(Marker, text[lastBorder..curPos + 1])];
        lastBorder, inMarker, markerOpener := curPos + 1, false, '\0';
      }
      curPos := curPos + 1;
    }
    assert text[|text|..] == "";
    SegmentationOfNothing();
    if lastBorder < |text| {
      if inMarker {
        UnclosedAt(text, lastBorder);
      } else {
        RunAt(text, lastBorder, |text|);
      }
      ghost var rest := text[lastBorder..];
      AppendFirst(text, segs, rest);
      assert rest == text[lastBorder..|text|] && rest[|rest|..] == "";
      segs := segs + [Segment(Text, text[lastBorder..])];
    }
  }

  lemma RunAt(text: string, from: nat, to: nat)
    requires from < to <= |text|
    requires forall k :: from <= k < to ==> text[k] !in OPENERS
    requires to < |text| ==> text[to] in OPENERS
    ensures FirstSegment(text[from..]) == Segment(Text, text[from..to])
    ensures text[from..][to - from..] == text[to..]
  {
    FirstInUnique(text[from..], 0, OPENERS, to - from);
  }

  lemma MarkerAt(text: string, from: nat, to: nat)
    requires from < to < |text|
    requires text[from] in OPENERS && text[to] == Closer(text[from])
    requires forall k :: from < k < to ==> text[k] != Closer(text[from])
    ensures FirstSegment(text[from..]) == Segment(Marker, text[from..to + 1])
    ensures text[from..][to + 1 - from..] == text[to + 1..]
  {
    FirstInUnique(text[from..], 1, {Closer(text[from])}, to - from);
  }

  lemma UnclosedAt(text: string, from: nat)
    requires from < |text|
    requires text[from] in OPENERS
    requires forall k :: from < k < |text| ==> text[k] != Closer(text[from])
    ensures FirstSegment(text[from..]) == Segment(Text, text[from..])
  {
    FirstInUnique(text[from..], 1, {Closer(text[from])}, |text| - from);
  }
}
