/** The highlight filter of app.py (`detect_highlights`): every transcript
    segment is shown to a sentiment classifier, and a segment is kept exactly
    when the classifier says "POSITIVE" with a score strictly above 0.9.
    The classifier is a foreign model; here it is any total function from
    text to a (label, score) pair. */
module HighlightFilter {

  /** A transcript segment as produced by the transcriber: times in seconds
      and the spoken text. */
  datatype Segment = Segment(start: real, end: real, text: string)

  /** The first entry of the classifier's answer for one text; `polarity`
      is the answer's "label" field (`label` is a Dafny keyword). */
  datatype Sentiment = Sentiment(polarity: string, score: real)

  const PositiveLabel: string := "POSITIVE"
  const ScoreThreshold: real := 0.9

  /** The highlight test: the right label AND a score strictly above the threshold. */
  predicate Passes(result: Sentiment) {
    result.polarity == PositiveLabel && result.score > ScoreThreshold
  }

  predicate IsHighlight(seg: Segment, classify: string -> Sentiment) {
    Passes(classify(seg.text))
  }

  /** The highlights of `segments`, in transcript order: the specification of
      DetectHighlights, defined segment by segment from the back, as the loop
      appends. */
  function Highlights(segments: seq<Segment>, classify: string -> Sentiment): (r: seq<Segment>)
    ensures |r| <= |segments|
    decreases |segments|
  {
    if segments == [] then []
    else
      var n := |segments| - 1;
      var kept := Highlights(segments[..n], classify);
      if IsHighlight(segments[n], classify) then kept + [segments[n]] else kept
  }

  /** The positions of the highlights in `segments`, ascending: an independent
      description of which segments the filter keeps. */
  function PassingIndices(segments: seq<Segment>, classify: string -> Sentiment): (idx: seq<nat>)
    ensures forall k :: 0 <= k < |idx| ==> idx[k] < |segments|
    decreases |segments|
  {
    if segments == [] then []
    else
      var n := |segments| - 1;
      PassingIndices(segments[..n], classify) + (if IsHighlight(segments[n], classify) then [n] else [])
  }

  /** detect_highlights: walks the segments in order and appends each one that passes. */
  method DetectHighlights(segments: seq<Segment>, classify: string -> Sentiment)
    returns (highlights: seq<Segment>)
    ensures highlights == Highlights(segments, classify)
    ensures forall seg :: seg in highlights <==> seg in segments && IsHighlight(seg, classify)
  {
    highlights := [];
    for i := 0 to |segments|
      invariant highlights == Highlights(segments[..i], classify)
    {
      var seg := segments[i];
      var result := classify(seg.text);
      assert segments[..i + 1][..i] == segments[..i];
      if Passes(result) {
        highlights := highlights + [seg];
      }
    }
    assert segments[..|segments|] == segments;
    forall seg ensures seg in highlights <==> seg in segments && IsHighlight(seg, classify) {
      HighlightMembership(segments, classify, seg);
    }
  }

  /** A segment is a highlight iff it occurs in the transcript and passes the test. */
  lemma {:induction false} HighlightMembership(segments: seq<Segment>, classify: string -> Sentiment, seg: Segment)
    ensures seg in Highlights(segments, classify) <==> seg in segments && IsHighlight(seg, classify)
    decreases |segments|
  {
    if segments != [] {
      var n := |segments| - 1;
      HighlightMembership(segments[..n], classify, seg);
      assert segments == segments[..n] + [segments[n]];
      assert seg in segments <==> seg in segments[..n] || seg == segments[n];
    }
  }

  /** A score equal to (or below) the threshold is rejected, whatever the label. */
  lemma ThresholdIsStrict(segments: seq<Segment>, classify: string -> Sentiment, seg: Segment)
    requires classify(seg.text).score <= ScoreThreshold
    ensures seg !in Highlights(segments, classify)
  {
    HighlightMembership(segments, classify, seg);
  }

  /** Only the label "POSITIVE" can pass, however confident the classifier is. */
  lemma OtherLabelsRejected(segments: seq<Segment>, classify: string -> Sentiment, seg: Segment)
    requires classify(seg.text).polarity != PositiveLabel
    ensures seg !in Highlights(segments, classify)
  {
    HighlightMembership(segments, classify, seg);
  }

  /** The filter works segment by segment: filtering a concatenation is
      concatenating the filtered parts, so the relative order of kept
      segments is the transcript order. */
  lemma {:induction false} HighlightsAppend(a: seq<Segment>, b: seq<Segment>, classify: string -> Sentiment)
    ensures Highlights(a + b, classify) == Highlights(a, classify) + Highlights(b, classify)
    decreases |b|
  {
    if b == [] {
      assert a + b == a;
    } else {
      var n := |b| - 1;
      assert (a + b)[..|a + b| - 1] == a + b[..n];
      assert (a + b)[|a + b| - 1] == b[n];
      HighlightsAppend(a, b[..n], classify);
    }
  }

  /** The result is exactly the stable filter: the k-th highlight is the segment
      at the k-th passing position, positions ascend strictly, and a position
      is listed iff its segment passes. */
  lemma {:induction false} HighlightsAreStableFilter(segments: seq<Segment>, classify: string -> Sentiment)
    ensures |PassingIndices(segments, classify)| == |Highlights(segments, classify)|
    ensures forall k :: 0 <= k < |Highlights(segments, classify)| ==>
      Highlights(segments, classify)[k] == segments[PassingIndices(segments, classify)[k]]
    ensures forall j, k :: 0 <= j < k < |PassingIndices(segments, classify)| ==>
      PassingIndices(segments, classify)[j] < PassingIndices(segments, classify)[k]
    ensures forall i :: 0 <= i < |segments| ==>
      (i in PassingIndices(segments, classify) <==> IsHighlight(segments[i], classify))
    decreases |segments|
  {
    if segments != [] {
      var n := |segments| - 1;
      var prefix := segments[..n];
      HighlightsAreStableFilter(prefix, classify);
      var idx := PassingIndices(segments, classify);
      var r := Highlights(segments, classify);
      var idx0 := PassingIndices(prefix, classify);
      var r0 := Highlights(prefix, classify);
      assert forall k :: 0 <= k < |idx0| ==> idx[k] == idx0[k] && r[k] == r0[k];
      assert forall i :: 0 <= i < n ==> segments[i] == prefix[i];
      assert n !in idx0;
    }
  }

  /** Nothing passes exactly when the result is empty; an empty result is a
      normal outcome, not an error. */
  lemma NoHighlightsIffNonePass(segments: seq<Segment>, classify: string -> Sentiment)
    ensures Highlights(segments, classify) == [] <==>
      forall i :: 0 <= i < |segments| ==> !IsHighlight(segments[i], classify)
  {
    var r := Highlights(segments, classify);
    if r != [] {
      HighlightMembership(segments, classify, r[0]);
    }
    forall i | 0 <= i < |segments| && IsHighlight(segments[i], classify)
      ensures r != []
    {
      HighlightMembership(segments, classify, segments[i]);
    }
  }
}
