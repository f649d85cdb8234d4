/** The selection and collection loop of `generate_clips` (app.py): the first
    three highlights, in transcript order, are each cropped to 9:16, given a
    caption and written out, and the path of every final file is collected.
    Downloading, transcription and the MoviePy encoding steps are foreign
    calls; a render is recorded as the call it makes and always succeeds. */
module ClipPipeline {
  import opened HighlightFilter
  import opened CropGeometry

  /** The bound of `highlights[:3]`. */
  const MaxClips: nat := 3
  const ClipDir: string := "tiktok_clips/"

  /** f"{base}_cropped.mp4" with base = "tiktok_clips/<id>". */
  function CroppedPath(id: string): string { ClipDir + id + "_cropped.mp4" }

  /** f"{base}_final.mp4" with base = "tiktok_clips/<id>". */
  function FinalPath(id: string): string { ClipDir + id + "_final.mp4" }

  /** One pass of the loop body: `crop_to_9x16` of the segment's time range
      into `croppedPath` with window `crop`, then `add_subtitles` of the
      segment's text into `finalPath`. */
  datatype RenderCall = RenderCall(segment: Segment, crop: CropWindow, croppedPath: string, finalPath: string)

  /** `highlights[:3]`: the leading highlights, at most three of them. */
  function FirstClips(highlights: seq<Segment>): (r: seq<Segment>)
    ensures |r| == Min(MaxClips, |highlights|)
    ensures r == highlights[..|r|]
  {
    if |highlights| <= MaxClips then highlights else highlights[..MaxClips]
  }

  /** What generate_clips selects from a transcript. */
  function Selected(segments: seq<Segment>, classify: string -> Sentiment): seq<Segment> {
    FirstClips(Highlights(segments, classify))
  }

  /** generate_clips after the transcript is in hand. `frameWidth` and
      `frameHeight` are the source video's size as MoviePy reports it, and
      `clipId(i)` stands for the uuid4 drawn in the i-th pass. Besides the
      collected paths it returns the renders it performed, in order. */
  method GenerateClips(segments: seq<Segment>, classify: string -> Sentiment,
                       frameWidth: nat, frameHeight: nat, clipId: nat -> string)
    returns (outputClips: seq<string>, renders: seq<RenderCall>)
    ensures |renders| == |outputClips| == Min(MaxClips, |Highlights(segments, classify)|)
    ensures forall k :: 0 <= k < |renders| ==>
      renders[k] == RenderCall(Highlights(segments, classify)[k], CropWindowOf(frameWidth, frameHeight),
                               CroppedPath(clipId(k)), FinalPath(clipId(k))) &&
      outputClips[k] == renders[k].finalPath
    ensures Highlights(segments, classify) == [] ==> outputClips == []
    ensures (forall i, j :: 0 <= i < j < MaxClips ==> clipId(i) != clipId(j)) ==>
      forall i, j :: 0 <= i < j < |outputClips| ==> outputClips[i] != outputClips[j]
    ensures forall i, j :: 0 <= i < |outputClips| && 0 <= j < |renders| ==>
      outputClips[i] != renders[j].croppedPath
  {
    var highlights := DetectHighlights(segments, classify);
    var selected := FirstClips(highlights);
    outputClips, renders := [], [];
    for i := 0 to |selected|
      invariant |renders| == |outputClips| == i
      invariant forall k :: 0 <= k < i ==>
        renders[k] == RenderCall(selected[k], CropWindowOf(frameWidth, frameHeight),
                                 CroppedPath(clipId(k)), FinalPath(clipId(k))) &&
        outputClips[k] == renders[k].finalPath
    {
      var seg := selected[i];
      var id := clipId(i);
      var croppedPath := CroppedPath(id);
      var finalPath := FinalPath(id);
      var crop := CropWindowOf(frameWidth, frameHeight);
      renders := renders + [RenderCall(seg, crop, croppedPath, finalPath)];
      outputClips := outputClips + [finalPath];
    }
    forall i, j | 0 <= i < |outputClips| && 0 <= j < |renders|
      ensures outputClips[i] != renders[j].croppedPath
    {
      CroppedNeverFinal(clipId(j), clipId(i));
    }
    forall i, j | 0 <= i < j < |outputClips| && outputClips[i] == outputClips[j]
      ensures clipId(i) == clipId(j)
    {
      FinalPathInjective(clipId(i), clipId(j));
    }
  }

  /** Distinct ids give distinct final paths. */
  lemma FinalPathInjective(a: string, b: string)
    ensures FinalPath(a) == FinalPath(b) ==> a == b
  {
    if FinalPath(a) == FinalPath(b) {
      var n := |ClipDir|;
      assert |a| == |b|;
      assert a == FinalPath(a)[n..n + |a|];
      assert b == FinalPath(b)[n..n + |b|];
    }
  }

  /** An intermediate cropped file never has the name of a final file, so no
      render overwrites a collected output. */
  lemma CroppedNeverFinal(a: string, b: string)
    ensures CroppedPath(a) != FinalPath(b)
  {
    var p, q := CroppedPath(a), FinalPath(b);
    assert p[|p| - 5] == 'd';
    assert q[|q| - 5] == 'l';
  }

  /** The selection is exactly the first min(3, n) passing segments of the
      transcript, by position: the k-th clip is the segment at the k-th passing
      position, so a fourth or later passing segment is never rendered. */
  lemma SelectedAreFirstPassing(segments: seq<Segment>, classify: string -> Sentiment)
    ensures |Selected(segments, classify)| == Min(MaxClips, |PassingIndices(segments, classify)|)
    ensures forall k :: 0 <= k < |Selected(segments, classify)| ==>
      Selected(segments, classify)[k] == segments[PassingIndices(segments, classify)[k]]
  {
    HighlightsAreStableFilter(segments, classify);
  }

  /** No clip is produced, without any error, exactly when no segment passes. */
  lemma NoClipsIffNonePass(segments: seq<Segment>, classify: string -> Sentiment)
    ensures Selected(segments, classify) == [] <==>
      forall i :: 0 <= i < |segments| ==> !IsHighlight(segments[i], classify)
  {
    NoHighlightsIffNonePass(segments, classify);
  }

  /** Five segments, the second negative and the other four confidently
      positive: exactly three clips, the first, third and fourth segments;
      the fifth passes but is not rendered. */
  lemma FourPassingThreeRendered(s1: Segment, s2: Segment, s3: Segment, s4: Segment, s5: Segment)
    requires s2.text != s1.text && s2.text != s3.text && s2.text != s4.text && s2.text != s5.text
    ensures var classify := (t: string) =>
        if t == s2.text then Sentiment("NEGATIVE", 0.99) else Sentiment("POSITIVE", 0.95);
      Highlights([s1, s2, s3, s4, s5], classify) == [s1, s3, s4, s5] &&
      Selected([s1, s2, s3, s4, s5], classify) == [s1, s3, s4]
  {
    var classify := (t: string) =>
      if t == s2.text then Sentiment("NEGATIVE", 0.99) else Sentiment("POSITIVE", 0.95);
    var segs := [s1, s2, s3, s4, s5];
    assert segs[..4] == [s1, s2, s3, s4];
    assert segs[..4][..3] == [s1, s2, s3];
    assert [s1, s2, s3][..2] == [s1, s2];
    assert [s1, s2][..1] == [s1];
    assert [s1][..0] == [];
    assert Highlights([s1], classify) == [s1];
    assert Highlights([s1, s2], classify) == [s1];
    assert Highlights([s1, s2, s3], classify) == [s1, s3];
    assert Highlights([s1, s2, s3, s4], classify) == [s1, s3, s4];
    assert Highlights(segs, classify) == [s1, s3, s4, s5];
    assert [s1, s3, s4, s5][..3] == [s1, s3, s4];
  }
}
