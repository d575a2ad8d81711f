/** `generar_subtitulos`: every transcript segment becomes one subtitle cue,
    numbered by its position in the transcript. Times are seconds. */
module Subtitles {

  /** A transcript segment: `{start, end, text}` as the transcriber gives it. */
  datatype Segment = Segment(start: real, end: real, text: string)

  /** A subtitle cue: `srt.Subtitle(index, start, end, content)`. */
  datatype Cue = Cue(index: int, start: real, end: real, content: string)

  /** The segment a cue was made from: the cue without its index. */
  function SegmentOf(cue: Cue): Segment {
    Segment(cue.start, cue.end, cue.content)
  }

  /** True when the cues are numbered 0, 1, ..., N-1 in list order. */
  predicate NumberedInOrder(cues: seq<Cue>) {
    forall i :: 0 <= i < |cues| ==> cues[i].index == i
  }

  /** Builds the list `subs` the way the `enumerate` loop does: one cue per
      segment, cue `i` numbered `i` and carrying segment `i`'s start, end and
      text unchanged. */
  method GenerateSubtitles(segments: seq<Segment>) returns (subs: seq<Cue>)
    ensures |subs| == |segments|
    ensures NumberedInOrder(subs)
    ensures forall i :: 0 <= i < |subs| ==> SegmentOf(subs[i]) == segments[i]
  {
    subs := [];
    for i := 0 to |segments|
      invariant |subs| == i
      invariant NumberedInOrder(subs)
      invariant forall k :: 0 <= k < i ==> SegmentOf(subs[k]) == segments[k]
    {
      var seg := segments[i];
      subs := subs + [Cue(i, seg.start, seg.end, seg.text)];
    }
  }
}
