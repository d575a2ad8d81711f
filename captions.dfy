/** The caption compositor's timing logic in `agregar_subtitulos`: each cue's
    content is split into words and the cue's interval is cut into as many
    equal slices as there are words, word `i` showing during slice `i`. The
    overlays of all cues are collected cue by cue, then word by word. */
module Captions {
  import opened WordSplit
  import opened Subtitles

  /** One word shown on screen from `start` to `end` (seconds); the fixed
      font, colours and position of the rendered clip are not modelled. */
  datatype WordOverlay = WordOverlay(word: string, start: real, end: real)

  /** Start of slice `i` when `[start, end]` is cut into `n` equal slices. */
  function SliceStart(start: real, end: real, i: nat, n: nat): real
    requires n > 0
  {
    start + (i as real) * (end - start) / (n as real)
  }

  /** End of slice `i` when `[start, end]` is cut into `n` equal slices. */
  function SliceEnd(start: real, end: real, i: nat, n: nat): real
    requires n > 0
  {
    start + ((i + 1) as real) * (end - start) / (n as real)
  }

  /** Slice `i` begins `i` slice widths after `start`. */
  lemma SliceOffset(start: real, end: real, i: nat, n: nat)
    requires n > 0
    ensures SliceStart(start, end, i, n) == start + (i as real) * ((end - start) / (n as real))
    ensures SliceEnd(start, end, i, n) == SliceStart(start, end, i, n) + (end - start) / (n as real)
  {
    var d, w := end - start, (end - start) / (n as real);
    assert (i as real) * d / (n as real) == (i as real) * w;
    assert ((i + 1) as real) * d / (n as real) == (i as real) * w + w;
  }

  /** The `n` slices partition `[start, end]`: the first starts at `start`,
      the last ends at `end`, and every slice has width `(end - start) / n`. */
  lemma SlicesCover(start: real, end: real, n: nat)
    requires n > 0
    ensures SliceStart(start, end, 0, n) == start
    ensures SliceEnd(start, end, n - 1, n) == end
  {
    var d := end - start;
    assert (n as real) * d / (n as real) == d;
  }

  /** When `start <= end`, slice `i` of `n` lies inside `[start, end]`. */
  lemma SliceInside(start: real, end: real, i: nat, n: nat)
    requires i < n
    requires start <= end
    ensures start <= SliceStart(start, end, i, n) <= SliceEnd(start, end, i, n) <= end
  {
    var w := (end - start) / (n as real);
    SliceOffset(start, end, i, n);
    assert w >= 0.0;
    assert (i as real) * w >= 0.0;
    assert (i as real) * w + w == ((i + 1) as real) * w;
    assert ((i + 1) as real) * w <= (n as real) * w;
    assert (n as real) * w == end - start;
  }

  /** The overlays of the inner loop: the `n` words, in order, word `i`
      shown during slice `i` of `n` of `[start, end]`. */
  function SlicedOverlays(words: seq<string>, start: real, end: real): seq<WordOverlay> {
    seq(|words|, i requires 0 <= i < |words| =>
      WordOverlay(words[i], SliceStart(start, end, i, |words|), SliceEnd(start, end, i, |words|)))
  }

  /** The overlays `agregar_subtitulos` makes for one cue. */
  function CueOverlays(cue: Cue): seq<WordOverlay> {
    SlicedOverlays(Split(cue.content), cue.start, cue.end)
  }

  lemma SlicedAt(words: seq<string>, start: real, end: real, i: nat)
    requires i < |words|
    ensures |SlicedOverlays(words, start, end)| == |words|
    ensures SlicedOverlays(words, start, end)[i]
      == WordOverlay(words[i], SliceStart(start, end, i, |words|), SliceEnd(start, end, i, |words|))
  {
  }

  /** Word `i` of `n` keeps its text and runs from `start + i*(end-start)/n`
      to `start + (i+1)*(end-start)/n`. */
  lemma SlicedTiming(words: seq<string>, start: real, end: real, i: nat)
    requires i < |words|
    ensures |SlicedOverlays(words, start, end)| == |words|
    ensures SlicedOverlays(words, start, end)[i].word == words[i]
    ensures SlicedOverlays(words, start, end)[i].start
      == start + (i as real) * (end - start) / (|words| as real)
    ensures SlicedOverlays(words, start, end)[i].end
      == start + ((i + 1) as real) * (end - start) / (|words| as real)
  {
    SlicedAt(words, start, end, i);
  }

  lemma AdjacentWordsMeet(words: seq<string>, start: real, end: real, i: nat)
    requires i + 1 < |words|
    ensures SlicedOverlays(words, start, end)[i].end == SlicedOverlays(words, start, end)[i + 1].start
  {
    SlicedAt(words, start, end, i);
    SlicedAt(words, start, end, i + 1);
    assert SliceEnd(start, end, i, |words|) == SliceStart(start, end, i + 1, |words|);
  }

  /** The word intervals follow one another without gap or overlap, from
      `start` to `end`. */
  lemma SlicedContiguous(words: seq<string>, start: real, end: real)
    ensures forall i :: 0 <= i < |SlicedOverlays(words, start, end)| - 1 ==>
      SlicedOverlays(words, start, end)[i].end == SlicedOverlays(words, start, end)[i + 1].start
    ensures SlicedOverlays(words, start, end) != [] ==>
      && SlicedOverlays(words, start, end)[0].start == start
      && SlicedOverlays(words, start, end)[|words| - 1].end == end
  {
    var ov, n := SlicedOverlays(words, start, end), |words|;
    if n > 0 {
      SlicesCover(start, end, n);
      SlicedAt(words, start, end, 0);
      SlicedAt(words, start, end, n - 1);
      forall i | 0 <= i < n - 1
        ensures ov[i].end == ov[i + 1].start
      {
        AdjacentWordsMeet(words, start, end, i);
      }
    }
  }

  /** Every word is shown for the same time, `(end - start) / n`, and when
      `start <= end` every word lies within `[start, end]`. */
  lemma SlicedEqualWidths(words: seq<string>, start: real, end: real)
    ensures forall i :: 0 <= i < |SlicedOverlays(words, start, end)| ==>
      SlicedOverlays(words, start, end)[i].end - SlicedOverlays(words, start, end)[i].start
        == (end - start) / (|words| as real)
    ensures start <= end ==> forall i :: 0 <= i < |SlicedOverlays(words, start, end)| ==>
      start <= SlicedOverlays(words, start, end)[i].start
            <= SlicedOverlays(words, start, end)[i].end <= end
  {
    var ov, n := SlicedOverlays(words, start, end), |words|;
    forall i | 0 <= i < |ov|
      ensures ov[i].end - ov[i].start == (end - start) / (n as real)
      ensures start <= end ==> start <= ov[i].start <= ov[i].end <= end
    {
      SlicedAt(words, start, end, i);
      SliceOffset(start, end, i, n);
      if start <= end {
        SliceInside(start, end, i, n);
      }
    }
  }

  /** A cue gets one overlay per word of its content, in word order. */
  lemma CueOverlaysWords(cue: Cue)
    ensures |CueOverlays(cue)| == |Split(cue.content)|
    ensures forall i :: 0 <= i < |CueOverlays(cue)| ==>
      CueOverlays(cue)[i].word == Split(cue.content)[i]
  {
  }

  /** The overlays of a cue with words partition the cue: they meet end to
      start, the first starts at the cue's start, the last ends at the cue's
      end, and for a cue with `start <= end` each lies within the cue. */
  lemma CueOverlaysPartition(cue: Cue)
    ensures forall i :: 0 <= i < |CueOverlays(cue)| - 1 ==>
      CueOverlays(cue)[i].end == CueOverlays(cue)[i + 1].start
    ensures CueOverlays(cue) != [] ==>
      && CueOverlays(cue)[0].start == cue.start
      && CueOverlays(cue)[|CueOverlays(cue)| - 1].end == cue.end
    ensures cue.start <= cue.end ==> forall i :: 0 <= i < |CueOverlays(cue)| ==>
      cue.start <= CueOverlays(cue)[i].start <= CueOverlays(cue)[i].end <= cue.end
  {
    var words := Split(cue.content);
    SlicedContiguous(words, cue.start, cue.end);
    SlicedEqualWidths(words, cue.start, cue.end);
    CueOverlaysWords(cue);
  }

  /** A cue yields no overlays exactly when its content is empty or only
      whitespace; the slice width is then never computed. */
  lemma BlankCueHasNoOverlays(cue: Cue)
    ensures CueOverlays(cue) == [] <==> Blank(cue.content)
  {
    SplitEmptyIffBlank(cue.content);
  }

  /** The lists of `lists`, extended one after the other. */
  function Flatten(lists: seq<seq<WordOverlay>>): seq<WordOverlay> {
    if lists == [] then []
    else Flatten(lists[..|lists| - 1]) + lists[|lists| - 1]
  }

  /** Each cue's `word_clips`, in cue order. */
  function PerCue(cues: seq<Cue>): seq<seq<WordOverlay>> {
    seq(|cues|, k requires 0 <= k < |cues| => CueOverlays(cues[k]))
  }

  /** The list `subs` after the outer loop: each cue's overlays extended in
      cue order. */
  function Overlays(cues: seq<Cue>): seq<WordOverlay> {
    Flatten(PerCue(cues))
  }

  /** Total number of words over all cue contents. */
  function WordCount(cues: seq<Cue>): nat {
    if cues == [] then 0
    else WordCount(cues[..|cues| - 1]) + |Split(cues[|cues| - 1].content)|
  }

  lemma {:induction false} FlattenAppend(x: seq<seq<WordOverlay>>, y: seq<seq<WordOverlay>>)
    ensures Flatten(x + y) == Flatten(x) + Flatten(y)
    decreases |y|
  {
    if y == [] {
      assert x + y == x;
    } else {
      var n, xy := |y| - 1, x + y;
      assert xy[..|xy| - 1] == x + y[..n];
      assert xy[|xy| - 1] == y[n];
      FlattenAppend(x, y[..n]);
    }
  }

  lemma PerCueAppend(a: seq<Cue>, b: seq<Cue>)
    ensures PerCue(a + b) == PerCue(a) + PerCue(b)
  {
    assert forall k :: 0 <= k < |a + b| ==> PerCue(a + b)[k] == (PerCue(a) + PerCue(b))[k];
  }

  /** The overlays of consecutive runs of cues come one run after the other:
      every overlay of an earlier cue precedes every overlay of a later one. */
  lemma OverlaysAppend(a: seq<Cue>, b: seq<Cue>)
    ensures Overlays(a + b) == Overlays(a) + Overlays(b)
  {
    PerCueAppend(a, b);
    FlattenAppend(PerCue(a), PerCue(b));
  }

  /** The overlays of one more cue are those of the earlier cues followed by
      that cue's own. */
  lemma OverlaysSnoc(cues: seq<Cue>, cue: Cue)
    ensures Overlays(cues + [cue]) == Overlays(cues) + CueOverlays(cue)
  {
    OverlaysAppend(cues, [cue]);
    assert PerCue([cue]) == [CueOverlays(cue)];
    assert Flatten([CueOverlays(cue)]) == CueOverlays(cue) by {
      assert [CueOverlays(cue)][..0] == [];
    }
  }

  /** The list holds one overlay per word of every cue. */
  lemma {:induction false} OverlaysCount(cues: seq<Cue>)
    ensures |Overlays(cues)| == WordCount(cues)
    decreases |cues|
  {
    if cues != [] {
      var n := |cues| - 1;
      OverlaysCount(cues[..n]);
      CueOverlaysWords(cues[n]);
      assert cues == cues[..n] + [cues[n]];
      OverlaysSnoc(cues[..n], cues[n]);
    }
  }

  /** Cue `k`'s overlays sit, as one block, between those of the cues before
      it and those of the cues after it. */
  lemma OverlaysOfCue(cues: seq<Cue>, k: nat)
    requires k < |cues|
    ensures Overlays(cues) == Overlays(cues[..k]) + CueOverlays(cues[k]) + Overlays(cues[k + 1..])
  {
    assert cues[..k + 1] == cues[..k] + [cues[k]];
    OverlaysSnoc(cues[..k], cues[k]);
    assert cues == cues[..k + 1] + cues[k + 1..];
    OverlaysAppend(cues[..k + 1], cues[k + 1..]);
  }

  /** The nested loop of `agregar_subtitulos`: for each cue, split its
      content, build `word_clips` word by word, then extend `subs` with it. */
  method AddSubtitles(cues: seq<Cue>) returns (subs: seq<WordOverlay>)
    ensures subs == Overlays(cues)
  {
    subs := [];
    for k := 0 to |cues|
      invariant subs == Overlays(cues[..k])
    {
      var subtitle := cues[k];
      var words := Split(subtitle.content);
      var wordClips := [];
      for i := 0 to |words|
        invariant wordClips == SlicedOverlays(words, subtitle.start, subtitle.end)[..i]
      {
        var clip := WordOverlay(words[i],
          SliceStart(subtitle.start, subtitle.end, i, |words|),
          SliceEnd(subtitle.start, subtitle.end, i, |words|));
        wordClips := wordClips + [clip];
      }
      assert cues[..k + 1] == cues[..k] + [subtitle];
      OverlaysSnoc(cues[..k], subtitle);
      subs := subs + wordClips;
    }
    assert cues[..|cues|] == cues;
  }

  /** A cue "a b c" over [10, 13] gives ("a", 10, 11), ("b", 11, 12) and
      ("c", 12, 13). */
  lemma ThreeWordExample()
    ensures CueOverlays(Cue(0, 10.0, 13.0, "a b c"))
      == [WordOverlay("a", 10.0, 11.0), WordOverlay("b", 11.0, 12.0), WordOverlay("c", 12.0, 13.0)]
  {
    var words := ["a", "b", "c"];
    assert Split("a b c") == words by {
      assert IsWord("a") && IsWord("b") && IsWord("c");
      SplitJoin(words);
      assert Join(words) == "a b c";
    }
    ThreeSlices(words);
  }

  lemma ThreeSlices(words: seq<string>)
    requires |words| == 3
    ensures SlicedOverlays(words, 10.0, 13.0)
      == [WordOverlay(words[0], 10.0, 11.0), WordOverlay(words[1], 11.0, 12.0), WordOverlay(words[2], 12.0, 13.0)]
  {
    SlicedAt(words, 10.0, 13.0, 0);
    SlicedAt(words, 10.0, 13.0, 1);
    SlicedAt(words, 10.0, 13.0, 2);
  }
}
