/** The duration filter that `detectar_escenas` applies to the scene list the
    scene detector returns: only scenes lasting at least `min_duration`
    seconds are kept, as `(start, end)` pairs in seconds, in detection order. */
module Scenes {

  /** A detected scene as `(start seconds, end seconds)`. */
  type SceneRange = (real, real)

  /** The default `min_duration` of `detectar_escenas`, in seconds. */
  const DefaultMinDuration: real := 2.0

  function Duration(scene: SceneRange): real {
    scene.1 - scene.0
  }

  /** True when the filter keeps `scene`: its duration is at least the
      minimum, the boundary itself included. */
  predicate LongEnough(scene: SceneRange, minDuration: real) {
    Duration(scene) >= minDuration
  }

  /** The list comprehension of `detectar_escenas`: the scenes that are long
      enough, unchanged and in their original order. */
  function FilterScenes(scenes: seq<SceneRange>, minDuration: real): (kept: seq<SceneRange>)
    ensures |kept| <= |scenes|
    ensures forall k :: 0 <= k < |kept| ==> LongEnough(kept[k], minDuration)
  {
    if scenes == [] then []
    else
      var last := scenes[|scenes| - 1];
      FilterScenes(scenes[..|scenes| - 1], minDuration)
        + (if LongEnough(last, minDuration) then [last] else [])
  }

  /** The positions in `scenes`, in increasing order, of the scenes that are
      long enough. */
  function KeptPositions(scenes: seq<SceneRange>, minDuration: real): (pos: seq<nat>)
  {
    if scenes == [] then []
    else
      var n := |scenes| - 1;
      KeptPositions(scenes[..n], minDuration)
        + (if LongEnough(scenes[n], minDuration) then [n] else [])
  }

  /** Every selected position is a position of the input, and the
      positions strictly increase. */
  lemma {:induction false} PositionsIncrease(scenes: seq<SceneRange>, minDuration: real)
    ensures forall j :: 0 <= j < |KeptPositions(scenes, minDuration)| ==>
      KeptPositions(scenes, minDuration)[j] < |scenes|
    ensures forall j, k :: 0 <= j < k < |KeptPositions(scenes, minDuration)| ==>
      KeptPositions(scenes, minDuration)[j] < KeptPositions(scenes, minDuration)[k]
    decreases |scenes|
  {
    if scenes != [] {
      var n := |scenes| - 1;
      PositionsIncrease(scenes[..n], minDuration);
    }
  }

  /** A position is selected if and only if its scene is long enough. */
  lemma {:induction false} PositionsSelect(scenes: seq<SceneRange>, minDuration: real)
    ensures forall i :: 0 <= i < |scenes| ==>
      (i in KeptPositions(scenes, minDuration) <==> LongEnough(scenes[i], minDuration))
    decreases |scenes|
  {
    if scenes != [] {
      var n := |scenes| - 1;
      var init := scenes[..n];
      PositionsSelect(init, minDuration);
      PositionsIncrease(init, minDuration);
      var pos0 := KeptPositions(init, minDuration);
      assert n !in pos0;
      forall i | 0 <= i < n
        ensures i in KeptPositions(scenes, minDuration) <==> LongEnough(scenes[i], minDuration)
      {
        assert init[i] == scenes[i];
      }
    }
  }

  /** The j-th kept scene is the scene at the j-th selected position. */
  lemma {:induction false} FilterAtPositions(scenes: seq<SceneRange>, minDuration: real)
    ensures |KeptPositions(scenes, minDuration)| == |FilterScenes(scenes, minDuration)|
    ensures forall j :: 0 <= j < |KeptPositions(scenes, minDuration)| ==>
      KeptPositions(scenes, minDuration)[j] < |scenes|
      && FilterScenes(scenes, minDuration)[j] == scenes[KeptPositions(scenes, minDuration)[j]]
    decreases |scenes|
  {
    if scenes != [] {
      var n := |scenes| - 1;
      var init := scenes[..n];
      FilterAtPositions(init, minDuration);
      var pos0, kept0 := KeptPositions(init, minDuration), FilterScenes(init, minDuration);
      forall j | 0 <= j < |pos0|
        ensures pos0[j] < |scenes| && kept0[j] == scenes[pos0[j]]
      {
        assert init[pos0[j]] == scenes[pos0[j]];
      }
    }
  }

  /** The filter selects exactly the long-enough scenes, by position: the
      j-th kept scene is the scene at the j-th selected position, the
      positions increase strictly, and a position is selected if and only if
      its scene lasts at least `minDuration`. */
  lemma FilterSelectsPositions(scenes: seq<SceneRange>, minDuration: real)
    ensures |KeptPositions(scenes, minDuration)| == |FilterScenes(scenes, minDuration)|
    ensures forall j :: 0 <= j < |KeptPositions(scenes, minDuration)| ==>
      KeptPositions(scenes, minDuration)[j] < |scenes|
      && FilterScenes(scenes, minDuration)[j] == scenes[KeptPositions(scenes, minDuration)[j]]
    ensures forall j, k :: 0 <= j < k < |KeptPositions(scenes, minDuration)| ==>
      KeptPositions(scenes, minDuration)[j] < KeptPositions(scenes, minDuration)[k]
    ensures forall i :: 0 <= i < |scenes| ==>
      (i in KeptPositions(scenes, minDuration) <==> LongEnough(scenes[i], minDuration))
  {
    FilterAtPositions(scenes, minDuration);
    PositionsIncrease(scenes, minDuration);
    PositionsSelect(scenes, minDuration);
  }

  /** A scene is in the result exactly when it is in the input and is long
      enough. */
  lemma {:induction false} FilterMembership(scenes: seq<SceneRange>, minDuration: real, scene: SceneRange)
    ensures scene in FilterScenes(scenes, minDuration)
      <==> scene in scenes && LongEnough(scene, minDuration)
    decreases |scenes|
  {
    if scenes != [] {
      var n := |scenes| - 1;
      FilterMembership(scenes[..n], minDuration, scene);
      assert scenes == scenes[..n] + [scenes[n]];
    }
  }

  /** Filtering a concatenation filters each part and keeps them in order:
      scenes of the first part all come before those of the second. */
  lemma {:induction false} FilterAppend(a: seq<SceneRange>, b: seq<SceneRange>, minDuration: real)
    ensures FilterScenes(a + b, minDuration) == FilterScenes(a, minDuration) + FilterScenes(b, minDuration)
    decreases |b|
  {
    if b == [] {
      assert a + b == a;
    } else {
      var n := |b| - 1;
      assert (a + b)[..|a + b| - 1] == a + b[..n];
      FilterAppend(a, b[..n], minDuration);
    }
  }

  /** Filtering twice with the same minimum is the same as filtering once. */
  lemma {:induction false} FilterIdempotent(scenes: seq<SceneRange>, minDuration: real)
    ensures FilterScenes(FilterScenes(scenes, minDuration), minDuration) == FilterScenes(scenes, minDuration)
  {
    AllLongEnoughKept(FilterScenes(scenes, minDuration), minDuration);
  }

  /** When every scene is long enough, the filter returns the input unchanged. */
  lemma {:induction false} AllLongEnoughKept(scenes: seq<SceneRange>, minDuration: real)
    requires forall k :: 0 <= k < |scenes| ==> LongEnough(scenes[k], minDuration)
    ensures FilterScenes(scenes, minDuration) == scenes
    decreases |scenes|
  {
    if scenes != [] {
      var n := |scenes| - 1;
      AllLongEnoughKept(scenes[..n], minDuration);
      assert scenes == scenes[..n] + [scenes[n]];
    }
  }

  /** With the default minimum of 2.0 s, scenes lasting 1.0, 2.0, 2.5 and
      0.5 s leave exactly the 2.0 s and 2.5 s scenes. */
  lemma DefaultFilterExample()
    ensures FilterScenes([(0.0, 1.0), (1.0, 3.0), (3.0, 5.5), (5.5, 6.0)], DefaultMinDuration)
      == [(1.0, 3.0), (3.0, 5.5)]
  {
    var s1, s2, s3 := [(0.0, 1.0)], [(1.0, 3.0)], [(3.0, 5.5)];
    assert FilterScenes(s1, DefaultMinDuration) == [] by {
      assert s1[..0] == [];
    }
    assert FilterScenes(s1 + s2, DefaultMinDuration) == s2 by {
      assert (s1 + s2)[..1] == s1;
    }
    assert FilterScenes(s1 + s2 + s3, DefaultMinDuration) == s2 + s3 by {
      assert (s1 + s2 + s3)[..2] == s1 + s2;
    }
    var scenes := s1 + s2 + s3 + [(5.5, 6.0)];
    assert scenes[..3] == s1 + s2 + s3;
    assert scenes == [(0.0, 1.0), (1.0, 3.0), (3.0, 5.5), (5.5, 6.0)];
    assert FilterScenes(scenes, DefaultMinDuration) == s2 + s3;
  }
}
