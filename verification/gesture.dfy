/** The gesture estimator of the scene editor: from one detected hand
    (21 MediaPipe landmarks) to a pinch strength, a grab strength, a
    presence flag and a confidence readout.

    Distances are taken in the image plane (x and y only, z is ignored) and
    are given as inputs: a square root is a value `d` with `d >= 0` and
    `d * d` equal to the squared planar distance. */
module Gesture {

  /** One landmark in normalised image coordinates. */
  datatype Landmark = Landmark(x: real, y: real, z: real)

  /** The 21 landmarks of one hand, indexed by the MediaPipe hand schema. */
  type HandPose = seq<Landmark>

  const LANDMARK_COUNT: nat := 21
  const WRIST: nat := 0
  const THUMB_TIP: nat := 4
  const INDEX_TIP: nat := 8
  /** Index, middle, ring and pinky tips, in the order the estimator sums them. */
  const FINGERTIPS: seq<nat> := [8, 12, 16, 20]

  /** Scale constants: pinch strength reaches 0 at distance 0.1, grab
      strength at mean fingertip-to-wrist distance 0.2. */
  const PINCH_GAIN: real := 10.0
  const GRAB_GAIN: real := 5.0

  /** The gesture readout shown in the HUD and handed to the controls.
      The strengths are the numeric values of the one-decimal strings
      the estimator produces. */
  datatype GestureData = GestureData(pinchStrength: real, grabStrength: real,
                                     handPresent: bool, confidence: real)

  /** The readout when no hand is detected (also the initial readout). */
  const NO_HAND: GestureData := GestureData(0.0, 0.0, false, 0.0)

  /** What the readout promises: strengths within [0,100]; a present hand
      has a confidence in [85,95); an absent one reads zero everywhere. */
  predicate Consistent(g: GestureData)
  {
    0.0 <= g.pinchStrength <= 100.0 && 0.0 <= g.grabStrength <= 100.0 &&
    (g.handPresent ==> 85.0 <= g.confidence < 95.0) &&
    (!g.handPresent ==> g.pinchStrength == 0.0 && g.grabStrength == 0.0 && g.confidence == 0.0)
  }

  function PlanarSquaredDistance(p: Landmark, q: Landmark): (r: real)
    ensures r >= 0.0
  {
    (p.x - q.x) * (p.x - q.x) + (p.y - q.y) * (p.y - q.y)
  }

  /** `d` is the planar Euclidean distance between `p` and `q`. */
  ghost predicate IsDistance(d: real, p: Landmark, q: Landmark)
  {
    d >= 0.0 && d * d == PlanarSquaredDistance(p, q)
  }

  /** The distances the estimator computes from a pose: thumb tip to index
      tip, and wrist to each of the four fingertips. */
  ghost predicate Measures(pose: HandPose, pinchDistance: real, fingerDistances: seq<real>)
  {
    |pose| == LANDMARK_COUNT && |fingerDistances| == 4 &&
    IsDistance(pinchDistance, pose[THUMB_TIP], pose[INDEX_TIP]) &&
    forall i :: 0 <= i < 4 ==> IsDistance(fingerDistances[i], pose[WRIST], pose[FINGERTIPS[i]])
  }

  function Min(a: real, b: real): real { if a <= b then a else b }
  function Max(a: real, b: real): real { if a >= b then a else b }

  /** `Math.max(lo, Math.min(hi, v))`. */
  function Clamp(lo: real, hi: real, v: real): (r: real)
    requires lo <= hi
    ensures lo <= r <= hi
    ensures lo <= v <= hi ==> r == v
    ensures v <= lo ==> r == lo
    ensures v >= hi ==> r == hi
  {
    Max(lo, Min(hi, v))
  }

  /** Strength before formatting for a thumb-to-index distance. */
  function PinchStrength(pinchDistance: real): (r: real)
    ensures 0.0 <= r <= 100.0
  {
    Clamp(0.0, 100.0, (1.0 - pinchDistance * PINCH_GAIN) * 100.0)
  }

  /** Strength before formatting for a mean fingertip-to-wrist distance. */
  function GrabStrength(meanDistance: real): (r: real)
    ensures 0.0 <= r <= 100.0
  {
    Clamp(0.0, 100.0, (1.0 - meanDistance * GRAB_GAIN) * 100.0)
  }

  /** Left fold with `+` starting from 0, as `reduce((sum, d) => sum + d, 0)`;
      over non-negative distances it is non-negative. */
  function Sum(s: seq<real>): (r: real)
    ensures (forall i :: 0 <= i < |s| ==> s[i] >= 0.0) ==> r >= 0.0
  {
    if s == [] then 0.0 else Sum(s[..|s| - 1]) + s[|s| - 1]
  }

  /** The fold over four distances is their plain sum. */
  lemma SumOfFour(s: seq<real>)
    requires |s| == 4
    ensures Sum(s) == s[0] + s[1] + s[2] + s[3]
  {
    assert s[..3][..2] == s[..2] && s[..2][..1] == s[..1] && s[..1][..0] == [];
    assert Sum(s[..1]) == s[0];
    assert Sum(s[..2]) == s[0] + s[1];
    assert Sum(s[..3]) == s[0] + s[1] + s[2];
  }

  /** The mean the estimator takes: the sum of the four distances over 4. */
  function MeanFingerDistance(fingerDistances: seq<real>): (r: real)
    ensures |fingerDistances| == 4 ==>
              r == (fingerDistances[0] + fingerDistances[1] + fingerDistances[2] + fingerDistances[3]) / 4.0
  {
    if |fingerDistances| == 4 then SumOfFour(fingerDistances); Sum(fingerDistances) / 4.0
    else Sum(fingerDistances) / 4.0
  }

  /** `v.toFixed(1)` read back as a number, for `v >= 0`: the nearest
      multiple of 0.1, ties going up. */
  function ToFixed1(v: real): (r: real)
    requires v >= 0.0
    ensures r >= 0.0
    ensures v - 0.05 < r <= v + 0.05
    ensures (r * 10.0).Floor as real == r * 10.0
  {
    (v * 10.0 + 0.5).Floor as real / 10.0
  }

  /** The estimator for one detected hand; `jitter` is the `Math.random()`
      draw added to the confidence baseline. */
  function CalculateGesture(pose: HandPose, pinchDistance: real, fingerDistances: seq<real>,
                            jitter: real): (g: GestureData)
    requires Measures(pose, pinchDistance, fingerDistances)
    requires 0.0 <= jitter < 1.0
    ensures g.handPresent && Consistent(g)
    ensures pinchDistance == 0.0 ==> g.pinchStrength == 100.0
    ensures pinchDistance >= 0.1 ==> g.pinchStrength == 0.0
    ensures MeanFingerDistance(fingerDistances) == 0.0 ==> g.grabStrength == 100.0
    ensures MeanFingerDistance(fingerDistances) >= 0.2 ==> g.grabStrength == 0.0
  {
    var pinch := ToFixed1(PinchStrength(pinchDistance));
    var grab := ToFixed1(GrabStrength(MeanFingerDistance(fingerDistances)));
    ToFixed1Range(PinchStrength(pinchDistance));
    ToFixed1Range(GrabStrength(MeanFingerDistance(fingerDistances)));
    GestureData(pinch, grab, true, 85.0 + jitter * 10.0)
  }

  /** One detected hand as the landmark model hands it over, with the
      distances the estimator measures on it and the confidence draw. */
  datatype HandSample = HandSample(pose: HandPose, pinchDistance: real,
                                   fingerDistances: seq<real>, jitter: real)

  ghost predicate ValidSample(h: HandSample)
  {
    Measures(h.pose, h.pinchDistance, h.fingerDistances) && 0.0 <= h.jitter < 1.0
  }

  /** The gesture readout computed for one detected hand. */
  function Estimate(h: HandSample): GestureData
    requires ValidSample(h)
  {
    CalculateGesture(h.pose, h.pinchDistance, h.fingerDistances, h.jitter)
  }

  // ---------------------------------------------------------------------
  // Properties of the estimator

  /** The formatted value of a strength in [0,100] stays in [0,100], and
      the two ends are kept exactly. */
  lemma ToFixed1Range(v: real)
    requires 0.0 <= v <= 100.0
    ensures 0.0 <= ToFixed1(v) <= 100.0
    ensures v == 0.0 ==> ToFixed1(v) == 0.0
    ensures v == 100.0 ==> ToFixed1(v) == 100.0
  {
    var n := (v * 10.0 + 0.5).Floor;
    assert n <= 1000 by {
      assert v * 10.0 + 0.5 <= 1000.5;
    }
    if v == 100.0 {
      assert v * 10.0 + 0.5 == 1000.5;
    }
  }

  /** Formatting never reverses the order of two strengths. */
  lemma ToFixed1Monotone(v: real, w: real)
    requires 0.0 <= v <= w
    ensures ToFixed1(v) <= ToFixed1(w)
  {
    var a, b := v * 10.0 + 0.5, w * 10.0 + 0.5;
    assert a <= b;
    assert a.Floor <= b.Floor;
  }

  /** A formatted strength exceeds an integer threshold `k` exactly when the
      raw strength is at least `k + 0.05`: the controls' `> 70` and `> 80`
      tests act on the rounded value. */
  lemma ToFixed1Above(v: real, k: int)
    requires v >= 0.0
    ensures ToFixed1(v) > k as real <==> v >= k as real + 0.05
  {
    var n := (v * 10.0 + 0.5).Floor;
    if v >= k as real + 0.05 {
      assert v * 10.0 + 0.5 >= (10 * k + 1) as real;
      assert n >= 10 * k + 1;
    } else {
      assert v * 10.0 + 0.5 < (10 * k + 1) as real;
      assert n <= 10 * k;
    }
  }

  /** Pinch strength never increases as the fingers open. */
  lemma PinchMonotone(d1: real, d2: real)
    requires 0.0 <= d1 <= d2
    ensures PinchStrength(d2) <= PinchStrength(d1)
    ensures ToFixed1(PinchStrength(d2)) <= ToFixed1(PinchStrength(d1))
  {
    ToFixed1Monotone(PinchStrength(d2), PinchStrength(d1));
  }

  /** Closed pinch reads 100, a pinch open by 0.1 or more reads 0. */
  lemma PinchEnds(d: real)
    requires d >= 0.0
    ensures d == 0.0 ==> PinchStrength(d) == 100.0
    ensures d >= 0.1 ==> PinchStrength(d) == 0.0
    ensures 0.0 < d < 0.1 ==> 0.0 < PinchStrength(d) < 100.0
  {
  }

  /** Grab strength never increases as the mean distance grows; it reads 100
      for a mean of 0 and 0 for a mean of 0.2 or more. */
  lemma GrabMonotoneAndEnds(m1: real, m2: real)
    requires 0.0 <= m1 <= m2
    ensures GrabStrength(m2) <= GrabStrength(m1)
    ensures ToFixed1(GrabStrength(m2)) <= ToFixed1(GrabStrength(m1))
    ensures m1 == 0.0 ==> GrabStrength(m1) == 100.0
    ensures m2 >= 0.2 ==> GrabStrength(m2) == 0.0
  {
    ToFixed1Monotone(GrabStrength(m2), GrabStrength(m1));
  }

  /** Growing any distance never shrinks the sum. */
  lemma {:induction false} SumMonotone(s: seq<real>, t: seq<real>)
    requires |s| == |t|
    requires forall i :: 0 <= i < |s| ==> s[i] <= t[i]
    ensures Sum(s) <= Sum(t)
  {
    if s != [] {
      SumMonotone(s[..|s| - 1], t[..|t| - 1]);
    }
  }

  /** Curling the fingers (no fingertip moving away from the wrist) never
      lowers the reported grab strength. */
  lemma GrabMonotoneInFingers(s: seq<real>, t: seq<real>)
    requires |s| == |t| == 4
    requires forall i :: 0 <= i < 4 ==> 0.0 <= s[i] <= t[i]
    ensures ToFixed1(GrabStrength(MeanFingerDistance(t))) <= ToFixed1(GrabStrength(MeanFingerDistance(s)))
  {
    SumMonotone(s, t);
    GrabMonotoneAndEnds(MeanFingerDistance(s), MeanFingerDistance(t));
  }

  /** A distance whose square is 0 is itself 0. */
  lemma SquareZero(d: real)
    requires d >= 0.0 && d * d == 0.0
    ensures d == 0.0
  {
    if d > 0.0 {
      calc {
        0.0;
      ==
        d * d;
      > { assert d * d > 0.0 * d; }
        0.0;
      }
    }
  }

  /** Thumb tip and index tip at the same place in the image plane read a
      full pinch, whatever their depth. */
  lemma CoincidentTips(pose: HandPose, pinchDistance: real, fingerDistances: seq<real>, jitter: real)
    requires Measures(pose, pinchDistance, fingerDistances)
    requires 0.0 <= jitter < 1.0
    requires pose[THUMB_TIP].x == pose[INDEX_TIP].x && pose[THUMB_TIP].y == pose[INDEX_TIP].y
    ensures CalculateGesture(pose, pinchDistance, fingerDistances, jitter).pinchStrength == 100.0
  {
    assert pinchDistance * pinchDistance == 0.0;
    SquareZero(pinchDistance);
  }

  /** The readout for an absent hand satisfies the readout's invariant. */
  lemma NoHandConsistent()
    ensures Consistent(NO_HAND) && !NO_HAND.handPresent
  {
  }
}
