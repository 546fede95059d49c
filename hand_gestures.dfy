/**
 * The heuristic hand-shape detector and the per-frame label gate of the sign
 * camera (components/SignLanguageCamera.tsx). Coordinates are reals and
 * distances are compared squared, so no square root is needed.
 */
module HandGestures {
  import opened Types

  /** A normalised hand landmark; the depth `z` may be missing. */
  datatype Landmark = Landmark(x: real, y: real, z: Option<real>)

  /** `landmark.z || 0`. */
  function Depth(p: Landmark): real
  {
    match p.z
    case Some(z) => z
    case None => 0.0
  }

  /** The square of the 3-D distance `dist` computes. */
  function SquaredDistance(a: Landmark, b: Landmark): (d: real)
    ensures d >= 0.0
  {
    var dx := a.x - b.x;
    var dy := a.y - b.y;
    var dz := Depth(a) - Depth(b);
    assert dx * dx >= 0.0 && dy * dy >= 0.0 && dz * dz >= 0.0;
    dx * dx + dy * dy + dz * dz
  }

  /** For non-negative reals, comparing squares compares the numbers. */
  lemma CompareBySquares(d: real, e: real)
    requires d >= 0.0 && e >= 0.0
    ensures d > e <==> d * d > e * e
  {
    var dd, de, ee := d * d, e * d, e * e;
    if d > e {
      assert dd - de == (d - e) * d && (d - e) * d > 0.0;
      assert de - ee == e * (d - e) && e * (d - e) >= 0.0;
    } else {
      assert dd - de == (d - e) * d && (d - e) * d <= 0.0;
      assert de - ee == e * (d - e) && e * (d - e) <= 0.0;
    }
  }

  /**
   * The extension test `dist(0, tip) > dist(0, base) * 1.2`, for the true
   * distances `tip` and `base`, is the squared test the model uses.
   */
  lemma ExtendedBySquares(tip: real, base: real)
    requires tip >= 0.0 && base >= 0.0
    ensures tip > base * 1.2 <==> tip * tip > 1.44 * (base * base)
  {
    CompareBySquares(tip, base * 1.2);
    assert (base * 1.2) * (base * 1.2) == 1.44 * (base * base);
  }

  /** The pinch test `dist(4, 8) < 0.06`, for the true distance `d`, is the squared test. */
  lemma PinchBySquares(d: real)
    requires d >= 0.0
    ensures d < 0.06 <==> d * d < 0.0036
  {
    CompareBySquares(0.06, d);
  }

  const Wrist: nat := 0

  /** `isExtended(tip, base)`: the tip lies more than 1.2 times as far from the wrist as the base. */
  predicate IsExtended(hand: seq<Landmark>, tip: nat, base: nat)
    requires tip < |hand| && base < |hand|
  {
    SquaredDistance(hand[Wrist], hand[tip]) > 1.44 * SquaredDistance(hand[Wrist], hand[base])
  }

  /**
   * For the true distances `dt` (wrist to tip) and `db` (wrist to base), the
   * squared test is the source's `dist(0, tip) > dist(0, base) * 1.2`.
   */
  lemma IsExtendedByDistance(hand: seq<Landmark>, tip: nat, base: nat, dt: real, db: real)
    requires tip < |hand| && base < |hand|
    requires dt >= 0.0 && dt * dt == SquaredDistance(hand[Wrist], hand[tip])
    requires db >= 0.0 && db * db == SquaredDistance(hand[Wrist], hand[base])
    ensures IsExtended(hand, tip, base) <==> dt > db * 1.2
  {
    ExtendedBySquares(dt, db);
  }

  /** Which fingers the extension test finds extended. */
  datatype Fingers = Fingers(thumb: bool, index: bool, middle: bool, ring: bool, pinky: bool)

  function FingerStates(hand: seq<Landmark>): Fingers
    requires |hand| >= 21
  {
    Fingers(IsExtended(hand, 4, 2), IsExtended(hand, 8, 6), IsExtended(hand, 12, 10),
            IsExtended(hand, 16, 14), IsExtended(hand, 20, 18))
  }

  /** The thumb tip (4) and index tip (8) are closer than 0.06. */
  predicate Pinched(hand: seq<Landmark>)
    requires |hand| >= 21
  {
    SquaredDistance(hand[4], hand[8]) < 0.0036
  }

  /** For the true distance `d` between the thumb and index tips, the squared test is `dist(4, 8) < 0.06`. */
  lemma PinchedByDistance(hand: seq<Landmark>, d: real)
    requires |hand| >= 21
    requires d >= 0.0 && d * d == SquaredDistance(hand[4], hand[8])
    ensures Pinched(hand) <==> d < 0.06
  {
    PinchBySquares(d);
  }

  /** Index and pinky extended, middle and ring curled; the thumb is free. */
  predicate RockShape(f: Fingers)
  {
    f.index && f.pinky && !f.middle && !f.ring
  }

  /** Thumb and pinky extended, index, middle and ring curled. */
  predicate CallMeShape(f: Fingers)
  {
    f.thumb && f.pinky && !f.index && !f.middle && !f.ring
  }

  /** Thumb and index pinched, middle, ring and pinky extended. */
  predicate OkShape(f: Fingers, pinched: bool)
  {
    pinched && f.middle && f.ring && f.pinky
  }

  /** No hand satisfies two of the shapes. */
  lemma ShapesDisjoint(f: Fingers, pinched: bool)
    ensures !(RockShape(f) && CallMeShape(f))
    ensures !(RockShape(f) && OkShape(f, pinched))
    ensures !(CallMeShape(f) && OkShape(f, pinched))
  {
  }

  /**
   * The three rules checked in order, first match wins. Because the shapes are
   * disjoint, each label is returned exactly when its own shape holds.
   */
  function Classify(f: Fingers, pinched: bool): (shape: Option<string>)
    ensures shape == Some("Rock") <==> RockShape(f)
    ensures shape == Some("Call_Me") <==> CallMeShape(f)
    ensures shape == Some("OK_Sign") <==> OkShape(f, pinched)
    ensures shape.None? <==> !RockShape(f) && !CallMeShape(f) && !OkShape(f, pinched)
  {
    if RockShape(f) then Some("Rock")
    else if CallMeShape(f) then Some("Call_Me")
    else if OkShape(f, pinched) then Some("OK_Sign")
    else None
  }

  /** `detectCustomGestures` over the 21 landmarks of one hand. */
  function DetectCustomGestures(hand: seq<Landmark>): (shape: Option<string>)
    requires |hand| >= 21
    ensures shape.None? || shape.value == "Rock" || shape.value == "Call_Me" || shape.value == "OK_Sign"
    ensures shape == Some("OK_Sign") ==> Pinched(hand)
    ensures shape == Some("Rock") || shape == Some("Call_Me") ==> FingerStates(hand).pinky && !FingerStates(hand).middle
  {
    Classify(FingerStates(hand), Pinched(hand))
  }

  /** The classifier's best category for the first hand. */
  datatype Category = Category(name: string, score: real)

  /** One frame's recognition result: the top category, if any, and the first hand's landmarks, if any. */
  datatype Recognition = Recognition(top: Option<Category>, hand: Option<seq<Landmark>>)

  /**
   * What the frame loop hands on: a label and a score, or a fault (a hand with
   * fewer than 21 landmarks makes `detectCustomGestures` read a missing point;
   * the per-frame `catch` swallows the error and the rest of the frame is skipped).
   */
  datatype GatedFrame = Faulted | Gated(name: string, score: real)

  const HeuristicScore: real := 0.85
  const ScoreThreshold: real := 0.55

  /** Lines 216-230 of the frame loop: take the classifier's label, let a heuristic label replace it. */
  function GateFrame(r: Recognition): (g: GatedFrame)
    ensures g.Faulted? <==> r.hand.Some? && |r.hand.value| < 21
    ensures r.hand.Some? && |r.hand.value| >= 21 && DetectCustomGestures(r.hand.value).Some? ==>
              g == Gated(DetectCustomGestures(r.hand.value).value, HeuristicScore)
    ensures r.hand.None? || (|r.hand.value| >= 21 && DetectCustomGestures(r.hand.value).None?) ==>
              g == if r.top.Some? then Gated(r.top.value.name, r.top.value.score) else Gated("", 0.0)
  {
    var name := if r.top.Some? then r.top.value.name else "";
    var score := if r.top.Some? then r.top.value.score else 0.0;
    if r.hand.Some? then
      if |r.hand.value| < 21 then Faulted
      else
        var custom := DetectCustomGestures(r.hand.value);
        if custom.Some? then Gated(custom.value, HeuristicScore) else Gated(name, score)
    else
      Gated(name, score)
  }

  /** The test of line 254: the score beats the threshold and the label names a gesture. */
  predicate PassesGate(g: GatedFrame)
  {
    g.Gated? && g.score > ScoreThreshold && g.name != "None" && g.name != ""
  }

  /** A heuristic label replaces the classifier's and always passes the gate. */
  lemma HeuristicLabelPassesGate(r: Recognition)
    requires r.hand.Some? && |r.hand.value| >= 21
    requires DetectCustomGestures(r.hand.value).Some?
    ensures PassesGate(GateFrame(r))
    ensures GateFrame(r) == Gated(DetectCustomGestures(r.hand.value).value, 0.85)
  {
    var shape := DetectCustomGestures(r.hand.value).value;
    assert shape == "Rock" || shape == "Call_Me" || shape == "OK_Sign";
  }

  /** Without a heuristic match the classifier's own label and score go through unchanged. */
  lemma ClassifierLabelOtherwise(r: Recognition)
    requires r.top.Some?
    requires r.hand.None? || (|r.hand.value| >= 21 && DetectCustomGestures(r.hand.value).None?)
    ensures GateFrame(r) == Gated(r.top.value.name, r.top.value.score)
  {
  }
}
