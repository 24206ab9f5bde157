/**
 * The ASLRecognizer: its own table of four letter patterns (A-D), the scan that
 * takes the first pattern holding on a frame, the 0.5 s debounce between
 * accepted recognitions, and the 2.0 s display of the recognised letter
 * before a dismissal timer clears it.
 *
 * Time is passed in explicitly as `now` (seconds). The dismissal timer is an
 * explicit expiry time that a clock tick, Tick(now), fires once reached.
 */
module GestureRecognition {

  import opened Wrappers
  import opened Landmarks

  // ---------------------------------------------------------------------
  // The gesture patterns
  // ---------------------------------------------------------------------

  datatype Gesture = A | B | C | D

  /** The dictionary key of a pattern, which is also the text shown for it. */
  function Name(g: Gesture): (s: string)
    ensures s != ""  // the empty string is reserved for "no sign shown"
  {
    match g
    case A => "A"
    case B => "B"
    case C => "C"
    case D => "D"
  }

  /** Distinct patterns show distinct text. */
  lemma NamesAreDistinct(g: Gesture, h: Gesture)
    ensures Name(g) == Name(h) ==> g == h
  {
  }

  /** The joints each pattern's guard asks for. */
  function GestureJoints(g: Gesture): set<Joint>
  {
    match g
    case A => {ThumbTip, IndexTip, MiddleTip, Wrist}
    case B => {IndexTip, MiddleTip, RingTip, LittleTip, Wrist}
    case C => {ThumbTip, IndexTip, MiddleTip, Wrist}
    case D => {IndexTip, MiddleTip, IndexDIP, Wrist}
  }

  /** Closed fist: thumb tip above the index tip, index and middle level, index below the wrist. */
  predicate PatternA(f: Frame)
    ensures PatternA(f) ==> GestureJoints(A) <= f.Keys
  {
    && ThumbTip in f && IndexTip in f && MiddleTip in f && Wrist in f
    && f[ThumbTip].y > f[IndexTip].y
    && Abs(f[IndexTip].y - f[MiddleTip].y) < 0.1
    && f[IndexTip].y < f[Wrist].y
  }

  /** Flat hand: index more than 0.2 above the wrist, neighbouring finger tips level within 0.1. */
  predicate PatternB(f: Frame)
    ensures PatternB(f) ==> GestureJoints(B) <= f.Keys
  {
    && IndexTip in f && MiddleTip in f && RingTip in f && LittleTip in f && Wrist in f
    && f[IndexTip].y > f[Wrist].y + 0.2
    && Abs(f[IndexTip].y - f[MiddleTip].y) < 0.1
    && Abs(f[MiddleTip].y - f[RingTip].y) < 0.1
    && Abs(f[RingTip].y - f[LittleTip].y) < 0.1
  }

  /**
   * Curved hand: thumb and index tips between 0.1 and 0.3 apart horizontally,
   * index and middle level. The wrist is required though no test reads it.
   */
  predicate PatternC(f: Frame)
    ensures PatternC(f) ==> GestureJoints(C) <= f.Keys
  {
    && ThumbTip in f && IndexTip in f && MiddleTip in f && Wrist in f
    && Abs(f[ThumbTip].x - f[IndexTip].x) > 0.1
    && Abs(f[ThumbTip].x - f[IndexTip].x) < 0.3
    && Abs(f[IndexTip].y - f[MiddleTip].y) < 0.1
  }

  /** Index up: index tip above the wrist and its DIP, middle tip below the wrist. */
  predicate PatternD(f: Frame)
    ensures PatternD(f) ==> GestureJoints(D) <= f.Keys
  {
    && IndexTip in f && MiddleTip in f && IndexDIP in f && Wrist in f
    && f[IndexTip].y > f[Wrist].y
    && f[MiddleTip].y < f[Wrist].y
    && f[IndexTip].y > f[IndexDIP].y
  }

  predicate Pattern(g: Gesture, f: Frame)
  {
    match g
    case A => PatternA(f)
    case B => PatternB(f)
    case C => PatternC(f)
    case D => PatternD(f)
  }

  /** Pattern A (index below the wrist) excludes B and D (index above it). */
  lemma PatternAExcludesBAndD(f: Frame)
    ensures PatternA(f) ==> !PatternB(f) && !PatternD(f)
  {
  }

  /** B keeps the middle tip within 0.1 of an index tip 0.2 above the wrist; D wants it below the wrist. */
  lemma PatternBExcludesD(f: Frame)
    ensures !(PatternB(f) && PatternD(f))
  {
  }

  /** C is an open window on the thumb-index spread, and still fails when the wrist is missing. */
  lemma PatternCWindow(f: Frame)
    ensures PatternC(f) ==> 0.1 < Abs(f[ThumbTip].x - f[IndexTip].x) < 0.3
    ensures Wrist !in f ==> !PatternC(f)
  {
  }

  // ---------------------------------------------------------------------
  // The scan: first match in dictionary iteration order
  // ---------------------------------------------------------------------

  /**
   * An iteration order of the pattern dictionary: every pattern exactly once.
   * Swift does not specify which one a dictionary uses.
   */
  predicate IsScanOrder(order: seq<Gesture>)
  {
    && (forall g :: g in order)
    && (forall i, j :: 0 <= i < j < |order| ==> order[i] != order[j])
  }

  /** The position in `order` of the first pattern that holds on `f`, if any. */
  function FirstMatch(order: seq<Gesture>, f: Frame): (r: Option<nat>)
    ensures r.Some? ==> r.value < |order| && Pattern(order[r.value], f)
    ensures r.Some? ==> forall j :: 0 <= j < r.value ==> !Pattern(order[j], f)
    ensures r.None? ==> forall j :: 0 <= j < |order| ==> !Pattern(order[j], f)
  {
    if order == [] then None
    else if Pattern(order[0], f) then Some(0)
    else
      match FirstMatch(order[1..], f)
      case None => None
      case Some(i) => Some(i + 1)
  }

  /** A frame without confident joints matches no pattern. */
  lemma EmptyFrameMatchesNothing(order: seq<Gesture>)
    ensures FirstMatch(order, map[]).None?
  {
  }

  /** A closed fist with the thumb out to the side: it satisfies both A and C. */
  const FistWithThumbOut: Frame :=
    map[Wrist := Point(0.5, 0.5), ThumbTip := Point(0.3, 0.45),
        IndexTip := Point(0.5, 0.4), MiddleTip := Point(0.52, 0.41)]

  /**
   * Patterns overlap, so the unspecified dictionary order decides what is
   * recognised: on FistWithThumbOut the result is whichever of A and C the
   * iteration visits first.
   */
  lemma ScanOrderDecidesOverlap(order: seq<Gesture>)
    requires IsScanOrder(order)
    ensures PatternA(FistWithThumbOut) && PatternC(FistWithThumbOut)
    ensures FirstMatch(order, FistWithThumbOut).Some?
    ensures forall i, j :: 0 <= i < |order| && 0 <= j < |order| && order[i] == A && order[j] == C ==>
              order[FirstMatch(order, FistWithThumbOut).value] == (if i < j then A else C)
  {
    var f := FistWithThumbOut;
    assert PatternA(f) && PatternC(f) && !PatternB(f) && !PatternD(f);
    assert A in order;
    var k :| 0 <= k < |order| && order[k] == A;
    assert Pattern(order[k], f);
  }

  // ---------------------------------------------------------------------
  // The debounce / display state machine, on values
  // ---------------------------------------------------------------------

  const MinimumTimeBetweenRecognitions: real := 0.5
  const DisplayDuration: real := 2.0

  /** The recogniser's state: the text shown, the last accepted time, the pending dismissal. */
  datatype Display = Display(currentSign: string, lastRecognitionTime: real, expiry: Option<real>)

  /** The state right after construction at time `now`. */
  function Initial(now: real): Display
  {
    Display("", now, None)
  }

  /**
   * A sign is shown exactly while a dismissal is pending, that dismissal is due
   * DisplayDuration after the last accepted recognition, and what is shown is
   * a pattern's name.
   */
  ghost predicate Consistent(s: Display)
  {
    && (s.currentSign == "" <==> s.expiry.None?)
    && (s.expiry.Some? ==> s.expiry.value == s.lastRecognitionTime + DisplayDuration)
    && (s.currentSign != "" ==> exists g :: Name(g) == s.currentSign)
  }

  /** Whether a frame arriving at `now` is accepted: past the debounce and matching some pattern. */
  predicate Accepts(order: seq<Gesture>, s: Display, now: real, f: Frame)
  {
    now - s.lastRecognitionTime >= MinimumTimeBetweenRecognitions && FirstMatch(order, f).Some?
  }

  /** The effect of one recognition call at time `now`. */
  function OnFrame(order: seq<Gesture>, s: Display, now: real, f: Frame): (r: Display)
    ensures Consistent(s) ==> Consistent(r)
    ensures !Accepts(order, s, now, f) ==> r == s
    ensures Accepts(order, s, now, f) ==>
              && r.lastRecognitionTime == now
              && r.expiry == Some(now + DisplayDuration)
              && Pattern(order[FirstMatch(order, f).value], f)
              && r.currentSign == Name(order[FirstMatch(order, f).value])
  {
    if now - s.lastRecognitionTime < MinimumTimeBetweenRecognitions then s
    else
      match FirstMatch(order, f)
      case None => s
      case Some(i) => Display(Name(order[i]), now, Some(now + DisplayDuration))
  }

  /** The dismissal timer: once its time is reached it clears the sign, once. */
  function OnTick(s: Display, now: real): (r: Display)
    ensures Consistent(s) ==> Consistent(r)
    ensures r.lastRecognitionTime == s.lastRecognitionTime
    ensures r.expiry.Some? ==> now < r.expiry.value && r == s
    ensures s.expiry.None? || now < s.expiry.value ==> r == s
    ensures s.expiry.Some? && now >= s.expiry.value ==> r.currentSign == ""
  {
    if s.expiry.Some? && now >= s.expiry.value then Display("", s.lastRecognitionTime, None)
    else s
  }

  /**
   * The text shown after an accepted frame names exactly one pattern: the
   * first that holds in scan order.
   */
  lemma ShownTextIdentifiesPattern(order: seq<Gesture>, s: Display, now: real, f: Frame)
    requires Accepts(order, s, now, f)
    ensures forall g :: Name(g) == OnFrame(order, s, now, f).currentSign <==> g == order[FirstMatch(order, f).value]
  {
    var shown := order[FirstMatch(order, f).value];
    forall g
      ensures Name(g) == OnFrame(order, s, now, f).currentSign <==> g == shown
    {
      NamesAreDistinct(g, shown);
    }
  }

  /** Construction at t0 followed by a frame less than 0.5 s later changes nothing. */
  lemma NoRecognitionRightAfterConstruction(order: seq<Gesture>, t0: real, now: real, f: Frame)
    requires now < t0 + MinimumTimeBetweenRecognitions
    ensures OnFrame(order, Initial(t0), now, f) == Initial(t0)
    ensures Consistent(Initial(t0))
  {
  }

  // ---------------------------------------------------------------------
  // Runs: sequences of frames and timer ticks
  // ---------------------------------------------------------------------

  datatype Input = FrameArrived(at: real, landmarks: Frame) | ClockTick(at: real)

  function Step(order: seq<Gesture>, s: Display, e: Input): Display
  {
    match e
    case FrameArrived(now, f) => OnFrame(order, s, now, f)
    case ClockTick(now) => OnTick(s, now)
  }

  function Run(order: seq<Gesture>, s: Display, inputs: seq<Input>): Display
    decreases |inputs|
  {
    if inputs == [] then s else Run(order, Step(order, s, inputs[0]), inputs[1..])
  }

  /** The times of the frames accepted during a run, in order. */
  function Acceptances(order: seq<Gesture>, s: Display, inputs: seq<Input>): seq<real>
    decreases |inputs|
  {
    if inputs == [] then []
    else
      var e := inputs[0];
      var here := if e.FrameArrived? && Accepts(order, s, e.at, e.landmarks) then [e.at] else [];
      here + Acceptances(order, Step(order, s, e), inputs[1..])
  }

  /** Every run keeps the display consistent. */
  lemma {:induction false} RunKeepsConsistent(order: seq<Gesture>, s: Display, inputs: seq<Input>)
    requires Consistent(s)
    ensures Consistent(Run(order, s, inputs))
    decreases |inputs|
  {
    if inputs != [] {
      RunKeepsConsistent(order, Step(order, s, inputs[0]), inputs[1..]);
    }
  }

  /**
   * The debounce over a whole run: the first accepted frame comes at least
   * 0.5 s after the last one accepted before the run, and any two
   * consecutively accepted frames are at least 0.5 s apart.
   */
  lemma {:induction false} AcceptancesAreSpacedApart(order: seq<Gesture>, s: Display, inputs: seq<Input>)
    ensures var acc := Acceptances(order, s, inputs);
      && (|acc| > 0 ==> acc[0] - s.lastRecognitionTime >= MinimumTimeBetweenRecognitions)
      && (forall k :: 0 < k < |acc| ==> acc[k] - acc[k - 1] >= MinimumTimeBetweenRecognitions)
    decreases |inputs|
  {
    if inputs != [] {
      var e := inputs[0];
      var s' := Step(order, s, e);
      AcceptancesAreSpacedApart(order, s', inputs[1..]);
      if e.FrameArrived? && Accepts(order, s, e.at, e.landmarks) {
        assert s'.lastRecognitionTime == e.at;
      } else {
        assert s'.lastRecognitionTime == s.lastRecognitionTime;
      }
    }
  }

  /** After a run, the last recognition time is that of the last accepted frame, if there was one. */
  lemma {:induction false} LastRecognitionIsLastAcceptance(order: seq<Gesture>, s: Display, inputs: seq<Input>)
    ensures var acc := Acceptances(order, s, inputs);
      Run(order, s, inputs).lastRecognitionTime == if acc == [] then s.lastRecognitionTime else acc[|acc| - 1]
    decreases |inputs|
  {
    if inputs != [] {
      var e := inputs[0];
      var s' := Step(order, s, e);
      LastRecognitionIsLastAcceptance(order, s', inputs[1..]);
      if !(e.FrameArrived? && Accepts(order, s, e.at, e.landmarks)) {
        assert s'.lastRecognitionTime == s.lastRecognitionTime;
      }
    }
  }

  /**
   * An input that leaves `s` alone: a frame inside the debounce window or
   * matching no pattern, or a tick before the pending dismissal is due.
   */
  predicate Quiet(order: seq<Gesture>, s: Display, e: Input)
  {
    match e
    case FrameArrived(now, f) => !Accepts(order, s, now, f)
    case ClockTick(now) => s.expiry.None? || now < s.expiry.value
  }

  /**
   * No flicker: dropped or unmatched frames and early ticks never change what
   * is shown; only an accepted frame or the dismissal time does.
   */
  lemma {:induction false} QuietInputsKeepDisplay(order: seq<Gesture>, s: Display, inputs: seq<Input>)
    requires forall k :: 0 <= k < |inputs| ==> Quiet(order, s, inputs[k])
    ensures Run(order, s, inputs) == s
    ensures Acceptances(order, s, inputs) == []
    decreases |inputs|
  {
    if inputs != [] {
      assert Quiet(order, s, inputs[0]);
      assert Step(order, s, inputs[0]) == s;
      forall k | 0 <= k < |inputs[1..]|
        ensures Quiet(order, s, inputs[1..][k])
      {
        assert inputs[1..][k] == inputs[k + 1];
      }
      QuietInputsKeepDisplay(order, s, inputs[1..]);
    }
  }

  // ---------------------------------------------------------------------
  // The recogniser object
  // ---------------------------------------------------------------------

  class ASLRecognizer {
    var currentSign: string
    var lastRecognitionTime: real
    /** When the pending dismissal timer fires; None when no timer is pending. */
    var expiry: Option<real>
    /** The iteration order of the pattern dictionary, fixed for this instance. */
    const scanOrder: seq<Gesture>

    function State(): Display
      reads this
    {
      Display(currentSign, lastRecognitionTime, expiry)
    }

    ghost predicate Valid()
      reads this
    {
      IsScanOrder(scanOrder) && Consistent(State())
    }

    /** Created at time `now`, showing nothing. */
    constructor(now: real, order: seq<Gesture>)
      requires IsScanOrder(order)
      ensures Valid() && scanOrder == order
      ensures State() == Initial(now)
    {
      currentSign := "";
      lastRecognitionTime := now;
      expiry := None;
      scanOrder := order;
    }

    /** One recognition call on the landmarks of a frame seen at time `now`. */
    method Recognize(now: real, frame: Frame)
      requires Valid()
      modifies this
      ensures Valid()
      ensures State() == OnFrame(scanOrder, old(State()), now, frame)
      ensures now - old(lastRecognitionTime) < MinimumTimeBetweenRecognitions ==> unchanged(this)
      ensures FirstMatch(scanOrder, frame).None? ==> unchanged(this)
      ensures now - old(lastRecognitionTime) >= MinimumTimeBetweenRecognitions && FirstMatch(scanOrder, frame).Some? ==>
                var i := FirstMatch(scanOrder, frame).value;
                && currentSign == Name(scanOrder[i])
                && lastRecognitionTime == now
                && expiry == Some(now + DisplayDuration)
    {
      if now - lastRecognitionTime < MinimumTimeBetweenRecognitions {
        return;
      }
      var i := 0;
      while i < |scanOrder|
        invariant 0 <= i <= |scanOrder|
        invariant forall j :: 0 <= j < i ==> !Pattern(scanOrder[j], frame)
        invariant unchanged(this)
      {
        var g := scanOrder[i];
        if Pattern(g, frame) {
          assert FirstMatch(scanOrder, frame) == Some(i);
          currentSign := Name(g);
          lastRecognitionTime := now;
          expiry := Some(now + DisplayDuration);
          return;
        }
        i := i + 1;
      }
    }

    /** The clock reaching `now`: fires the dismissal timer when it is due. */
    method Tick(now: real)
      requires Valid()
      modifies this
      ensures Valid()
      ensures State() == OnTick(old(State()), now)
      ensures old(expiry).Some? && now >= old(expiry).value ==>
                currentSign == "" && expiry == None && lastRecognitionTime == old(lastRecognitionTime)
      ensures old(expiry).None? || now < old(expiry).value ==> unchanged(this)
    {
      if expiry.Some? && now >= expiry.value {
        currentSign := "";
        expiry := None;
      }
    }
  }
}
