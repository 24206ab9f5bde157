/**
 * The three hand-authored rule tables of SignConfigurations: common phrases,
 * the digits 0-9 and the letters A-C. Each entry is a stateless predicate over
 * one landmark frame. It first requires every joint it reads to be present
 * (a missing joint makes the rule false, never an error) and then compares
 * y-extensions, x-spreads and absolute differences against fixed thresholds.
 *
 * The letters here are a separate rule set from the gesture patterns of the
 * recogniser (module GestureRecognition), which defines A, B and C differently.
 */
module SignConfigurations {

  import opened Landmarks

  // ---------------------------------------------------------------------
  // Labels: the dictionary keys of the three tables
  // ---------------------------------------------------------------------

  datatype Phrase = Hello | ThankYou | Please | Yes | No | ILoveYou

  datatype Number = Zero | One | Two | Three | Four | Five | Six | Seven | Eight | Nine

  datatype Letter = A | B | C

  function PhraseName(p: Phrase): string
  {
    match p
    case Hello => "HELLO"
    case ThankYou => "THANK YOU"
    case Please => "PLEASE"
    case Yes => "YES"
    case No => "NO"
    case ILoveYou => "I LOVE YOU"
  }

  function NumberName(n: Number): string
  {
    match n
    case Zero => "0"
    case One => "1"
    case Two => "2"
    case Three => "3"
    case Four => "4"
    case Five => "5"
    case Six => "6"
    case Seven => "7"
    case Eight => "8"
    case Nine => "9"
  }

  function LetterName(l: Letter): string
  {
    match l
    case A => "A"
    case B => "B"
    case C => "C"
  }

  /** The keys of each table are distinct, so a key names exactly one rule. */
  lemma KeysAreDistinct(p: Phrase, q: Phrase, m: Number, n: Number, k: Letter, l: Letter)
    ensures PhraseName(p) == PhraseName(q) ==> p == q
    ensures NumberName(m) == NumberName(n) ==> m == n
    ensures LetterName(k) == LetterName(l) ==> k == l
  {
  }

  // ---------------------------------------------------------------------
  // The joints each rule needs (its guard list)
  // ---------------------------------------------------------------------

  function PhraseJoints(p: Phrase): set<Joint>
  {
    match p
    case Hello => {ThumbTip, IndexTip, IndexMCP}
    case ThankYou => {ThumbTip, IndexTip, IndexMCP}
    case Please => {ThumbTip, IndexTip}
    case Yes => {IndexTip, IndexMCP}
    case No => {IndexTip, IndexMCP}
    case ILoveYou => {ThumbTip, IndexTip, LittleTip, IndexMCP}
  }

  function NumberJoints(n: Number): set<Joint>
  {
    match n
    case Zero => {ThumbTip, IndexTip}
    case One => {IndexTip, IndexMCP, MiddleTip, RingTip, LittleTip}
    case Two => {IndexTip, MiddleTip, IndexMCP, RingTip, LittleTip}
    case Three => {IndexTip, MiddleTip, RingTip, IndexMCP, LittleTip}
    case Four => {IndexTip, MiddleTip, RingTip, LittleTip, IndexMCP}
    case Five => {IndexTip, MiddleTip, RingTip, LittleTip, ThumbTip, IndexMCP}
    case Six => {ThumbTip, LittleTip, IndexMCP}
    case Seven => {ThumbTip, IndexTip, RingTip, IndexMCP}
    case Eight => {ThumbTip, IndexTip, MiddleTip, IndexMCP}
    case Nine => {IndexTip, IndexMCP, ThumbTip}
  }

  function LetterJoints(l: Letter): set<Joint>
  {
    match l
    case A => {ThumbTip, ThumbIP, IndexTip, IndexMCP, MiddleTip, MiddleMCP, RingTip, RingMCP, LittleTip, LittleMCP}
    case B => {ThumbTip, IndexTip, IndexMCP, MiddleTip, MiddleMCP, RingTip, RingMCP, LittleTip, LittleMCP}
    case C => {ThumbTip, IndexTip, MiddleTip, RingTip, LittleTip}
  }

  // ---------------------------------------------------------------------
  // Common phrases
  // ---------------------------------------------------------------------

  /** Flat hand: index extended more than 0.15 above its MCP, thumb level with the index tip. */
  predicate IsHello(f: Frame)
    ensures IsHello(f) ==> PhraseJoints(Hello) <= f.Keys
  {
    && ThumbTip in f && IndexTip in f && IndexMCP in f
    && f[IndexTip].y > f[IndexMCP].y + 0.15
    && Abs(f[ThumbTip].y - f[IndexTip].y) < 0.1
  }

  /** Index tip above the thumb tip and more than 0.15 above the index MCP. */
  predicate IsThankYou(f: Frame)
    ensures IsThankYou(f) ==> PhraseJoints(ThankYou) <= f.Keys
  {
    && ThumbTip in f && IndexTip in f && IndexMCP in f
    && f[IndexTip].y > f[ThumbTip].y
    && f[IndexTip].y > f[IndexMCP].y + 0.15
  }

  /** Thumb tip and index tip within 0.1 of each other vertically. */
  predicate IsPlease(f: Frame)
    ensures IsPlease(f) ==> PhraseJoints(Please) <= f.Keys
  {
    && ThumbTip in f && IndexTip in f
    && Abs(f[ThumbTip].y - f[IndexTip].y) < 0.1
  }

  /** Fist: index tip below its MCP. */
  predicate IsYes(f: Frame)
    ensures IsYes(f) ==> PhraseJoints(Yes) <= f.Keys
  {
    && IndexTip in f && IndexMCP in f
    && f[IndexTip].y < f[IndexMCP].y
  }

  /** Index finger pointing sideways: more than 0.1 horizontally away from its MCP. */
  predicate IsNo(f: Frame)
    ensures IsNo(f) ==> PhraseJoints(No) <= f.Keys
  {
    && IndexTip in f && IndexMCP in f
    && Abs(f[IndexTip].x - f[IndexMCP].x) > 0.1
  }

  /** Thumb left of the index MCP, index and little tips above it. */
  predicate IsILoveYou(f: Frame)
    ensures IsILoveYou(f) ==> PhraseJoints(ILoveYou) <= f.Keys
  {
    && ThumbTip in f && IndexTip in f && LittleTip in f && IndexMCP in f
    && f[ThumbTip].x < f[IndexMCP].x
    && f[IndexTip].y > f[IndexMCP].y
    && f[LittleTip].y > f[IndexMCP].y
  }

  /** The phrase table looked up by key. */
  predicate PhraseHolds(p: Phrase, f: Frame)
  {
    match p
    case Hello => IsHello(f)
    case ThankYou => IsThankYou(f)
    case Please => IsPlease(f)
    case Yes => IsYes(f)
    case No => IsNo(f)
    case ILoveYou => IsILoveYou(f)
  }

  // ---------------------------------------------------------------------
  // Numbers 0-9
  // ---------------------------------------------------------------------

  /** Thumb tip and index tip closer than 0.05 on both axes (an "O"). */
  predicate IsZero(f: Frame)
    ensures IsZero(f) ==> NumberJoints(Zero) <= f.Keys
  {
    && ThumbTip in f && IndexTip in f
    && Abs(f[ThumbTip].x - f[IndexTip].x) < 0.05
    && Abs(f[ThumbTip].y - f[IndexTip].y) < 0.05
  }

  /** Index more than 0.15 above the index MCP, middle, ring and little tips below it. */
  predicate IsOne(f: Frame)
    ensures IsOne(f) ==> NumberJoints(One) <= f.Keys
  {
    && IndexTip in f && IndexMCP in f && MiddleTip in f && RingTip in f && LittleTip in f
    && f[IndexTip].y > f[IndexMCP].y + 0.15
    && f[MiddleTip].y < f[IndexMCP].y
    && f[RingTip].y < f[IndexMCP].y
    && f[LittleTip].y < f[IndexMCP].y
  }

  /** Index and middle up and spread more than 0.1 apart, ring and little down. */
  predicate IsTwo(f: Frame)
    ensures IsTwo(f) ==> NumberJoints(Two) <= f.Keys
  {
    && IndexTip in f && MiddleTip in f && IndexMCP in f && RingTip in f && LittleTip in f
    && f[IndexTip].y > f[IndexMCP].y + 0.15
    && f[MiddleTip].y > f[IndexMCP].y + 0.15
    && Abs(f[IndexTip].x - f[MiddleTip].x) > 0.1
    && f[RingTip].y < f[IndexMCP].y
    && f[LittleTip].y < f[IndexMCP].y
  }

  /** Index, middle and ring up, little down. */
  predicate IsThree(f: Frame)
    ensures IsThree(f) ==> NumberJoints(Three) <= f.Keys
  {
    && IndexTip in f && MiddleTip in f && RingTip in f && IndexMCP in f && LittleTip in f
    && f[IndexTip].y > f[IndexMCP].y + 0.15
    && f[MiddleTip].y > f[IndexMCP].y + 0.15
    && f[RingTip].y > f[IndexMCP].y + 0.15
    && f[LittleTip].y < f[IndexMCP].y
  }

  /** All four fingers more than 0.15 above the index MCP. */
  predicate IsFour(f: Frame)
    ensures IsFour(f) ==> NumberJoints(Four) <= f.Keys
  {
    && IndexTip in f && MiddleTip in f && RingTip in f && LittleTip in f && IndexMCP in f
    && f[IndexTip].y > f[IndexMCP].y + 0.15
    && f[MiddleTip].y > f[IndexMCP].y + 0.15
    && f[RingTip].y > f[IndexMCP].y + 0.15
    && f[LittleTip].y > f[IndexMCP].y + 0.15
  }

  /** The four fingers up as for "4", thumb above the index MCP, index and little more than 0.2 apart. */
  predicate IsFive(f: Frame)
    ensures IsFive(f) ==> NumberJoints(Five) <= f.Keys
  {
    && IndexTip in f && MiddleTip in f && RingTip in f && LittleTip in f && ThumbTip in f && IndexMCP in f
    && f[IndexTip].y > f[IndexMCP].y + 0.15
    && f[MiddleTip].y > f[IndexMCP].y + 0.15
    && f[RingTip].y > f[IndexMCP].y + 0.15
    && f[LittleTip].y > f[IndexMCP].y + 0.15
    && f[ThumbTip].y > f[IndexMCP].y
    && Abs(f[IndexTip].x - f[LittleTip].x) > 0.2
  }

  /** Thumb left of the index MCP, little tip below it. */
  predicate IsSix(f: Frame)
    ensures IsSix(f) ==> NumberJoints(Six) <= f.Keys
  {
    && ThumbTip in f && LittleTip in f && IndexMCP in f
    && f[ThumbTip].x < f[IndexMCP].x
    && f[LittleTip].y < f[IndexMCP].y
  }

  /** Thumb and index tips above the index MCP, ring tip below it. */
  predicate IsSeven(f: Frame)
    ensures IsSeven(f) ==> NumberJoints(Seven) <= f.Keys
  {
    && ThumbTip in f && IndexTip in f && RingTip in f && IndexMCP in f
    && f[ThumbTip].y > f[IndexMCP].y
    && f[IndexTip].y > f[IndexMCP].y
    && f[RingTip].y < f[IndexMCP].y
  }

  /** Thumb tip within 0.1 horizontally of the middle tip, index tip above the index MCP. */
  predicate IsEight(f: Frame)
    ensures IsEight(f) ==> NumberJoints(Eight) <= f.Keys
  {
    && ThumbTip in f && IndexTip in f && MiddleTip in f && IndexMCP in f
    && Abs(f[ThumbTip].x - f[MiddleTip].x) < 0.1
    && f[IndexTip].y > f[IndexMCP].y
  }

  /** Index tip below its MCP, thumb left of the index MCP. */
  predicate IsNine(f: Frame)
    ensures IsNine(f) ==> NumberJoints(Nine) <= f.Keys
  {
    && IndexTip in f && IndexMCP in f && ThumbTip in f
    && f[IndexTip].y < f[IndexMCP].y
    && f[ThumbTip].x < f[IndexMCP].x
  }

  /** The number table looked up by key. */
  predicate NumberHolds(n: Number, f: Frame)
  {
    match n
    case Zero => IsZero(f)
    case One => IsOne(f)
    case Two => IsTwo(f)
    case Three => IsThree(f)
    case Four => IsFour(f)
    case Five => IsFive(f)
    case Six => IsSix(f)
    case Seven => IsSeven(f)
    case Eight => IsEight(f)
    case Nine => IsNine(f)
  }

  // ---------------------------------------------------------------------
  // Letters A-C
  // ---------------------------------------------------------------------

  /** Every finger tip below its own MCP, thumb tip more than 0.05 sideways from the thumb IP. */
  predicate IsLetterA(f: Frame)
    ensures IsLetterA(f) ==> LetterJoints(A) <= f.Keys
  {
    && ThumbTip in f && ThumbIP in f
    && IndexTip in f && IndexMCP in f && MiddleTip in f && MiddleMCP in f
    && RingTip in f && RingMCP in f && LittleTip in f && LittleMCP in f
    && f[IndexTip].y < f[IndexMCP].y
    && f[MiddleTip].y < f[MiddleMCP].y
    && f[RingTip].y < f[RingMCP].y
    && f[LittleTip].y < f[LittleMCP].y
    && Abs(f[ThumbTip].x - f[ThumbIP].x) > 0.05
  }

  /**
   * Every finger tip more than 0.1 above its own MCP, index and little tips
   * less than 0.15 apart, thumb tip right of the index MCP.
   */
  predicate IsLetterB(f: Frame)
    ensures IsLetterB(f) ==> LetterJoints(B) <= f.Keys
  {
    && ThumbTip in f
    && IndexTip in f && IndexMCP in f && MiddleTip in f && MiddleMCP in f
    && RingTip in f && RingMCP in f && LittleTip in f && LittleMCP in f
    && f[IndexTip].y > f[IndexMCP].y + 0.1
    && f[MiddleTip].y > f[MiddleMCP].y + 0.1
    && f[RingTip].y > f[RingMCP].y + 0.1
    && f[LittleTip].y > f[LittleMCP].y + 0.1
    && Abs(f[IndexTip].x - f[LittleTip].x) < 0.15
    && f[ThumbTip].x > f[IndexMCP].x
  }

  /** Neighbouring finger tips level within 0.1, thumb tip within 0.2 horizontally of the little tip. */
  predicate IsLetterC(f: Frame)
    ensures IsLetterC(f) ==> LetterJoints(C) <= f.Keys
  {
    && ThumbTip in f && IndexTip in f && MiddleTip in f && RingTip in f && LittleTip in f
    && Abs(f[IndexTip].y - f[MiddleTip].y) < 0.1
    && Abs(f[MiddleTip].y - f[RingTip].y) < 0.1
    && Abs(f[RingTip].y - f[LittleTip].y) < 0.1
    && Abs(f[ThumbTip].x - f[LittleTip].x) < 0.2
  }

  /** The letter table looked up by key. */
  predicate LetterHolds(l: Letter, f: Frame)
  {
    match l
    case A => IsLetterA(f)
    case B => IsLetterB(f)
    case C => IsLetterC(f)
  }

  // ---------------------------------------------------------------------
  // Properties of the tables
  // ---------------------------------------------------------------------

  /** A rule never holds on a frame that lacks one of the joints it reads. */
  lemma MissingJointIsNonMatch(f: Frame, j: Joint)
    requires j !in f
    ensures forall p :: j in PhraseJoints(p) ==> !PhraseHolds(p, f)
    ensures forall n :: j in NumberJoints(n) ==> !NumberHolds(n, f)
    ensures forall l :: j in LetterJoints(l) ==> !LetterHolds(l, f)
  {
  }

  /** A frame without any confident joint matches no entry of any table. */
  lemma EmptyFrameMatchesNothing()
    ensures forall p :: !PhraseHolds(p, map[])
    ensures forall n :: !NumberHolds(n, map[])
    ensures forall l :: !LetterHolds(l, map[])
  {
  }

  /**
   * An index tip 0.2 above the index MCP, with the middle, ring and little tips
   * below the MCP, is the digit 1, wherever the hand is.
   */
  lemma OneScenario(x: real, y: real, below: real)
    requires 0.0 < below
    ensures IsOne(map[IndexMCP := Point(x, y), IndexTip := Point(x, y + 0.2),
                     MiddleTip := Point(x, y - below), RingTip := Point(x, y - below),
                     LittleTip := Point(x, y - below)])
  {
  }

  /** "1" needs the middle tip below the index MCP, "2" needs it more than 0.15 above. */
  lemma OneAndTwoAreDisjoint(f: Frame)
    ensures !(IsOne(f) && IsTwo(f))
  {
  }

  /** "3" needs the little tip below the index MCP, "4" needs it more than 0.15 above. */
  lemma ThreeAndFourAreDisjoint(f: Frame)
    ensures !(IsThree(f) && IsFour(f))
  {
  }

  /** "5" repeats the four-finger extension test of "4" and adds to it. */
  lemma FiveImpliesFour(f: Frame)
    ensures IsFive(f) ==> IsFour(f)
  {
  }

  /** A thumb-index distance under 0.05 vertically is also under 0.1. */
  lemma ZeroImpliesPlease(f: Frame)
    ensures IsZero(f) ==> IsPlease(f)
  {
  }

  /** "YES" needs the index tip below its MCP, "HELLO" and "THANK YOU" more than 0.15 above. */
  lemma YesExcludesHelloAndThankYou(f: Frame)
    ensures IsYes(f) ==> !IsHello(f) && !IsThankYou(f)
  {
  }

  /** Letter A closes every finger below its MCP, letter B extends every finger above it. */
  lemma LetterAAndBAreDisjoint(f: Frame)
    ensures !(IsLetterA(f) && IsLetterB(f))
  {
  }
}
