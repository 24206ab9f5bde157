# AslApp sign rules and recogniser, modelled in Dafny

AslApp is a macOS app that reads hand-pose landmarks from the Vision framework
and turns them into American Sign Language labels. This project models its
decision core:

- **The sign rule tables** of `SignConfigurations` (common phrases HELLO … I LOVE
  YOU, the digits 0-9, the letters A-C) and the `gesturePatterns` table of
  `ASLRecognizer` (letters A-D). Each rule is a predicate over a sparse landmark
  frame, `map<Joint, Point>` with `real` coordinates. A rule first requires the
  joints it reads and is false if one is missing; then it compares
  y-extensions, x-spreads and absolute differences against fixed thresholds,
  kept with the source's constants and strict comparisons. The two tables
  define A, B and C differently and are kept as two separate rule sets
  (`SignConfigurations` and `GestureRecognition`).
- **The recogniser** `ASLRecognizer.recognizeGesture`: it ignores a call made
  less than 0.5 s after the last accepted recognition (at exactly 0.5 s it
  proceeds), scans the patterns and takes the first that holds, shows its
  name, records the time, and replaces the dismissal timer with one that clears
  the sign 2.0 s later. It is a class with the fields `currentSign`,
  `lastRecognitionTime` and `expiry` (the pending dismissal time, standing for
  the `Timer`). `Recognize(now, frame)` is the recognition call and
  `Tick(now)` is the timer firing. Time is passed in as `now`.

Swift does not specify a dictionary's iteration order, so the scan order of
the pattern table is a constructor argument (`scanOrder`): any order that lists
each pattern once. The scan is proved to return the first match in that order.
`ScanOrderDecidesOverlap` shows that the order matters. Patterns A and C can
both hold on one frame, and then the app shows whichever of the two its
dictionary visits first.

Coordinates are Vision's normalised ones, passed on unchanged, so a larger y
is higher in the frame. Frames are assumed to hold only joints whose
confidence exceeded 0.3, which the hand tracker's filter guarantees.

The value-level functions `OnFrame` and `OnTick` describe one recognition call
and one timer tick. `Run` folds them over a sequence of inputs. The class
methods are proved to update the fields exactly as these functions say, and
the lemmas about runs carry the timing properties over to sequences of calls.

Files: `wrappers.dfy` (Option), `landmarks.dfy` (joints, points, frames),
`sign_configurations.dfy` (the three rule tables and their relations),
`gesture_recognition.dfy` (the pattern table, the scan, the display state
machine and the recogniser class).

## Model

| member | source | states |
|---|---|---|
| SignConfigurations.IsHello | AslApp/SignConfigurations.swift:7-19 | HELLO: index tip more than 0.15 above the index MCP and thumb tip within 0.1 vertically of the index tip; false whenever thumbTip, indexTip or indexMCP is missing |
| SignConfigurations.IsThankYou | AslApp/SignConfigurations.swift:21-33 | THANK YOU: index tip above the thumb tip and more than 0.15 above the index MCP; false whenever one of its three joints is missing |
| SignConfigurations.IsPlease | AslApp/SignConfigurations.swift:35-44 | PLEASE: thumb and index tips within 0.1 vertically; false without thumbTip or indexTip |
| SignConfigurations.IsYes | AslApp/SignConfigurations.swift:46-55 | YES: index tip below the index MCP; false without indexTip or indexMCP |
| SignConfigurations.IsNo | AslApp/SignConfigurations.swift:57-66 | NO: index tip more than 0.1 horizontally from its MCP; false without indexTip or indexMCP |
| SignConfigurations.IsILoveYou | AslApp/SignConfigurations.swift:68-82 | I LOVE YOU: thumb tip left of the index MCP, index and little tips above it; false whenever one of its four joints is missing |
| SignConfigurations.IsZero | AslApp/SignConfigurations.swift:87-98 | "0": thumb and index tips closer than 0.05 on both axes; false without either tip |
| SignConfigurations.IsOne | AslApp/SignConfigurations.swift:100-116 | "1": index more than 0.15 above the index MCP, middle, ring and little tips below it; false whenever one of its five joints is missing |
| SignConfigurations.IsTwo | AslApp/SignConfigurations.swift:118-135 | "2": index and middle more than 0.15 up and more than 0.1 apart, ring and little below the index MCP; false whenever one of its joints is missing |
| SignConfigurations.IsThree | AslApp/SignConfigurations.swift:137-153 | "3": index, middle, ring more than 0.15 up, little below the index MCP; false whenever one of its joints is missing |
| SignConfigurations.IsFour | AslApp/SignConfigurations.swift:155-171 | "4": all four finger tips more than 0.15 above the index MCP; false whenever one of its joints is missing |
| SignConfigurations.IsFive | AslApp/SignConfigurations.swift:173-193 | "5": the four fingers up as for "4", thumb tip above the index MCP, index and little more than 0.2 apart; false whenever one of its six joints is missing |
| SignConfigurations.IsSix | AslApp/SignConfigurations.swift:195-207 | "6": thumb left of the index MCP, little tip below it; false whenever one of its joints is missing |
| SignConfigurations.IsSeven | AslApp/SignConfigurations.swift:209-223 | "7": thumb and index tips above the index MCP, ring tip below; false whenever one of its joints is missing |
| SignConfigurations.IsEight | AslApp/SignConfigurations.swift:225-238 | "8": thumb within 0.1 horizontally of the middle tip, index tip above its MCP; false whenever one of its joints is missing |
| SignConfigurations.IsNine | AslApp/SignConfigurations.swift:240-252 | "9": index tip below its MCP, thumb left of it; false whenever one of its joints is missing |
| SignConfigurations.IsLetterA | AslApp/SignConfigurations.swift:257-279 | letter A: every finger tip below its own MCP, thumb tip more than 0.05 sideways from the thumb IP; false whenever one of its ten joints is missing |
| SignConfigurations.IsLetterB | AslApp/SignConfigurations.swift:281-305 | letter B: every finger tip more than 0.1 above its own MCP, index and little less than 0.15 apart, thumb right of the index MCP; false whenever one of its nine joints is missing |
| SignConfigurations.IsLetterC | AslApp/SignConfigurations.swift:307-323 | letter C: neighbouring tips level within 0.1, thumb within 0.2 horizontally of the little tip; false whenever one of its five joints is missing |
| SignConfigurations.KeysAreDistinct | AslApp/SignConfigurations.swift:6-326 | the keys of each of the three tables are distinct, so each key names one rule |
| SignConfigurations.MissingJointIsNonMatch | AslApp/SignConfigurations.swift:6-326 | a missing joint makes every rule that needs it false, in all three tables; absence is a non-match, not an error |
| SignConfigurations.EmptyFrameMatchesNothing | AslApp/SignConfigurations.swift:6-326 | a frame with no confident joint matches no phrase, number or letter |
| SignConfigurations.OneScenario | AslApp/SignConfigurations.swift:100-116 | an index tip 0.2 above the index MCP with the other three tips below it is "1", at any hand position |
| SignConfigurations.OneAndTwoAreDisjoint | AslApp/SignConfigurations.swift:100-135 | no frame is both "1" and "2" |
| SignConfigurations.ThreeAndFourAreDisjoint | AslApp/SignConfigurations.swift:137-171 | no frame is both "3" and "4" |
| SignConfigurations.FiveImpliesFour | AslApp/SignConfigurations.swift:155-193 | every "5" frame is also a "4" frame |
| SignConfigurations.ZeroImpliesPlease | AslApp/SignConfigurations.swift:35-98 | every "0" frame is also a PLEASE frame |
| SignConfigurations.YesExcludesHelloAndThankYou | AslApp/SignConfigurations.swift:7-55 | a YES frame is neither HELLO nor THANK YOU |
| SignConfigurations.LetterAAndBAreDisjoint | AslApp/SignConfigurations.swift:257-305 | no frame is both letter A and letter B |
| GestureRecognition.Name | AslApp/ASLRecognizer.swift:13-58 | the text shown for a pattern is its dictionary key, never the empty "no sign" string |
| GestureRecognition.NamesAreDistinct | AslApp/ASLRecognizer.swift:13-58 | distinct patterns have distinct keys |
| GestureRecognition.PatternA | AslApp/ASLRecognizer.swift:14-23 | A: thumb tip above the index tip, index and middle within 0.1, index below the wrist; false whenever one of its four joints is missing |
| GestureRecognition.PatternB | AslApp/ASLRecognizer.swift:25-36 | B: index more than 0.2 above the wrist, neighbouring tips within 0.1; false whenever one of its five joints is missing |
| GestureRecognition.PatternC | AslApp/ASLRecognizer.swift:38-47 | C: thumb-index spread strictly between 0.1 and 0.3, index and middle within 0.1; false whenever one of its four joints, the unused wrist included, is missing |
| GestureRecognition.PatternD | AslApp/ASLRecognizer.swift:49-58 | D: index tip above the wrist and its DIP, middle tip below the wrist; false whenever one of its joints is missing |
| GestureRecognition.PatternAExcludesBAndD | AslApp/ASLRecognizer.swift:14-58 | a frame matching A matches neither B nor D |
| GestureRecognition.PatternBExcludesD | AslApp/ASLRecognizer.swift:25-58 | no frame matches both B and D |
| GestureRecognition.PatternCWindow | AslApp/ASLRecognizer.swift:38-47 | C implies an open window 0.1 < spread < 0.3, and C is false without the wrist |
| GestureRecognition.FirstMatch | AslApp/ASLRecognizer.swift:69-85 | the scan returns the position of a pattern that holds and before which none holds, or none when no pattern holds |
| GestureRecognition.EmptyFrameMatchesNothing | AslApp/ASLRecognizer.swift:69-85 | a frame without confident joints matches no pattern in any order |
| GestureRecognition.ScanOrderDecidesOverlap | AslApp/ASLRecognizer.swift:69-70 | some frame satisfies both A and C; on it the recognised letter is whichever of A and C the dictionary order visits first |
| GestureRecognition.OnFrame | AslApp/ASLRecognizer.swift:65-86 | a call inside 0.5 s of the last acceptance or without a match leaves the state alone; otherwise the first matching pattern is shown, the time recorded, the dismissal moved to now + 2.0; consistency is kept |
| GestureRecognition.OnTick | AslApp/ASLRecognizer.swift:76-81 | once the dismissal time is reached the sign is cleared and the timer is gone; with no timer or before its time the state is unchanged; afterwards any pending dismissal lies in the future |
| GestureRecognition.ShownTextIdentifiesPattern | AslApp/ASLRecognizer.swift:69-72 | after an accepted frame, the shown text is the name of exactly one pattern, the first that holds in scan order |
| GestureRecognition.NoRecognitionRightAfterConstruction | AslApp/ASLRecognizer.swift:7-8 | the recogniser starts with no sign, and no frame is accepted within 0.5 s of construction |
| GestureRecognition.RunKeepsConsistent | AslApp/ASLRecognizer.swift:65-86 | along any sequence of frames and ticks, a sign is shown exactly while a dismissal is pending, due 2.0 s after the last acceptance |
| GestureRecognition.AcceptancesAreSpacedApart | AslApp/ASLRecognizer.swift:67-73 | along any sequence of inputs, accepted frames are at least 0.5 s apart, and the first at least 0.5 s after the previous acceptance |
| GestureRecognition.LastRecognitionIsLastAcceptance | AslApp/ASLRecognizer.swift:67-73 | after any sequence of inputs the recorded recognition time is that of the last accepted frame |
| GestureRecognition.QuietInputsKeepDisplay | AslApp/ASLRecognizer.swift:65-86 | frames that are debounced or match nothing and ticks before the dismissal time never change the state: a dropped frame does not clear the sign |
| GestureRecognition.ASLRecognizer.constructor | AslApp/ASLRecognizer.swift:7-9 | starts showing "", with the construction time as last recognition and no timer |
| GestureRecognition.ASLRecognizer.Recognize | AslApp/ASLRecognizer.swift:65-86 | debounced or unmatched calls change no field; otherwise the first match in scan order is shown, lastRecognitionTime becomes now and the dismissal now + 2.0, replacing the old one |
| GestureRecognition.ASLRecognizer.Tick | AslApp/ASLRecognizer.swift:76-81 | at or after the dismissal time the sign becomes "" and the timer is dropped; before it nothing changes |

## Left out

- Rule predicates (`SignConfigurations.Is…`, `GestureRecognition.Pattern…`): their ensures clauses state only the missing-joint guard. The thresholds are the predicate bodies, copied as written, and the relations between rules are the separate lemmas above.
- The `DispatchQueue.main.async` hop in `recognizeGesture`: the model applies the update immediately. In the app, calls made before the queued block runs still see the old `lastRecognitionTime`, and the timer starts when the block runs rather than at `now`.
- The `Timer` itself: `Tick(now)` stands for its firing, and the caller is assumed to deliver ticks. A frame that arrives after the dismissal time but before a tick sees the sign still shown.
- Floating point: coordinates and times are exact reals. The rules only compare against constants, so rounding is not modelled.
- Camera discovery and capture, the Vision hand-pose request and its 0.3 confidence filter (`AslApp/HandTracker.swift`), and all SwiftUI rendering: these are I/O and foreign library calls. Frames are taken as already filtered.
- The `SignConfigurations` tables have no caller in the app, so no scan over them is modelled. Only the recogniser's own pattern table is scanned.
- The two timing constants are fixed at 0.5 s and 2.0 s, as the source's `let` properties are; they are not configurable.
- The rule tables are kept as separate rule sets, as the source has them. They are not unified into one canonical table.
- The unused `CoreML` import has no counterpart.
