# VoiceLink core in Dafny

VoiceLink is an augmentative and alternative communication (AAC) web
application. A user taps phrase tiles, types, or signs with their hand in front
of the camera; the application speaks the result in English or Hindi with a
voice matched to the user's chosen persona, and keeps a short conversation log
with a communication partner. This project models the behaviour of that
application's core and proves properties about it:

- **Voice arbitration and speech coordination** (`services/speechService.ts`).
  This covers the keyword scoring of platform voices, the strict language filter
  with its Hindi-name fallback, and the stable choice of the first best-scoring
  voice. It also covers the manual voice override checked against the requested
  language, and the `cancel`-then-`speak` order of engine calls. The service is
  the class `SpeechService.SpeechService`.
- **Sign camera recognition** (`components/SignLanguageCamera.tsx`).
  - `HandGestures` has the heuristic hand-shape detector (Rock, Call_Me,
    OK_Sign, compared on squared distances) and the per-frame label gate.
  - `GestureStabilizer` has the stabiliser that speaks a gesture only after a
    400 ms hold and at most once per 2000 ms for each label. It appears twice:
    as pure step functions over frame runs, and as the class
    `GestureStabilizer.GestureHandler`, whose fields are the component's refs.
- **Application shell** (`App.tsx`, module `App`): the conversation log capped
  at 16 messages, the move-to-front recents list capped at 12, onboarding
  completion, the header language toggle, and the latest partner message.
- **Onboarding wizard** (`components/LandingPage.tsx`, class
  `LandingPage.LandingPage`): the three-step state machine and its Next-button
  disabled test.
- **Settings panel** (`components/SettingsPanel.tsx`, module `SettingsPanel`):
  the voice picker's filter and the single-field settings update behind every
  control.

`Types` holds the shared records of `types.ts`. `Text` holds the JavaScript
string operations the code relies on (`toLowerCase`, `startsWith`,
`includes`, `split('-')[0]`, `trim`). `Seqs` holds the array operations
(`filter`, `slice(-n)`, `slice(0, n)`) with their facts about order and
membership.

Things the model makes explicit:

- **Overlapping keywords.** The name "female" contains "male", so a voice
  named "... Female" matches both persona keyword lists. Its +50 and -50 cancel
  for either persona (`SpeechService.FemaleNameMatchesBothPersonas`).
- **Latin "hindi" only.** The Hindi weights look for Latin keywords only: the
  Devanagari word "हिंदी" itself earns none of them, though other words of the
  same name still can.
- **Scores of a Hindi female request.** For a Hindi female request over
  "Google हिंदी Female" and "Generic Hindi", the code scores the first 30: +30
  for "google", +50 and -50 for the two persona lists, and no Hindi weight,
  because the name carries no Latin "hindi". It scores the second 10, for
  "hindi". So the Google voice is chosen, with a score of 30 rather than the
  100 + 50 + 30 one might expect. This example is not proved.
- **Overrides in the wrong language.** An overriding voice whose language does
  not fit the request is dropped, and automatic selection takes over
  (`SpeechService.OverrideIgnored`).
- **Empty voice URI.** An empty stored voice URI counts as no override, as in
  JavaScript where the empty string is false.

## Model

| member | source | states |
|---|---|---|
| Types.LanguageTag | types.ts:1-4 | definition only, no contract: English stands for "en-US" and Hindi for "hi-IN" |
| Text.StartsWith | services/speechService.ts:63 | definition only, no contract: `startsWith` holds when the prefix is no longer than the string and equals its first characters |
| Text.Contains | services/speechService.ts:97 | definition only, no contract: `includes` holds when the string starts with the piece or its tail contains it; ContainsAt shows any occurrence at an offset counts |
| Text.IsJsWhitespace | components/LandingPage.tsx:16 | definition only, no contract: the WhiteSpace and LineTerminator characters that `trim()` removes |
| Text.ToLower | services/speechService.ts:104 | the lower-cased name has the same length and each character is the lower-case form of the original one |
| Text.PrimarySubtag | services/speechService.ts:87 | `split('-')[0]` is a prefix of the tag without a hyphen, followed in the tag by a hyphen or the end |
| Text.TrimStart | components/LandingPage.tsx:16 | the result is a suffix of the input and everything removed is whitespace; it is empty exactly when the input is all whitespace, and otherwise starts with a non-whitespace character |
| Text.TrimEnd | components/LandingPage.tsx:16 | the result is a prefix of the input and everything removed is whitespace; it is empty exactly when the input is all whitespace, and otherwise ends with a non-whitespace character |
| Text.Trim | components/LandingPage.tsx:16 | `name.trim()` is empty (false) exactly when the name is all ECMAScript whitespace; otherwise neither end is whitespace |
| Seqs.Filter | services/speechService.ts:90-92 | `filter` keeps exactly the elements that pass the test, as a subsequence in their original order |
| Seqs.FilterCounts | services/speechService.ts:90-92 | each element that passes the test occurs in the result as often as in the input, and no other element occurs |
| Seqs.FilterAppend | App.tsx:86 | filtering a concatenation is the concatenation of the two filtered parts |
| Seqs.FilterLast | App.tsx:86 | the last element `filter` keeps is an element that passes the test, and no later element does |
| Seqs.LastN | App.tsx:65 | `slice(-n)` for a positive n is the last min(n, length) elements |
| Seqs.Take | App.tsx:69 | `slice(0, n)` is the first min(n, length) elements |
| SpeechService.LangCode | services/speechService.ts:87 | the language code of English is "en" and of Hindi is "hi" |
| SpeechService.LangMatches | services/speechService.ts:90-92 | a voice fits the request when its lower-cased tag starts with the language code |
| SpeechService.NameMentionsHindi | services/speechService.ts:97 | the fallback accepts a voice whose lower-cased name contains "hindi" |
| SpeechService.ContainsAny | services/speechService.ts:114-115 | definition only, no contract: `keywords.some(k => name.includes(k))` |
| SpeechService.GenderScore | services/speechService.ts:108-115 | the gender weight is -50, 0 or 50; it is 0 exactly when both keyword lists or neither match the name, and positive exactly when only the requested persona's list matches |
| SpeechService.GenderScoreMirror | services/speechService.ts:108-115 | the male and female personas give every name opposite gender weights |
| SpeechService.QualityScore | services/speechService.ts:118-120 | the vendor and quality weights add between 0 and 75 |
| SpeechService.HindiScore | services/speechService.ts:125-137 | the Hindi weights add between 0 and 270, and add nothing exactly when the name carries no Hindi keyword |
| SpeechService.ScoreVoice | services/speechService.ts:102-140 | a voice scores between -50 and 125, or up to 395 for a Hindi request |
| SpeechService.PersonaDifference | services/speechService.ts:111-115 | switching persona from female to male changes the score by +100 if only male keywords match, -100 if only female ones match, and 0 otherwise |
| SpeechService.FemaleNameMatchesBothPersonas | services/speechService.ts:108-115 | a name containing "female" also contains "male", so it matches both keyword lists and scores the same for both personas |
| SpeechService.HindiBonusOnlyForHindiNames | services/speechService.ts:125-137 | a Hindi request never scores lower than an English one, and scores the same exactly when the name has no Hindi keyword |
| SpeechService.Candidates | services/speechService.ts:87-98 | the strict candidates are exactly the voices whose tag starts with the code; when a Hindi request has none, the candidates are exactly the voices whose name contains "hindi"; order is kept and each kept voice occurs as often as in the voice list |
| SpeechService.BestIndex | services/speechService.ts:143-145 | the stable descending sort puts first the earliest voice with the top score |
| SpeechService.GetBestVoice | services/speechService.ts:86-146 | no voice exactly when no voice matches the language and (for Hindi) none is named "hindi"; otherwise the first top-scoring candidate, which fits the language or is a Hindi-name fallback |
| SpeechService.FindIndexByURI | services/speechService.ts:60 | `find` returns the position of the first voice with that URI, or none exactly when no voice has it |
| SpeechService.FindByURI | services/speechService.ts:60 | `find` returns a voice with that URI, or none exactly when no voice has it |
| SpeechService.OverrideVoice | services/speechService.ts:59-66 | an override is the first voice with the stored non-empty URI and is used exactly when it fits the requested language; no URI, an empty URI, an unknown URI or a voice in another language gives none |
| SpeechService.ChooseVoice | services/speechService.ts:56-71 | the voice used is one of the platform voices and fits the requested language or is a Hindi-name fallback; there is none only when automatic selection finds none |
| SpeechService.OverrideHonoured | services/speechService.ts:59-66 | a set override whose first voice with that URI fits the requested language is the voice used |
| SpeechService.OverrideIgnored | services/speechService.ts:59-71 | an override that names no voice, or whose voice is in another language, falls back to automatic selection |
| SpeechService.BuildUtterance | services/speechService.ts:49-77 | the utterance carries the text, rate, pitch and volume of the request and the chosen voice; its language is the voice's own, or the requested tag when there is no voice |
| SpeechService.UtteranceSpeaksRequestedLanguage | services/speechService.ts:73-77 | the utterance's language tag starts with the requested code, except for a Hindi-name fallback voice |
| SpeechService.AppendCancel | services/speechService.ts:47 | adding a `cancel` keeps the rule that every `speak` directly follows a `cancel` |
| SpeechService.AppendSpeakAfterCancel | services/speechService.ts:79 | a `speak` directly after a `cancel` keeps that rule |
| SpeechService.SpeechService.constructor | services/speechService.ts:8-18 | the service starts with the platform's voices, no listeners and no engine calls |
| SpeechService.SpeechService.PopulateVoices | services/speechService.ts:20-23 | the voice list is replaced and every listener is called once, in order |
| SpeechService.SpeechService.NotifyListeners | services/speechService.ts:32-34 | every listener is called once, in subscription order, and nothing else changes |
| SpeechService.SpeechService.Subscribe | services/speechService.ts:25-26 | the listener is appended to the list |
| SpeechService.SpeechService.Unsubscribe | services/speechService.ts:27-29 | the new listener list is the old one filtered by "not this listener": every copy of it is removed, every other entry keeps its count and its order, and nothing else changes |
| SpeechService.SpeechService.Speak | services/speechService.ts:40-80 | voices are reloaded only when there are none; the engine receives exactly `cancel` then `speak` with the utterance built from the request; every `speak` follows a `cancel` |
| SpeechService.SpeechService.PrepareUtterance | services/speechService.ts:49-77 | the utterance assembled step by step is the one `BuildUtterance` describes |
| SpeechService.SpeechService.Stop | services/speechService.ts:82-84 | `stop` adds one `cancel` and changes nothing else |
| HandGestures.Depth | components/SignLanguageCamera.tsx:155 | definition only, no contract: `z || 0`, a missing depth reads as 0 |
| HandGestures.SquaredDistance | components/SignLanguageCamera.tsx:152-157 | the squared 3-D distance, with a missing depth as 0, is never negative |
| HandGestures.IsExtended | components/SignLanguageCamera.tsx:159-161 | the tip is extended when its squared distance from the wrist exceeds 1.44 times the base's, which ExtendedBySquares shows is the 1.2-factor distance test |
| HandGestures.FingerStates | components/SignLanguageCamera.tsx:163-167 | thumb, index, middle, ring and pinky are tested on landmark pairs (4, 2), (8, 6), (12, 10), (16, 14) and (20, 18) |
| HandGestures.Pinched | components/SignLanguageCamera.tsx:179 | the thumb and index tips are pinched when their squared distance is below 0.0036, which PinchBySquares shows is the 0.06 distance test |
| HandGestures.CompareBySquares | components/SignLanguageCamera.tsx:159-161 | for non-negative distances, comparing squares gives the same answer as comparing distances |
| HandGestures.ExtendedBySquares | components/SignLanguageCamera.tsx:159-161 | `dist(0, tip) > dist(0, base) * 1.2` holds exactly when the squared distances differ by more than a factor 1.44 |
| HandGestures.IsExtendedByDistance | components/SignLanguageCamera.tsx:159-161 | for the true wrist-to-tip and wrist-to-base distances, IsExtended holds exactly when the tip distance exceeds 1.2 times the base distance |
| HandGestures.PinchBySquares | components/SignLanguageCamera.tsx:179 | `dist(4, 8) < 0.06` holds exactly when the squared distance is below 0.0036 |
| HandGestures.PinchedByDistance | components/SignLanguageCamera.tsx:179 | for the true distance between the thumb and index tips, Pinched holds exactly when it is below 0.06 |
| HandGestures.RockShape | components/SignLanguageCamera.tsx:171 | definition only, no contract: index and pinky extended, middle and ring curled |
| HandGestures.CallMeShape | components/SignLanguageCamera.tsx:175 | definition only, no contract: thumb and pinky extended, index, middle and ring curled |
| HandGestures.OkShape | components/SignLanguageCamera.tsx:179 | definition only, no contract: thumb and index pinched, middle, ring and pinky extended |
| HandGestures.ShapesDisjoint | components/SignLanguageCamera.tsx:171-181 | no hand satisfies two of the three shape rules |
| HandGestures.Classify | components/SignLanguageCamera.tsx:171-183 | each label is returned exactly when its own shape holds, and none exactly when no shape holds |
| HandGestures.DetectCustomGestures | components/SignLanguageCamera.tsx:151-184 | the detector returns nothing or one of Rock, Call_Me and OK_Sign; OK_Sign needs a pinch, and Rock and Call_Me need the pinky extended and the middle finger curled |
| HandGestures.GateFrame | components/SignLanguageCamera.tsx:216-230 | a hand with fewer than 21 landmarks faults the frame; otherwise a heuristic label replaces the classifier's with score 0.85, and without one the classifier's top category, or the empty label with score 0, is passed on |
| HandGestures.HeuristicLabelPassesGate | components/SignLanguageCamera.tsx:226-230 | a heuristic label replaces the classifier's with score 0.85 and always passes the 0.55 gate |
| HandGestures.ClassifierLabelOtherwise | components/SignLanguageCamera.tsx:220-223 | without a heuristic match the classifier's top label and score go through unchanged |
| HandGestures.PassesGate | components/SignLanguageCamera.tsx:254 | a frame reaches the handler exactly when its score is above 0.55 and its label is neither "None" nor empty |
| GestureStabilizer.HeuristicLabelsMapped | components/SignLanguageCamera.tsx:13-27 | every heuristic label has a phrase; "None" and "" have none |
| GestureStabilizer.PhraseText | components/SignLanguageCamera.tsx:285 | the phrase is the Hindi text for Hindi and the English text otherwise |
| GestureStabilizer.LastSpokenOrZero | components/SignLanguageCamera.tsx:289 | definition only, no contract: `lastSpokenTimes.get(name) || 0`, a label never spoken reads as time 0 |
| GestureStabilizer.HandleGesture | components/SignLanguageCamera.tsx:273-297 | an unmapped label changes nothing; a new label restarts the hold without speaking; a phrase is spoken exactly when the same label has been held over 400 ms and its last phrase is over 2000 ms old (never spoken counts as 0); only that label's time is updated |
| GestureStabilizer.ProcessFrame | components/SignLanguageCamera.tsx:254-259 | a faulted frame changes nothing; a frame that fails the gate clears the held label; speech comes only from a frame that passes, for the held label, past the hold and the cooldown |
| GestureStabilizer.Run | components/SignLanguageCamera.tsx:194-263 | frames are handled in order from the given state, and each frame adds at most one phrase to the log |
| GestureStabilizer.RejectedFrameRestartsHold | components/SignLanguageCamera.tsx:254-259 | after a frame that fails the gate, the next passing frame only starts a new hold and speaks nothing |
| GestureStabilizer.HeldGestureIsSpoken | components/SignLanguageCamera.tsx:278-294 | holding a new gesture for over 400 ms, out of cooldown, speaks its phrase in the chosen language |
| GestureStabilizer.SpeakKeepsCooldown | components/SignLanguageCamera.tsx:289-294 | a step that records each phrase's time and speaks only past the cooldown keeps the per-label records and the cooldown |
| GestureStabilizer.RunKeepsCooldown | components/SignLanguageCamera.tsx:289-294 | over any run of frames, each phrase comes more than 2000 ms after the previous phrase of the same gesture, and the map holds each gesture's last phrase time |
| GestureStabilizer.RunLogChronological | components/SignLanguageCamera.tsx:274 | when the clock never goes back, phrases are spoken in time order and no later than the last frame |
| GestureStabilizer.CooldownSpacing | components/SignLanguageCamera.tsx:288-294 | in any log that keeps the cooldown, whatever the clock did, any two phrases of one gesture are more than 2000 ms apart |
| GestureStabilizer.SpacedPair | components/SignLanguageCamera.tsx:288-294 | a later phrase of a gesture comes more than 2000 ms after each earlier phrase of it, even when the clock goes back |
| GestureStabilizer.SameGestureSpacedInRun | components/SignLanguageCamera.tsx:267-294 | over any run of frames, with any clock readings, the same gesture is never spoken twice within 2000 ms |
| GestureStabilizer.StreakStart | components/SignLanguageCamera.tsx:278-281 | the result is the first frame of the longest unbroken run of one label ending at frame k: every frame from it to k has that label and the frame before it has another |
| GestureStabilizer.RunFollowsStreak | components/SignLanguageCamera.tsx:278-284 | over frames that all pass the gate with mapped labels, starting from another label, the held label is the last frame's and the hold started at the first frame of its unbroken streak |
| GestureStabilizer.StepSpeaksAfterHold | components/SignLanguageCamera.tsx:282-294 | on a state holding the previous frame's label since the start of its streak, a phrase the last frame speaks is its label, at its time, and its streak has lasted more than 400 ms |
| GestureStabilizer.RunSpeaksAfterHold | components/SignLanguageCamera.tsx:278-294 | over such frames, every phrase spoken is the label of a frame, at that frame's time, whose label has been shown without a break for more than 400 ms |
| GestureStabilizer.ShortHoldsNeverSpeak | components/SignLanguageCamera.tsx:278-294 | over such frames, if no streak of one label lasts more than 400 ms, nothing is spoken |
| GestureStabilizer.AlternatingLabelsNeverSpeak | components/SignLanguageCamera.tsx:278-284 | when every frame passes the gate with a mapped label that differs from the previous one, nothing is spoken and the last label is the one held |
| GestureStabilizer.GestureHandler.constructor | components/SignLanguageCamera.tsx:50-52 | the refs start empty: no held label, hold start 0, no spoken times |
| GestureStabilizer.GestureHandler.HandleGestureOutput | components/SignLanguageCamera.tsx:273-297 | the fields change as `HandleGesture` says and the phrase returned is the one it speaks; the cooldown invariant is kept |
| GestureStabilizer.GestureHandler.OnFrame | components/SignLanguageCamera.tsx:216-259 | the fields change as `ProcessFrame` says; a faulted frame changes nothing; the cooldown invariant is kept |
| App.AddMessage | App.tsx:65 | the new message is last, the log has at most 16 entries, and the messages before it are the last min(15, n) old ones in order |
| App.Say | App.tsx:57-66 | the log ends with a message carrying the given id, text, sender, time and kind and no sign image, after the 15 most recent old messages, and holds at most 16 |
| App.LogIsLastSixteen | App.tsx:65 | after any number of messages the log is exactly the last 16 of everything said |
| App.LastPartnerMessage | App.tsx:86 | none exactly when the log has no partner message; otherwise a partner message with none after it |
| App.PartnerReplyIsShown | App.tsx:142 | the partner's new message becomes the one the sign generator shows |
| App.UserMessageKeepsPartnerMessage | App.tsx:65 | a user message leaves the shown partner message unchanged, unless it pushes every partner message out of the log; below the cap it never changes it |
| App.WithoutId | App.tsx:69 | the list keeps exactly the phrases with another id, in order |
| App.RecordRecent | App.tsx:69 | the clicked phrase comes first, followed by the first 11 (or all, if fewer) older phrases with other ids in their old order, so the list has length min(12, 1 + number of other phrases) |
| App.RecordRecentKeepsOrder | App.tsx:69 | the phrases behind the clicked one are older recents with other ids, in their old order; below the cap none is lost, and at the cap the list is full and keeps exactly the 11 most recent other phrases |
| App.RecordRecentKeepsUnique | App.tsx:69 | recording a phrase keeps ids distinct |
| App.RecentsStayUnique | App.tsx:69 | from the empty list, any sequence of clicks leaves no two recents with the same id |
| App.ClickingFrontAgain | App.tsx:69 | clicking the phrase already in front leaves the list unchanged |
| App.PhraseText | App.tsx:70 | definition only, no contract: the Hindi text when the language is Hindi, the English text otherwise |
| App.HandlePhraseClick | App.tsx:68-72 | the recents are RecordRecent of the old recents and the log is the old log with the user's voice message added, carrying the Hindi or English text; settings, name and onboarding are kept |
| App.CompleteOnboarding | App.tsx:74-81 | language and gender take the wizard's values, every other setting is kept, the name is stored and onboarding ends |
| App.ToggleLanguage | App.tsx:103 | the language switches to the other one and nothing else changes |
| App.ToggleTwiceIsIdentity | App.tsx:103 | toggling twice restores the settings |
| LandingPage.LandingPage.constructor | components/LandingPage.tsx:10-13 | the wizard starts at step 1 with no name, no gender and English |
| LandingPage.LandingPage.SetName | components/LandingPage.tsx:58 | the name becomes the input's text, nothing else changes |
| LandingPage.LandingPage.SetGender | components/LandingPage.tsx:73-86 | the buttons only ever assign a gender, so step 3 keeps a gender |
| LandingPage.LandingPage.SetLanguage | components/LandingPage.tsx:96-109 | the language becomes the chosen one, nothing else changes |
| LandingPage.LandingPage.NextDisabled | components/LandingPage.tsx:117 | the Next button is disabled for a blank trimmed name on step 1 or no gender on step 2, and so never on step 3 |
| LandingPage.LandingPage.HandleNext | components/LandingPage.tsx:15-23 | step 1 advances only with a non-blank name, step 2 only with a gender, step 3 calls `onComplete` with the answers; the step stays in 1..3 and never decreases; the button's disabled test holds exactly when nothing happens |
| SettingsPanel.FilteredVoices | components/SettingsPanel.tsx:47-51 | a voice is listed exactly when its tag starts with the code or, for Hindi, its name contains "hindi"; order is kept and each listed voice occurs as often as in the voice list |
| SettingsPanel.Listed | components/SettingsPanel.tsx:48-50 | a voice is listed when its lower-cased tag starts with the language code or, for Hindi, when its name contains "hindi" |
| SettingsPanel.CandidatesAreListed | components/SettingsPanel.tsx:47-51 | every voice the automatic choice considers is listed; for English the two sets agree |
| SettingsPanel.HindiNamesListedAlongside | components/SettingsPanel.tsx:49-50 | for Hindi, a voice named "hindi" with another tag is listed even when tagged Hindi voices exist, though automatic choice skips it |
| SettingsPanel.ChosenVoiceIsListed | components/SettingsPanel.tsx:47-51 | the voice speech would use is always one the picker offers |
| SettingsPanel.HandleChange | components/SettingsPanel.tsx:27-30 | the named field takes the value and every other field keeps its own |
| SettingsPanel.WriteBackIsIdentity | components/SettingsPanel.tsx:29 | writing a field's own value back changes nothing |
| SettingsPanel.ChangesCommute | components/SettingsPanel.tsx:29 | changes to two different fields can be made in either order |
| SettingsPanel.LastChangeWins | components/SettingsPanel.tsx:29 | a later change to the same field overrides an earlier one |
| SettingsPanel.ToggleSignGeneration | components/SettingsPanel.tsx:93 | the switch flips its own field only |
| SettingsPanel.TogglePrivacy | components/SettingsPanel.tsx:106 | the switch flips its own field only |
| SettingsPanel.ToggleHighContrast | components/SettingsPanel.tsx:126 | the switch flips its own field only |
| SettingsPanel.TogglesAreInvolutions | components/SettingsPanel.tsx:93-126 | flipping any switch twice restores the settings |
| SettingsPanel.SelectValue | components/SettingsPanel.tsx:177 | the picker shows the stored URI, or the empty Auto-detect entry when no voice is stored |
| SettingsPanel.VoiceChoice | components/SettingsPanel.tsx:178 | the empty option stores no voice; any other option stores its URI |
| SettingsPanel.SelectVoice | components/SettingsPanel.tsx:178 | only the voice setting changes, to the chosen URI or none |
| SettingsPanel.PickerRoundTrip | components/SettingsPanel.tsx:177-178 | the picker shows what was chosen, and re-choosing the shown entry keeps the setting, except a stored empty URI, which reads back as none |

## Left out

- GestureStabilizer.RunFollowsStreak: stated only for runs in which every frame passes the gate with a mapped label; a frame that fails the gate between them (it clears the held label) or faults (it changes nothing) is covered one frame at a time by ProcessFrame and RejectedFrameRestartsHold.
- GestureStabilizer.RunSpeaksAfterHold: stated for the same runs, for the same reason.
- GestureStabilizer.ShortHoldsNeverSpeak: stated for the same runs, for the same reason.
- Text.ToLower: lowers only the ASCII letters A-Z; JavaScript's full Unicode case mapping is not modelled. Voice names and tags are compared after this ASCII-only lowering.
- The speech engine, the camera, the MediaPipe recogniser and the canvas are outside the model. Engine calls are recorded in a log, listeners are recorded by identifier, and recognition results come in as values.
- Rates, pitches, volumes, landmark coordinates and scores are reals, not IEEE doubles; the `Math.sqrt` in `dist` is replaced by squared comparisons, which the lemmas show are equivalent for exact reals.
- Firing of `onvoiceschanged` is not modelled as an event; its effect is a call of `PopulateVoices`. `getVoices` is the `voices` field.
- The listener functions themselves are not modelled: calling one is recorded in `notified`, and what the listener does (the settings panel re-reading the list, lines 17-23 of components/SettingsPanel.tsx) is not modelled.
- GateFrame: a hand with fewer than 21 landmarks makes the detector read a missing landmark; the TypeError this throws is caught by the frame's `catch`, which the model writes as the Faulted result, so the rest of that frame (the gate and the handler) is skipped. Other exceptions the recogniser might throw are not modelled.
- The render loop's scheduling (`requestAnimationFrame`, the `lastVideoTime` check, canvas resizing, landmark drawing) is left out. The two clock readings of a frame (lines 204 and 274 of components/SignLanguageCamera.tsx) are taken as one value, passed in as `now`.
- `soundService.play` and the `speechService.speak` call made by the gesture handler are not called from the model: the handler returns the phrase it hands to speech.
- Keys inherited by `GESTURE_MAP` from the object prototype are not modelled; the recogniser never produces them.
- App.tsx: the `localStorage` persistence and loading (lines 19-55, 78-79), the random message ids and `Date.now` (both passed in as parameters), the active-category phrase list (line 85) and all rendering are left out.
- LandingPage.LandingPage.SetName: also callable at steps where the interface does not show the input, so the model allows more than the screen does; the invariants hold regardless.
- LandingPage.LandingPage.SetGender: also callable at any step, for the same reason.
- LandingPage.LandingPage.SetLanguage: also callable at any step, although the language buttons are shown only on step 3.
- SettingsPanel: `handleTestVoice`, `handleClose`, the sounds played by each control and the voice-list subscription are left out. The untyped `value: any` of `handleChange` is a typed change, one constructor per field.
- The scores of the Hindi female example above are worked out by hand; this example is not proved.
