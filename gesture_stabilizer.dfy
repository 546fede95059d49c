/**
 * The stabiliser between the per-frame gesture labels and speech
 * (components/SignLanguageCamera.tsx): a label must be held for more than
 * 400 ms before it is spoken, and each label is spoken at most once per
 * 2000 ms. The pure step functions come first; the class after them keeps
 * the same state in fields, as the component's refs do.
 */
module GestureStabilizer {
  import opened Types
  import opened HandGestures

  /** What a recognised gesture says, in each language, and the emoji shown for it. */
  datatype GesturePhrase = GesturePhrase(en: string, hi: string, emoji: string)

  /** `GESTURE_MAP`: seven classifier gestures and the three heuristic ones. */
  const GestureMap: map<string, GesturePhrase> :=
    map[
      "Thumb_Up" := GesturePhrase("Yes", "हाँ", "👍"),
      "Thumb_Down" := GesturePhrase("No", "नहीं", "👎"),
      "Open_Palm" := GesturePhrase("Hello", "नमस्ते", "👋"),
      "Victory" := GesturePhrase("Peace", "शांति", "✌️"),
      "ILoveYou" := GesturePhrase("I Love You", "मैं तुमसे प्यार करता हूँ", "🤟"),
      "Pointing_Up" := GesturePhrase("Wait", "रुको", "☝️"),
      "Closed_Fist" := GesturePhrase("Stop", "रुको", "✊"),
      "Call_Me" := GesturePhrase("Call Phone", "फ़ोन करो", "🤙"),
      "OK_Sign" := GesturePhrase("Okay", "ठीक है", "👌"),
      "Rock" := GesturePhrase("Music", "संगीत", "🤘")
    ]

  const HoldMs: int := 400
  const CooldownMs: int := 2000

  /** Every label the heuristic detector can return has a phrase; the classifier's "None" has none. */
  lemma HeuristicLabelsMapped(f: Fingers, pinched: bool)
    ensures Classify(f, pinched).Some? ==> Classify(f, pinched).value in GestureMap
    ensures "None" !in GestureMap && "" !in GestureMap
  {
  }

  function PhraseText(p: GesturePhrase, lang: Language): string
  {
    if lang == Hindi then p.hi else p.en
  }

  /**
   * The component's refs and display: the label being held (`lastGestureRef`),
   * when the hold began (`gestureHoldStart`), when each label was last spoken
   * (`lastSpokenTimes`) and the text on screen (`detectedGesture`).
   */
  datatype HoldState = HoldState(held: string, holdStart: int, lastSpoken: map<string, int>, display: string)

  /** The state on mount. */
  const InitialHold := HoldState("", 0, map[], "")

  /** `lastSpokenTimes.get(name) || 0`: a label never spoken counts as spoken at time 0. */
  function LastSpokenOrZero(lastSpoken: map<string, int>, name: string): int
  {
    if name in lastSpoken then lastSpoken[name] else 0
  }

  /** One phrase handed to the speech service: which gesture, what text, and when. */
  datatype Spoken = Spoken(gesture: string, text: string, time: int)

  /** The new state after one call, and the phrase spoken by it, if any. */
  datatype Step = Step(next: HoldState, said: Option<Spoken>)

  /** `handleGestureOutput(name)` at time `now`. */
  function HandleGesture(s: HoldState, name: string, now: int, lang: Language): (r: Step)
    ensures name !in GestureMap ==> r == Step(s, None)
    ensures name in GestureMap && name != s.held ==>
              r == Step(s.(held := name, holdStart := now, display := GestureMap[name].emoji + " ..."), None)
    ensures r.said.Some? <==>
              name in GestureMap && name == s.held && now - s.holdStart > HoldMs
              && now - LastSpokenOrZero(s.lastSpoken, name) > CooldownMs
    ensures r.said.Some? ==> r.said.value == Spoken(name, PhraseText(GestureMap[name], lang), now)
    ensures r.next.lastSpoken == if r.said.Some? then s.lastSpoken[name := now] else s.lastSpoken
    ensures name == s.held ==> r.next.held == s.held && r.next.holdStart == s.holdStart
    ensures name in GestureMap && name == s.held ==>
              r.next.display == if now - s.holdStart > HoldMs
                                then GestureMap[name].emoji + " " + PhraseText(GestureMap[name], lang)
                                else s.display
  {
    if name !in GestureMap then Step(s, None)
    else
      var phrase := GestureMap[name];
      if s.held != name then
        Step(s.(held := name, holdStart := now, display := phrase.emoji + " ..."), None)
      else if now - s.holdStart > HoldMs then
        var text := PhraseText(phrase, lang);
        var shown := s.(display := phrase.emoji + " " + text);
        if now - LastSpokenOrZero(s.lastSpoken, name) > CooldownMs then
          Step(shown.(lastSpoken := s.lastSpoken[name := now]), Some(Spoken(name, text, now)))
        else
          Step(shown, None)
      else
        Step(s, None)
  }

  /**
   * One frame of the render loop: a faulted frame changes nothing, a frame
   * that fails the gate clears the held label and the display, a frame that
   * passes goes to the handler. The clock is read once per frame here.
   */
  function ProcessFrame(s: HoldState, rec: Recognition, now: int, lang: Language): (r: Step)
    ensures GateFrame(rec).Faulted? ==> r == Step(s, None)
    ensures r.said.Some? ==> PassesGate(GateFrame(rec)) && r.said.value.gesture == GateFrame(rec).name
    ensures GateFrame(rec).Gated? && !PassesGate(GateFrame(rec)) ==> r.next.held == "" && r.next.display == ""
    ensures r.said.Some? ==> r.said.value.time == now && r.said.value.gesture == s.held
                             && now - s.holdStart > HoldMs
                             && now - LastSpokenOrZero(s.lastSpoken, s.held) > CooldownMs
    ensures r.next.lastSpoken == if r.said.Some? then s.lastSpoken[r.said.value.gesture := now] else s.lastSpoken
  {
    var g := GateFrame(rec);
    if g.Faulted? then Step(s, None)
    else if PassesGate(g) then HandleGesture(s, g.name, now, lang)
    else Step(s.(held := "", display := ""), None)
  }

  /** After a frame that fails the gate, a gesture must be held anew: the next frame only starts the hold. */
  lemma RejectedFrameRestartsHold(s: HoldState, bad: Recognition, good: Recognition, t1: int, t2: int, lang: Language)
    requires GateFrame(bad).Gated? && !PassesGate(GateFrame(bad))
    requires PassesGate(GateFrame(good)) && GateFrame(good).name in GestureMap
    ensures var r := ProcessFrame(ProcessFrame(s, bad, t1, lang).next, good, t2, lang);
            r.said.None? && r.next.held == GateFrame(good).name && r.next.holdStart == t2
  {
  }

  /** A gesture that has been held long enough and is out of cooldown is spoken, in the chosen language. */
  lemma HeldGestureIsSpoken(s: HoldState, name: string, t0: int, t1: int, lang: Language)
    requires name in GestureMap && name != s.held
    requires t1 - t0 > HoldMs && t1 - LastSpokenOrZero(s.lastSpoken, name) > CooldownMs
    ensures HandleGesture(HandleGesture(s, name, t0, lang).next, name, t1, lang).said
            == Some(Spoken(name, PhraseText(GestureMap[name], lang), t1))
  {
  }

  // ---- Runs of frames and the cooldown they keep ----

  datatype Frame = Frame(recognition: Recognition, now: int)

  /** Where a run of frames leaves the state, and every phrase it spoke, in order. */
  datatype Trace = Trace(state: HoldState, log: seq<Spoken>)

  function SaidList(said: Option<Spoken>): seq<Spoken>
  {
    if said.Some? then [said.value] else []
  }

  /** The frames handled one by one from `s`; each frame speaks at most one phrase. */
  function Run(s: HoldState, frames: seq<Frame>, lang: Language): (t: Trace)
    ensures |t.log| <= |frames|
  {
    if frames == [] then Trace(s, [])
    else
      var prev := Run(s, frames[..|frames| - 1], lang);
      var f := frames[|frames| - 1];
      var r := ProcessFrame(prev.state, f.recognition, f.now, lang);
      Trace(r.next, prev.log + SaidList(r.said))
  }

  /** The position of the last phrase of `log` for gesture `g`. */
  function LastIndexOf(log: seq<Spoken>, g: string): (r: Option<nat>)
    ensures r.Some? ==> r.value < |log| && log[r.value].gesture == g
                        && forall k :: r.value < k < |log| ==> log[k].gesture != g
    ensures r.None? ==> forall k :: 0 <= k < |log| ==> log[k].gesture != g
  {
    if log == [] then None
    else if log[|log| - 1].gesture == g then Some(|log| - 1)
    else LastIndexOf(log[..|log| - 1], g)
  }

  /** Each phrase comes more than the cooldown after the previous phrase of the same gesture. */
  ghost predicate CooldownKept(log: seq<Spoken>)
  {
    forall n :: 0 <= n < |log| ==>
      var p := LastIndexOf(log[..n], log[n].gesture);
      p.Some? ==> log[n].time - log[p.value].time > CooldownMs
  }

  /** The `lastSpoken` map records the time of every gesture's last phrase. */
  ghost predicate Tracks(s: HoldState, log: seq<Spoken>)
  {
    forall g :: LastIndexOf(log, g).Some? ==>
      g in s.lastSpoken && s.lastSpoken[g] == log[LastIndexOf(log, g).value].time
  }

  /**
   * A step that records each phrase in `lastSpoken` and speaks only past the
   * cooldown keeps both the record and the cooldown.
   */
  lemma SpeakKeepsCooldown(s: HoldState, log: seq<Spoken>, r: Step)
    requires Tracks(s, log) && CooldownKept(log)
    requires r.next.lastSpoken == if r.said.Some? then s.lastSpoken[r.said.value.gesture := r.said.value.time]
                                  else s.lastSpoken
    requires r.said.Some? ==> r.said.value.time - LastSpokenOrZero(s.lastSpoken, r.said.value.gesture) > CooldownMs
    ensures Tracks(r.next, log + SaidList(r.said)) && CooldownKept(log + SaidList(r.said))
  {
    if r.said.Some? {
      var e := r.said.value;
      var log' := log + [e];
      assert log'[..|log|] == log;
      forall n | 0 <= n < |log'|
        ensures var p := LastIndexOf(log'[..n], log'[n].gesture);
                p.Some? ==> log'[n].time - log'[p.value].time > CooldownMs
      {
        if n < |log| {
          assert log'[..n] == log[..n];
        }
      }
      forall g | LastIndexOf(log', g).Some?
        ensures g in r.next.lastSpoken && r.next.lastSpoken[g] == log'[LastIndexOf(log', g).value].time
      {
        if g != e.gesture {
          assert LastIndexOf(log', g) == LastIndexOf(log, g);
        }
      }
    } else {
      assert log + SaidList(r.said) == log;
    }
  }

  /** Every run, from any state, keeps the record and the cooldown. */
  lemma {:induction false} RunKeepsCooldown(s: HoldState, frames: seq<Frame>, lang: Language)
    ensures Tracks(Run(s, frames, lang).state, Run(s, frames, lang).log)
    ensures CooldownKept(Run(s, frames, lang).log)
    decreases |frames|
  {
    if frames != [] {
      RunKeepsCooldown(s, frames[..|frames| - 1], lang);
      var prev := Run(s, frames[..|frames| - 1], lang);
      var f := frames[|frames| - 1];
      SpeakKeepsCooldown(prev.state, prev.log, ProcessFrame(prev.state, f.recognition, f.now, lang));
    }
  }

  predicate Chronological(frames: seq<Frame>)
  {
    forall i, j :: 0 <= i < j < |frames| ==> frames[i].now <= frames[j].now
  }

  predicate TimeOrdered(log: seq<Spoken>)
  {
    forall i, j :: 0 <= i < j < |log| ==> log[i].time <= log[j].time
  }

  predicate NotAfter(log: seq<Spoken>, t: int)
  {
    forall k :: 0 <= k < |log| ==> log[k].time <= t
  }

  /** With the clock never going back, phrases come in time order and no later than the last frame. */
  lemma {:induction false} RunLogChronological(s: HoldState, frames: seq<Frame>, lang: Language)
    requires Chronological(frames)
    ensures TimeOrdered(Run(s, frames, lang).log)
    ensures frames != [] ==> NotAfter(Run(s, frames, lang).log, frames[|frames| - 1].now)
    decreases |frames|
  {
    if frames != [] {
      var init := frames[..|frames| - 1];
      assert Chronological(init);
      RunLogChronological(s, init, lang);
      var prev := Run(s, init, lang);
      var f := frames[|frames| - 1];
      var r := ProcessFrame(prev.state, f.recognition, f.now, lang);
      if init != [] {
        assert init[|init| - 1].now <= f.now;
      } else {
        assert prev.log == [];
      }
      assert NotAfter(prev.log, f.now);
      assert r.said.Some? ==> r.said.value.time == f.now by {
        if r.said.Some? {
          assert r.said == HandleGesture(prev.state, GateFrame(f.recognition).name, f.now, lang).said;
        }
      }
      var log := prev.log + SaidList(r.said);
      assert Run(s, frames, lang).log == log;
      forall k | 0 <= k < |log| ensures log[k].time <= f.now {
        if k < |prev.log| { assert log[k] == prev.log[k]; }
      }
      forall i, j | 0 <= i < j < |log| ensures log[i].time <= log[j].time {
        if j < |prev.log| { assert log[i] == prev.log[i] && log[j] == prev.log[j]; }
        else { assert log[i] == prev.log[i] && log[j] == r.said.value; }
      }
    }
  }

  /**
   * In a log that keeps the cooldown, a later phrase of a gesture comes more
   * than 2000 ms after any earlier one, whatever the clock did in between: each
   * phrase is more than 2000 ms after the previous phrase of its gesture.
   */
  lemma {:induction false} SpacedPair(log: seq<Spoken>, i: nat, j: nat)
    requires CooldownKept(log)
    requires i < j < |log| && log[i].gesture == log[j].gesture
    ensures log[j].time - log[i].time > CooldownMs
    decreases j
  {
    var p := LastIndexOf(log[..j], log[j].gesture);
    assert log[..j][i].gesture == log[j].gesture;
    assert p.Some? && i <= p.value;
    assert log[..j][p.value] == log[p.value];
    if i < p.value {
      SpacedPair(log, i, p.value);
    }
  }

  /** In a log that keeps the cooldown, any two phrases of one gesture are more than 2000 ms apart. */
  lemma CooldownSpacing(log: seq<Spoken>)
    requires CooldownKept(log)
    ensures forall i, j :: 0 <= i < j < |log| && log[i].gesture == log[j].gesture ==>
              log[j].time - log[i].time > CooldownMs
  {
    forall i, j | 0 <= i < j < |log| && log[i].gesture == log[j].gesture
      ensures log[j].time - log[i].time > CooldownMs
    {
      SpacedPair(log, i, j);
    }
  }

  /**
   * The same gesture is never spoken twice within 2000 ms, however the frames
   * arrive, even when the clock goes back.
   */
  lemma SameGestureSpacedInRun(s: HoldState, frames: seq<Frame>, lang: Language)
    ensures var log := Run(s, frames, lang).log;
            forall i, j :: 0 <= i < j < |log| && log[i].gesture == log[j].gesture ==>
              log[j].time - log[i].time > CooldownMs
  {
    RunKeepsCooldown(s, frames, lang);
    CooldownSpacing(Run(s, frames, lang).log);
  }

  /** The label that frame `f` hands to the handler, when it passes the gate. */
  function FrameLabel(f: Frame): string
  {
    match GateFrame(f.recognition)
    case Faulted => ""
    case Gated(name, _) => name
  }

  /** Every frame passes the gate with a label the gesture map knows. */
  predicate AllPassMapped(frames: seq<Frame>)
  {
    forall k :: 0 <= k < |frames| ==>
      PassesGate(GateFrame(frames[k].recognition)) && FrameLabel(frames[k]) in GestureMap
  }

  /** The first frame of the longest streak of frames with one label that ends at frame `k`. */
  function StreakStart(frames: seq<Frame>, k: nat): (j: nat)
    requires k < |frames|
    ensures j <= k
    ensures forall i :: j <= i <= k ==> FrameLabel(frames[i]) == FrameLabel(frames[k])
    ensures j > 0 ==> FrameLabel(frames[j - 1]) != FrameLabel(frames[k])
    decreases k
  {
    if k > 0 && FrameLabel(frames[k - 1]) == FrameLabel(frames[k]) then StreakStart(frames, k - 1) else k
  }

  /** A streak is decided by the frames up to its end, so later frames do not move its start. */
  lemma {:induction false} StreakStartPrefix(frames: seq<Frame>, n: nat, k: nat)
    requires k < n <= |frames|
    ensures StreakStart(frames[..n], k) == StreakStart(frames, k)
    decreases k
  {
    assert frames[..n][k] == frames[k];
    if k > 0 {
      assert frames[..n][k - 1] == frames[k - 1];
      StreakStartPrefix(frames, n, k - 1);
    }
  }

  /** Frame `k` ends a streak of its label that has lasted more than the hold time. */
  predicate HeldAt(frames: seq<Frame>, k: nat)
    requires k < |frames|
  {
    frames[k].now - frames[StreakStart(frames, k)].now > HoldMs
  }

  /** Phrase `e` is the label of some frame that ends a streak held longer than the hold time, at its time. */
  ghost predicate SpokenAfterHold(frames: seq<Frame>, e: Spoken)
  {
    exists k :: 0 <= k < |frames| && e.gesture == FrameLabel(frames[k]) && e.time == frames[k].now
                && HeldAt(frames, k)
  }

  /** A phrase explained by a prefix of the frames is explained by all of them. */
  lemma SpokenAfterHoldPrefix(frames: seq<Frame>, m: nat, e: Spoken)
    requires m <= |frames| && SpokenAfterHold(frames[..m], e)
    ensures SpokenAfterHold(frames, e)
  {
    var init := frames[..m];
    var k :| 0 <= k < |init| && e.gesture == FrameLabel(init[k]) && e.time == init[k].now && HeldAt(init, k);
    StreakStartPrefix(frames, m, k);
    assert init[k] == frames[k] && init[StreakStart(init, k)] == frames[StreakStart(frames, k)];
  }

  /** All frames but the last still pass the gate with mapped labels. */
  lemma AllPassMappedPrefix(frames: seq<Frame>, m: nat)
    requires AllPassMapped(frames) && m <= |frames|
    ensures AllPassMapped(frames[..m])
  {
    forall k | 0 <= k < m ensures frames[..m][k] == frames[k] { }
  }

  /**
   * Over frames that all pass the gate with mapped labels, starting from a
   * different label, the handler holds the last frame's label since the first
   * frame of its streak.
   */
  lemma {:induction false} RunFollowsStreak(s: HoldState, frames: seq<Frame>, lang: Language)
    requires AllPassMapped(frames)
    requires frames != [] ==> FrameLabel(frames[0]) != s.held
    ensures frames != [] ==>
              Run(s, frames, lang).state.held == FrameLabel(frames[|frames| - 1])
              && Run(s, frames, lang).state.holdStart == frames[StreakStart(frames, |frames| - 1)].now
    decreases |frames|
  {
    if frames != [] {
      var m := |frames| - 1;
      var init := frames[..m];
      AllPassMappedPrefix(frames, m);
      assert init != [] ==> init[0] == frames[0];
      RunFollowsStreak(s, init, lang);
      var prev := Run(s, init, lang);
      var f := frames[m];
      assert ProcessFrame(prev.state, f.recognition, f.now, lang) == HandleGesture(prev.state, FrameLabel(f), f.now, lang);
      if m > 0 {
        assert init[m - 1] == frames[m - 1];
        StreakStartPrefix(frames, m, m - 1);
      }
    }
  }

  /**
   * One frame on a state that holds the previous frame's label since its
   * streak began (or, for the first frame, another label): a phrase it speaks
   * ends a streak held longer than the hold time.
   */
  lemma StepSpeaksAfterHold(frames: seq<Frame>, st: HoldState, lang: Language)
    requires AllPassMapped(frames) && frames != []
    requires |frames| == 1 ==> FrameLabel(frames[0]) != st.held
    requires |frames| >= 2 ==> st.held == FrameLabel(frames[|frames| - 2])
                               && st.holdStart == frames[StreakStart(frames, |frames| - 2)].now
    ensures var f := frames[|frames| - 1];
            var r := ProcessFrame(st, f.recognition, f.now, lang);
            r.said.Some? ==> SpokenAfterHold(frames, r.said.value)
  {
    var m := |frames| - 1;
    var f := frames[m];
    var r := ProcessFrame(st, f.recognition, f.now, lang);
    if r.said.Some? {
      assert PassesGate(GateFrame(f.recognition));
      assert r.said.value.gesture == FrameLabel(f) == st.held;
      assert m > 0;
      assert StreakStart(frames, m) == StreakStart(frames, m - 1);
      assert HeldAt(frames, m);
    }
  }

  /**
   * Over the same frames, every phrase is spoken at a frame whose label has
   * been shown without a break for more than the hold time.
   */
  lemma {:induction false} RunSpeaksAfterHold(s: HoldState, frames: seq<Frame>, lang: Language)
    requires AllPassMapped(frames)
    requires frames != [] ==> FrameLabel(frames[0]) != s.held
    ensures forall n :: 0 <= n < |Run(s, frames, lang).log| ==> SpokenAfterHold(frames, Run(s, frames, lang).log[n])
    decreases |frames|
  {
    if frames != [] {
      var m := |frames| - 1;
      var init := frames[..m];
      AllPassMappedPrefix(frames, m);
      assert init != [] ==> init[0] == frames[0];
      RunSpeaksAfterHold(s, init, lang);
      var prev := Run(s, init, lang);
      var f := frames[m];
      var r := ProcessFrame(prev.state, f.recognition, f.now, lang);
      RunFollowsStreak(s, init, lang);
      if m > 0 {
        assert init[m - 1] == frames[m - 1];
        StreakStartPrefix(frames, m, m - 1);
        assert prev.state.held == FrameLabel(frames[m - 1])
               && prev.state.holdStart == frames[StreakStart(frames, m - 1)].now;
      } else {
        assert prev.state == s;
      }
      StepSpeaksAfterHold(frames, prev.state, lang);
      assert Run(s, frames, lang).log == prev.log + SaidList(r.said);
      ExplainedAppend(frames, m, prev.log, r.said);
    }
  }

  /** Phrases explained by the first `m` frames, followed by one explained by all frames, are all explained. */
  lemma ExplainedAppend(frames: seq<Frame>, m: nat, log: seq<Spoken>, said: Option<Spoken>)
    requires m <= |frames|
    requires forall n :: 0 <= n < |log| ==> SpokenAfterHold(frames[..m], log[n])
    requires said.Some? ==> SpokenAfterHold(frames, said.value)
    ensures forall n :: 0 <= n < |log + SaidList(said)| ==> SpokenAfterHold(frames, (log + SaidList(said))[n])
  {
    var all := log + SaidList(said);
    forall n | 0 <= n < |all| ensures SpokenAfterHold(frames, all[n]) {
      if n < |log| {
        assert all[n] == log[n];
        SpokenAfterHoldPrefix(frames, m, log[n]);
      } else {
        assert all[n] == said.value;
      }
    }
  }

  /** If no streak of one label lasts longer than the hold time, nothing is spoken. */
  lemma ShortHoldsNeverSpeak(s: HoldState, frames: seq<Frame>, lang: Language)
    requires AllPassMapped(frames)
    requires frames != [] ==> FrameLabel(frames[0]) != s.held
    requires forall k :: 0 <= k < |frames| ==> !HeldAt(frames, k)
    ensures Run(s, frames, lang).log == []
  {
    RunSpeaksAfterHold(s, frames, lang);
    var log := Run(s, frames, lang).log;
    assert log != [] ==> SpokenAfterHold(frames, log[0]);
  }

  /** Labels that change on every frame are never held, so nothing is spoken. */
  lemma AlternatingLabelsNeverSpeak(s: HoldState, frames: seq<Frame>, lang: Language)
    requires AllPassMapped(frames)
    requires frames != [] ==> FrameLabel(frames[0]) != s.held
    requires forall k :: 0 < k < |frames| ==> FrameLabel(frames[k]) != FrameLabel(frames[k - 1])
    ensures Run(s, frames, lang).log == []
    ensures frames != [] ==> Run(s, frames, lang).state.held == FrameLabel(frames[|frames| - 1])
  {
    forall k | 0 <= k < |frames| ensures !HeldAt(frames, k) {
      assert StreakStart(frames, k) == k;
    }
    RunFollowsStreak(s, frames, lang);
    ShortHoldsNeverSpeak(s, frames, lang);
  }

  /**
   * The component's refs as fields, updated in place frame by frame. The ghost
   * `history` records every phrase handed to the speech service, so that the
   * cooldown can be kept as an invariant.
   */
  class GestureHandler {
    var lastGesture: string
    var holdStart: int
    var lastSpokenTimes: map<string, int>
    var detectedGesture: string
    ghost var history: seq<Spoken>

    function State(): HoldState
      reads this
    {
      HoldState(lastGesture, holdStart, lastSpokenTimes, detectedGesture)
    }

    ghost predicate Valid()
      reads this
    {
      Tracks(State(), history) && CooldownKept(history)
    }

    constructor ()
      ensures State() == InitialHold && history == [] && Valid()
    {
      lastGesture, holdStart, lastSpokenTimes, detectedGesture := "", 0, map[], "";
      history := [];
    }

    /** `handleGestureOutput`: returns the phrase it hands to the speech service, if any. */
    method HandleGestureOutput(name: string, now: int, lang: Language) returns (said: Option<Spoken>)
      requires Valid()
      modifies this
      ensures Valid()
      ensures Step(State(), said) == HandleGesture(old(State()), name, now, lang)
      ensures history == old(history) + SaidList(said)
    {
      ghost var s0, h0 := State(), history;
      ghost var r := HandleGesture(s0, name, now, lang);
      SpeakKeepsCooldown(s0, h0, r);
      said := None;
      if name !in GestureMap {
        return;
      }
      var phrase := GestureMap[name];
      if lastGesture != name {
        lastGesture, holdStart := name, now;
        detectedGesture := phrase.emoji + " ...";
      } else if now - holdStart > HoldMs {
        var text := PhraseText(phrase, lang);
        detectedGesture := phrase.emoji + " " + text;
        var lastSpoken := if name in lastSpokenTimes then lastSpokenTimes[name] else 0;
        if now - lastSpoken > CooldownMs {
          said := Some(Spoken(name, text, now));
          lastSpokenTimes := lastSpokenTimes[name := now];
          history := history + [Spoken(name, text, now)];
        }
      }
      assert Step(State(), said) == r;
    }

    /** One pass of the render loop over a recognition result taken at time `now`. */
    method OnFrame(rec: Recognition, now: int, lang: Language) returns (said: Option<Spoken>)
      requires Valid()
      modifies this
      ensures Valid()
      ensures Step(State(), said) == ProcessFrame(old(State()), rec, now, lang)
      ensures history == old(history) + SaidList(said)
    {
      said := None;
      var g := GateFrame(rec);
      if g.Faulted? {
        return;
      }
      if PassesGate(g) {
        said := HandleGestureOutput(g.name, now, lang);
      } else {
        lastGesture, detectedGesture := "", "";
        assert history + SaidList(said) == history;
      }
    }
  }
}
