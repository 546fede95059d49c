/**
 * Voice arbitration and speech coordination (services/speechService.ts).
 *
 * The browser's `speechSynthesis` object is replaced by two logs kept on the
 * service object: the calls made on the engine (`cancel` and `speak`) and the
 * listener invocations. The platform's voice list is a parameter.
 */
module SpeechService {
  import opened Types
  import opened Text
  import opened Seqs

  /** A platform voice (`SpeechSynthesisVoice`); the application only reads it. */
  datatype Voice = Voice(name: string, lang: string, voiceURI: string)

  const MaleKeywords: seq<string> :=
    ["male", "man", "david", "daniel", "ravi", "hemant", "neil", "rishi", "kalb", "microsoft ram"]

  const FemaleKeywords: seq<string> :=
    ["female", "woman", "zira", "samantha", "susan", "lekha", "kalpana", "heera", "kore", "swara",
     "microsoft hira", "meena"]

  /**
   * Every keyword of the Hindi-only weights. Some of them ("hemant", "rishi",
   * "kalpana", "lekha", "meena") are also persona keywords and score as such
   * for any request.
   */
  const HindiKeywords: seq<string> :=
    ["hemant", "kalpana", "lekha", "rishi", "meena", "isha", "hindi", "india"]

  /** Some keyword of the list occurs in the name. */
  predicate ContainsAny(name: string, keywords: seq<string>)
  {
    exists k :: k in keywords && Contains(name, k)
  }

  /** `lang.split('-')[0].toLowerCase()`: the primary subtag of the request. */
  function LangCode(lang: Language): (code: string)
    ensures code == if lang == English then "en" else "hi"
  {
    var tag := LanguageTag(lang);
    assert PrimarySubtag(tag) == tag[..2] by {
      assert tag[2] == '-';
      assert PrimarySubtag(tag[2..]) == [];
      assert PrimarySubtag(tag[1..]) == [tag[1]];
    }
    ToLower(PrimarySubtag(tag))
  }

  /** The strict language filter: the voice's lower-cased tag starts with `code` (plain prefix test). */
  predicate LangMatches(v: Voice, code: string)
  {
    StartsWith(ToLower(v.lang), code)
  }

  /** The Hindi fallback filter: the lower-cased name contains "hindi". */
  predicate NameMentionsHindi(v: Voice)
  {
    Contains(ToLower(v.name), "hindi")
  }

  /**
   * The gender weight: +50 for a target-persona keyword, -50 for an
   * opposite-persona one. It is one of -50, 0 and 50; it is zero exactly when
   * both lists or neither match, and positive exactly when only the requested
   * persona's list matches.
   */
  function GenderScore(name: string, gender: Gender): (score: int)
    ensures score == -50 || score == 0 || score == 50
    ensures score == 0 <==> (ContainsAny(name, MaleKeywords) <==> ContainsAny(name, FemaleKeywords))
    ensures score > 0 <==>
              if gender == Male then ContainsAny(name, MaleKeywords) && !ContainsAny(name, FemaleKeywords)
              else ContainsAny(name, FemaleKeywords) && !ContainsAny(name, MaleKeywords)
  {
    var target := if gender == Male then MaleKeywords else FemaleKeywords;
    var avoid := if gender == Male then FemaleKeywords else MaleKeywords;
    var s1 := if ContainsAny(name, target) then 50 else 0;
    if ContainsAny(name, avoid) then s1 - 50 else s1
  }

  /** The vendor and quality weights: "google" +30, "natural" +25, "enhanced" or "premium" +20. */
  function QualityScore(name: string): (score: int)
    ensures 0 <= score <= 75
  {
    var s1 := if Contains(name, "google") then 30 else 0;
    var s2 := if Contains(name, "natural") then s1 + 25 else s1;
    if Contains(name, "enhanced") || Contains(name, "premium") then s2 + 20 else s2
  }

  /**
   * The Hindi-only weights: "google" with "hindi" +100, hemant/kalpana +80,
   * lekha/rishi/meena/isha +80, "hindi" or "india" +10. They add something
   * exactly when the name carries a Hindi keyword.
   */
  function HindiScore(name: string): (score: int)
    ensures 0 <= score <= 270
    ensures score == 0 <==> !ContainsAny(name, HindiKeywords)
  {
    var h1 := if Contains(name, "google") && Contains(name, "hindi") then 100 else 0;
    var h2 := if Contains(name, "hemant") || Contains(name, "kalpana") then h1 + 80 else h1;
    var h3 := if Contains(name, "lekha") || Contains(name, "rishi") || Contains(name, "meena")
                 || Contains(name, "isha") then h2 + 80 else h2;
    var h4 := if Contains(name, "hindi") || Contains(name, "india") then h3 + 10 else h3;
    assert ContainsAny(name, HindiKeywords) ==> h4 > 0 by {
      if ContainsAny(name, HindiKeywords) {
        var k :| k in HindiKeywords && Contains(name, k);
      }
    }
    assert h4 > 0 ==> ContainsAny(name, HindiKeywords) by {
      if Contains(name, "hemant") { assert "hemant" in HindiKeywords; }
      if Contains(name, "kalpana") { assert "kalpana" in HindiKeywords; }
      if Contains(name, "lekha") { assert "lekha" in HindiKeywords; }
      if Contains(name, "rishi") { assert "rishi" in HindiKeywords; }
      if Contains(name, "meena") { assert "meena" in HindiKeywords; }
      if Contains(name, "isha") { assert "isha" in HindiKeywords; }
      if Contains(name, "hindi") { assert "hindi" in HindiKeywords; }
      if Contains(name, "india") { assert "india" in HindiKeywords; }
    }
    h4
  }

  /**
   * `scoreVoice`: the keyword table applied to the lower-cased voice name, the
   * Hindi-only weights counting for a Hindi request alone.
   */
  function ScoreVoice(voice: Voice, lang: Language, gender: Gender): (score: int)
    ensures -50 <= score <= if lang == Hindi then 395 else 125
  {
    var name := ToLower(voice.name);
    var base := GenderScore(name, gender) + QualityScore(name);
    if lang == Hindi then base + HindiScore(name) else base
  }

  /** The two personas weigh every name oppositely. */
  lemma GenderScoreMirror(name: string)
    ensures GenderScore(name, Male) == -GenderScore(name, Female)
  {
  }

  /** The two personas differ only by the gender keywords: +-100 per list that matches. */
  lemma PersonaDifference(v: Voice, lang: Language)
    ensures ScoreVoice(v, lang, Male) - ScoreVoice(v, lang, Female)
            == (if ContainsAny(ToLower(v.name), MaleKeywords) then 100 else 0)
               - (if ContainsAny(ToLower(v.name), FemaleKeywords) then 100 else 0)
  {
  }

  /**
   * Keyword matching is plain substring matching, so a name containing "female"
   * also contains the male keyword "male": such a voice scores the same for both
   * personas.
   */
  lemma FemaleNameMatchesBothPersonas(v: Voice, lang: Language)
    requires Contains(ToLower(v.name), "female")
    ensures ContainsAny(ToLower(v.name), MaleKeywords) && ContainsAny(ToLower(v.name), FemaleKeywords)
    ensures ScoreVoice(v, lang, Male) == ScoreVoice(v, lang, Female)
  {
    var name := ToLower(v.name);
    assert "female"[2..6] == "male";
    ContainsAt("female", "male", 2);
    ContainsTransitive(name, "female", "male");
    assert "male" in MaleKeywords && "female" in FemaleKeywords;
  }

  /**
   * The Hindi-only weights never lower a score, and they change it exactly when
   * the name carries one of the Hindi keywords; an English request ignores them.
   */
  lemma HindiBonusOnlyForHindiNames(v: Voice, gender: Gender)
    ensures ScoreVoice(v, Hindi, gender) >= ScoreVoice(v, English, gender)
    ensures ScoreVoice(v, Hindi, gender) == ScoreVoice(v, English, gender)
            <==> !ContainsAny(ToLower(v.name), HindiKeywords)
  {
  }

  /**
   * The candidates of `getBestVoice`: the voices whose tag starts with the
   * request's primary subtag; for Hindi only, when there are none, the voices
   * whose name mentions "hindi". Enumeration order is kept.
   */
  function Candidates(voices: seq<Voice>, lang: Language): (c: seq<Voice>)
    ensures IsSubsequence(c, voices)
    ensures lang == English || (exists v :: v in voices && LangMatches(v, LangCode(lang))) ==>
              forall v :: v in c <==> v in voices && LangMatches(v, LangCode(lang))
    ensures lang == Hindi && (forall v :: v in voices ==> !LangMatches(v, LangCode(lang))) ==>
              forall v :: v in c <==> v in voices && NameMentionsHindi(v)
    ensures lang == English || (exists v :: v in voices && LangMatches(v, LangCode(lang))) ==>
              forall v :: multiset(c)[v] == if LangMatches(v, LangCode(lang)) then multiset(voices)[v] else 0
    ensures lang == Hindi && (forall v :: v in voices ==> !LangMatches(v, LangCode(lang))) ==>
              forall v :: multiset(c)[v] == if NameMentionsHindi(v) then multiset(voices)[v] else 0
  {
    var code := LangCode(lang);
    var fits := (v: Voice) => LangMatches(v, code);
    var strict := Filter(voices, fits);
    assert forall v :: v in strict <==> v in voices && LangMatches(v, code);
    assert strict != [] ==> strict[0] in strict;
    if |strict| == 0 && lang == Hindi then
      FilterCounts(voices, NameMentionsHindi);
      Filter(voices, NameMentionsHindi)
    else
      FilterCounts(voices, fits);
      strict
  }

  /** Position `k` holds a top score and every earlier position scores strictly less. */
  ghost predicate FirstBest(c: seq<Voice>, k: int, lang: Language, gender: Gender)
  {
    && 0 <= k < |c|
    && (forall j :: 0 <= j < |c| ==> ScoreVoice(c[j], lang, gender) <= ScoreVoice(c[k], lang, gender))
    && (forall j :: 0 <= j < k ==> ScoreVoice(c[j], lang, gender) < ScoreVoice(c[k], lang, gender))
  }

  /**
   * The position that a stable descending sort by score moves to the front:
   * the first candidate with the highest score.
   */
  function BestIndex(c: seq<Voice>, lang: Language, gender: Gender): (k: nat)
    requires |c| > 0
    ensures FirstBest(c, k, lang, gender)
  {
    if |c| == 1 then 0
    else
      var k' := BestIndex(c[1..], lang, gender);
      if ScoreVoice(c[0], lang, gender) >= ScoreVoice(c[k' + 1], lang, gender) then 0 else k' + 1
  }

  /**
   * `getBestVoice`: no voice exactly when there is no candidate; otherwise the
   * first-enumerated candidate among those with the highest score.
   */
  function GetBestVoice(voices: seq<Voice>, lang: Language, gender: Gender): (r: Option<Voice>)
    ensures r.None? <==> forall v :: v in voices ==>
                           !LangMatches(v, LangCode(lang)) && !(lang == Hindi && NameMentionsHindi(v))
    ensures r.Some? ==> exists k :: FirstBest(Candidates(voices, lang), k, lang, gender)
                                    && Candidates(voices, lang)[k] == r.value
    ensures r.Some? ==> r.value in voices
    ensures r.Some? ==> LangMatches(r.value, LangCode(lang))
                        || (lang == Hindi && NameMentionsHindi(r.value)
                            && forall v :: v in voices ==> !LangMatches(v, LangCode(lang)))
  {
    var c := Candidates(voices, lang);
    if |c| == 0 then None
    else
      var k := BestIndex(c, lang, gender);
      assert c[k] in c;
      Some(c[k])
  }

  /** The position of the first voice with that URI. */
  function FindIndexByURI(voices: seq<Voice>, uri: string): (r: Option<nat>)
    ensures r.None? <==> forall v :: v in voices ==> v.voiceURI != uri
    ensures r.Some? ==> r.value < |voices| && voices[r.value].voiceURI == uri
                        && forall j :: 0 <= j < r.value ==> voices[j].voiceURI != uri
  {
    if voices == [] then None
    else if voices[0].voiceURI == uri then Some(0)
    else
      var r := FindIndexByURI(voices[1..], uri);
      assert forall v :: v in voices && v != voices[0] ==> v in voices[1..];
      if r.Some? then Some(r.value + 1) else None
  }

  /** The first voice with that URI, if any. */
  function FindByURI(voices: seq<Voice>, uri: string): (r: Option<Voice>)
    ensures r.None? <==> forall v :: v in voices ==> v.voiceURI != uri
    ensures r.Some? ==> exists i :: 0 <= i < |voices| && voices[i] == r.value && r.value.voiceURI == uri
                                    && forall j :: 0 <= j < i ==> voices[j].voiceURI != uri
  {
    var i := FindIndexByURI(voices, uri);
    if i.Some? then Some(voices[i.value]) else None
  }

  /**
   * The manual override of `speak`: the first voice with the selected URI, kept
   * only when its lower-cased tag starts with the request's primary subtag. An
   * empty URI selects nothing (it is falsy).
   */
  function OverrideVoice(voices: seq<Voice>, settings: AppSettings): (r: Option<Voice>)
    ensures r.Some? ==> settings.selectedVoiceURI == Some(r.value.voiceURI) && r.value.voiceURI != ""
                        && r == FindByURI(voices, r.value.voiceURI)
                        && LangMatches(r.value, LangCode(settings.language))
    ensures r.None? <==>
              settings.selectedVoiceURI.None? || settings.selectedVoiceURI.value == ""
              || FindByURI(voices, settings.selectedVoiceURI.value).None?
              || !LangMatches(FindByURI(voices, settings.selectedVoiceURI.value).value, LangCode(settings.language))
  {
    assert PrimarySubtag(LanguageTag(settings.language)) == LangCode(settings.language);
    if settings.selectedVoiceURI.Some? && settings.selectedVoiceURI.value != "" then
      var found := FindByURI(voices, settings.selectedVoiceURI.value);
      if found.Some? && StartsWith(ToLower(found.value.lang), PrimarySubtag(LanguageTag(settings.language)))
      then found
      else None
    else
      None
  }

  /** The voice `speak` hands to the engine: a valid override, otherwise automatic selection. */
  function ChooseVoice(voices: seq<Voice>, settings: AppSettings): (r: Option<Voice>)
    ensures r.Some? ==> r.value in voices
    ensures r.Some? ==> LangMatches(r.value, LangCode(settings.language))
                        || (settings.language == Hindi && NameMentionsHindi(r.value))
    ensures r.None? ==> GetBestVoice(voices, settings.language, settings.gender).None?
  {
    var o := OverrideVoice(voices, settings);
    assert PrimarySubtag(LanguageTag(settings.language)) == LangCode(settings.language);
    if o.Some? then o else GetBestVoice(voices, settings.language, settings.gender)
  }

  /** A valid override wins: the first voice with the URI, when it speaks the language, is used. */
  lemma OverrideHonoured(voices: seq<Voice>, settings: AppSettings, i: nat)
    requires settings.selectedVoiceURI.Some? && settings.selectedVoiceURI.value != ""
    requires i < |voices| && voices[i].voiceURI == settings.selectedVoiceURI.value
    requires forall j :: 0 <= j < i ==> voices[j].voiceURI != settings.selectedVoiceURI.value
    requires LangMatches(voices[i], LangCode(settings.language))
    ensures ChooseVoice(voices, settings) == Some(voices[i])
  {
    var found := FindByURI(voices, settings.selectedVoiceURI.value);
    var i' :| 0 <= i' < |voices| && voices[i'] == found.value
              && found.value.voiceURI == settings.selectedVoiceURI.value
              && forall j :: 0 <= j < i' ==> voices[j].voiceURI != settings.selectedVoiceURI.value;
    assert i' == i;
    assert PrimarySubtag(LanguageTag(settings.language)) == LangCode(settings.language);
  }

  /**
   * An override that names no voice, or whose first voice with that URI speaks
   * another language, is ignored: automatic selection decides.
   */
  lemma OverrideIgnored(voices: seq<Voice>, settings: AppSettings)
    requires settings.selectedVoiceURI.Some?
    requires forall i :: 0 <= i < |voices| && voices[i].voiceURI == settings.selectedVoiceURI.value ==>
               !LangMatches(voices[i], LangCode(settings.language))
               || exists j :: 0 <= j < i && voices[j].voiceURI == settings.selectedVoiceURI.value
    ensures ChooseVoice(voices, settings) == GetBestVoice(voices, settings.language, settings.gender)
  {
    var uri := settings.selectedVoiceURI.value;
    var found := FindByURI(voices, uri);
    assert PrimarySubtag(LanguageTag(settings.language)) == LangCode(settings.language);
    if uri != "" && found.Some? {
      var i :| 0 <= i < |voices| && voices[i] == found.value && found.value.voiceURI == uri
               && forall j :: 0 <= j < i ==> voices[j].voiceURI != uri;
      assert !LangMatches(voices[i], LangCode(settings.language));
    }
  }

  /** A `SpeechSynthesisUtterance` as `speak` configures it. */
  datatype Utterance = Utterance(
    text: string, rate: real, pitch: real, volume: real, lang: string, voice: Option<Voice>)

  /**
   * The utterance `speak` builds: rate, pitch and volume passed through, the
   * chosen voice, and the chosen voice's tag (the requested tag without one).
   */
  function BuildUtterance(text: string, settings: AppSettings, voices: seq<Voice>): (u: Utterance)
    ensures u.text == text && u.rate == settings.rate && u.pitch == settings.pitch
            && u.volume == settings.volume
    ensures u.voice == ChooseVoice(voices, settings)
    ensures u.voice.None? ==> u.lang == LanguageTag(settings.language)
    ensures u.voice.Some? ==> u.lang == u.voice.value.lang
  {
    var voice := ChooseVoice(voices, settings);
    Utterance(text, settings.rate, settings.pitch, settings.volume,
              if voice.Some? then voice.value.lang else LanguageTag(settings.language), voice)
  }

  /**
   * The utterance's tag always starts with the requested primary subtag, except
   * for a Hindi request served by the name-based fallback voice.
   */
  lemma UtteranceSpeaksRequestedLanguage(text: string, settings: AppSettings, voices: seq<Voice>)
    ensures var u := BuildUtterance(text, settings, voices);
            StartsWith(ToLower(u.lang), LangCode(settings.language))
            || (settings.language == Hindi && u.voice.Some? && NameMentionsHindi(u.voice.value))
  {
    var tag := LanguageTag(settings.language);
    assert ToLower(tag)[..2] == LangCode(settings.language);
  }

  datatype EngineEvent = CancelCall | SpeakCall(utterance: Utterance)

  /** Every utterance handed to the engine directly follows a cancellation. */
  ghost predicate CancelsBeforeSpeaks(log: seq<EngineEvent>)
  {
    forall i :: 0 <= i < |log| && log[i].SpeakCall? ==> 0 < i && log[i - 1].CancelCall?
  }

  lemma AppendCancel(log: seq<EngineEvent>)
    requires CancelsBeforeSpeaks(log)
    ensures CancelsBeforeSpeaks(log + [CancelCall])
  {
    var log' := log + [CancelCall];
    assert forall i :: 0 <= i < |log| ==> log'[i] == log[i];
  }

  lemma AppendSpeakAfterCancel(log: seq<EngineEvent>, u: Utterance)
    requires CancelsBeforeSpeaks(log) && log != [] && log[|log| - 1].CancelCall?
    ensures CancelsBeforeSpeaks(log + [SpeakCall(u)])
  {
    var log' := log + [SpeakCall(u)];
    assert forall i :: 0 <= i < |log| ==> log'[i] == log[i];
  }

  /** A subscribed callback, identified by reference. */
  type ListenerId = nat

  class SpeechService {
    var voices: seq<Voice>
    var listeners: seq<ListenerId>
    /** The calls made on the speech engine, oldest first. */
    var engine: seq<EngineEvent>
    /** The listener invocations, oldest first. */
    var notified: seq<ListenerId>

    ghost predicate Valid()
      reads this
    {
      CancelsBeforeSpeaks(engine)
    }

    /** The constructor loads the platform's voices once. */
    constructor (platform: seq<Voice>)
      ensures Valid()
      ensures voices == platform && listeners == [] && engine == [] && notified == []
    {
      voices, listeners, engine, notified := [], [], [], [];
      new;
      PopulateVoices(platform);
    }

    /** `populateVoices`: replaces the voice list, then notifies every listener. */
    method PopulateVoices(platform: seq<Voice>)
      modifies this
      ensures voices == platform
      ensures notified == old(notified) + listeners
      ensures listeners == old(listeners) && engine == old(engine)
    {
      voices := platform;
      NotifyListeners();
    }

    /** `notifyListeners`: calls each listener once, in subscription order. */
    method NotifyListeners()
      modifies this
      ensures notified == old(notified) + listeners
      ensures voices == old(voices) && listeners == old(listeners) && engine == old(engine)
    {
      var i := 0;
      while i < |listeners|
        invariant 0 <= i <= |listeners|
        invariant notified == old(notified) + listeners[..i]
        invariant voices == old(voices) && listeners == old(listeners) && engine == old(engine)
      {
        notified := notified + [listeners[i]];
        i := i + 1;
      }
    }

    /** `subscribe`: appends the listener. */
    method Subscribe(listener: ListenerId)
      modifies this
      ensures listeners == old(listeners) + [listener]
      ensures voices == old(voices) && engine == old(engine) && notified == old(notified)
    {
      listeners := listeners + [listener];
    }

    /** The function `subscribe` returns: drops every entry equal to the listener. */
    method Unsubscribe(listener: ListenerId)
      modifies this
      ensures listeners == Filter(old(listeners), (l: ListenerId) => l != listener)
      ensures forall l :: l in listeners <==> l in old(listeners) && l != listener
      ensures forall l :: multiset(listeners)[l] == if l == listener then 0 else multiset(old(listeners))[l]
      ensures IsSubsequence(listeners, old(listeners))
      ensures voices == old(voices) && engine == old(engine) && notified == old(notified)
    {
      FilterCounts(listeners, (l: ListenerId) => l != listener);
      listeners := Filter(listeners, (l: ListenerId) => l != listener);
    }

    /**
     * `speak`: reloads the voices when none are known, cancels the current
     * utterance, then enqueues exactly one new utterance.
     */
    method Speak(text: string, settings: AppSettings, platform: seq<Voice>)
      requires Valid()
      modifies this
      ensures Valid()
      ensures voices == if old(voices) == [] then platform else old(voices)
      ensures notified == if old(voices) == [] then old(notified) + listeners else old(notified)
      ensures listeners == old(listeners)
      ensures engine == old(engine) + [CancelCall, SpeakCall(BuildUtterance(text, settings, voices))]
    {
      if |voices| == 0 {
        PopulateVoices(platform);
      }
      ghost var before := engine;
      AppendCancel(engine);
      engine := engine + [CancelCall];
      var utterance := PrepareUtterance(text, settings);
      AppendSpeakAfterCancel(engine, utterance);
      engine := engine + [SpeakCall(utterance)];
      assert engine == before + [CancelCall, SpeakCall(utterance)];
    }

    /**
     * The utterance set-up of `speak`: rate, pitch, volume and the requested tag,
     * then the voice (a valid manual override, otherwise the best voice) and its tag.
     */
    method PrepareUtterance(text: string, settings: AppSettings) returns (utterance: Utterance)
      ensures utterance == BuildUtterance(text, settings, voices)
    {
      utterance := Utterance(text, settings.rate, settings.pitch, settings.volume,
                             LanguageTag(settings.language), None);
      var voice: Option<Voice> := None;
      if settings.selectedVoiceURI.Some? && settings.selectedVoiceURI.value != "" {
        voice := FindByURI(voices, settings.selectedVoiceURI.value);
        if voice.Some? && !StartsWith(ToLower(voice.value.lang), PrimarySubtag(LanguageTag(settings.language))) {
          voice := None;
        }
      }
      assert voice == OverrideVoice(voices, settings);
      if voice.None? {
        voice := GetBestVoice(voices, settings.language, settings.gender);
      }
      if voice.Some? {
        utterance := utterance.(voice := voice, lang := voice.value.lang);
      }
    }

    /** `stop`: cancels the current utterance. */
    method Stop()
      requires Valid()
      modifies this
      ensures Valid()
      ensures engine == old(engine) + [CancelCall]
      ensures voices == old(voices) && listeners == old(listeners) && notified == old(notified)
    {
      AppendCancel(engine);
      engine := engine + [CancelCall];
    }
  }
}
