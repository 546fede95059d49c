/**
 * The settings panel (components/SettingsPanel.tsx): which voices the picker
 * lists, and how each control rewrites the settings record.
 */
module SettingsPanel {
  import opened Types
  import opened Seqs
  import opened SpeechService

  /** The picker's test: the voice's tag starts with the language code, or, for Hindi, its name mentions "hindi". */
  predicate Listed(v: Voice, lang: Language)
  {
    LangMatches(v, LangCode(lang)) || (lang == Hindi && NameMentionsHindi(v))
  }

  /** `filteredVoices`: the available voices the picker offers, in the order the platform gave them. */
  function FilteredVoices(available: seq<Voice>, lang: Language): (r: seq<Voice>)
    ensures forall v :: v in r <==>
              v in available && (LangMatches(v, LangCode(lang)) || (lang == Hindi && NameMentionsHindi(v)))
    ensures forall v :: multiset(r)[v] == if Listed(v, lang) then multiset(available)[v] else 0
    ensures IsSubsequence(r, available)
  {
    var listed := (v: Voice) => Listed(v, lang);
    FilterCounts(available, listed);
    Filter(available, listed)
  }

  /** Every voice the automatic choice considers is offered by the picker; for English the two lists agree. */
  lemma CandidatesAreListed(voices: seq<Voice>, lang: Language)
    ensures forall v :: v in Candidates(voices, lang) ==> v in FilteredVoices(voices, lang)
    ensures lang == English ==>
              forall v :: v in Candidates(voices, lang) <==> v in FilteredVoices(voices, lang)
  {
  }

  /**
   * For Hindi the picker also lists voices named "hindi" that carry another
   * tag, even when tagged Hindi voices exist and the automatic choice would
   * never consider them.
   */
  lemma HindiNamesListedAlongside(voices: seq<Voice>, v: Voice, w: Voice)
    requires v in voices && NameMentionsHindi(v) && !LangMatches(v, LangCode(Hindi))
    requires w in voices && LangMatches(w, LangCode(Hindi))
    ensures v in FilteredVoices(voices, Hindi)
    ensures v !in Candidates(voices, Hindi)
  {
  }

  /** The voice speech would use for these settings is always one the picker offers. */
  lemma ChosenVoiceIsListed(voices: seq<Voice>, settings: AppSettings)
    requires ChooseVoice(voices, settings).Some?
    ensures ChooseVoice(voices, settings).value in FilteredVoices(voices, settings.language)
  {
  }

  // ---- `handleChange(key, value)` ----

  /** The keys of the settings record. */
  datatype Field =
    | LanguageField | GenderField | RateField | PitchField | VolumeField | HighContrastField
    | TextSizeField | SelectedVoiceField | PrivacyField | SignGenerationField

  /** A key together with a value of that key's type. */
  datatype SettingChange =
    | SetLanguage(language: Language)
    | SetGender(gender: Gender)
    | SetRate(rate: real)
    | SetPitch(pitch: real)
    | SetVolume(volume: real)
    | SetHighContrast(highContrast: bool)
    | SetTextSize(textSize: TextSize)
    | SetSelectedVoice(voiceURI: Option<string>)
    | SetPrivacy(privacy: bool)
    | SetSignGeneration(signGeneration: bool)

  function FieldOf(c: SettingChange): Field
  {
    match c
    case SetLanguage(_) => LanguageField
    case SetGender(_) => GenderField
    case SetRate(_) => RateField
    case SetPitch(_) => PitchField
    case SetVolume(_) => VolumeField
    case SetHighContrast(_) => HighContrastField
    case SetTextSize(_) => TextSizeField
    case SetSelectedVoice(_) => SelectedVoiceField
    case SetPrivacy(_) => PrivacyField
    case SetSignGeneration(_) => SignGenerationField
  }

  /** The current value of field `f`, as the change that would set it. */
  function Read(s: AppSettings, f: Field): (c: SettingChange)
    ensures FieldOf(c) == f
  {
    match f
    case LanguageField => SetLanguage(s.language)
    case GenderField => SetGender(s.gender)
    case RateField => SetRate(s.rate)
    case PitchField => SetPitch(s.pitch)
    case VolumeField => SetVolume(s.volume)
    case HighContrastField => SetHighContrast(s.highContrast)
    case TextSizeField => SetTextSize(s.textSize)
    case SelectedVoiceField => SetSelectedVoice(s.selectedVoiceURI)
    case PrivacyField => SetPrivacy(s.privacyEnabled)
    case SignGenerationField => SetSignGeneration(s.signGenerationEnabled)
  }

  /** Two settings records with the same value in every field are the same record. */
  lemma ReadDetermines(s: AppSettings, t: AppSettings)
    requires forall f :: Read(s, f) == Read(t, f)
    ensures s == t
  {
    assert Read(s, LanguageField) == Read(t, LanguageField);
    assert Read(s, GenderField) == Read(t, GenderField);
    assert Read(s, RateField) == Read(t, RateField);
    assert Read(s, PitchField) == Read(t, PitchField);
    assert Read(s, VolumeField) == Read(t, VolumeField);
    assert Read(s, HighContrastField) == Read(t, HighContrastField);
    assert Read(s, TextSizeField) == Read(t, TextSizeField);
    assert Read(s, SelectedVoiceField) == Read(t, SelectedVoiceField);
    assert Read(s, PrivacyField) == Read(t, PrivacyField);
    assert Read(s, SignGenerationField) == Read(t, SignGenerationField);
  }

  /** One control's change: the named field takes the value, every other field keeps its own. */
  function HandleChange(s: AppSettings, c: SettingChange): (r: AppSettings)
    ensures Read(r, FieldOf(c)) == c
    ensures forall f :: f != FieldOf(c) ==> Read(r, f) == Read(s, f)
  {
    match c
    case SetLanguage(v) => s.(language := v)
    case SetGender(v) => s.(gender := v)
    case SetRate(v) => s.(rate := v)
    case SetPitch(v) => s.(pitch := v)
    case SetVolume(v) => s.(volume := v)
    case SetHighContrast(v) => s.(highContrast := v)
    case SetTextSize(v) => s.(textSize := v)
    case SetSelectedVoice(v) => s.(selectedVoiceURI := v)
    case SetPrivacy(v) => s.(privacyEnabled := v)
    case SetSignGeneration(v) => s.(signGenerationEnabled := v)
  }

  /** Writing a field's own value back changes nothing. */
  lemma WriteBackIsIdentity(s: AppSettings, f: Field)
    ensures HandleChange(s, Read(s, f)) == s
  {
    var r := HandleChange(s, Read(s, f));
    forall g ensures Read(r, g) == Read(s, g) {
    }
    ReadDetermines(r, s);
  }

  /** Changes to two different fields can be made in either order. */
  lemma ChangesCommute(s: AppSettings, c: SettingChange, d: SettingChange)
    requires FieldOf(c) != FieldOf(d)
    ensures HandleChange(HandleChange(s, c), d) == HandleChange(HandleChange(s, d), c)
  {
    var sc, sd := HandleChange(s, c), HandleChange(s, d);
    var l, r := HandleChange(sc, d), HandleChange(sd, c);
    forall g ensures Read(l, g) == Read(r, g) {
      if g == FieldOf(c) {
        assert Read(l, g) == Read(sc, g) == c == Read(r, g);
      } else if g == FieldOf(d) {
        assert Read(l, g) == d == Read(sd, g) == Read(r, g);
      } else {
        assert Read(l, g) == Read(sc, g) == Read(s, g) == Read(sd, g) == Read(r, g);
      }
    }
    ReadDetermines(l, r);
  }

  /** A later change to the same field overrides an earlier one. */
  lemma LastChangeWins(s: AppSettings, c: SettingChange, d: SettingChange)
    requires FieldOf(c) == FieldOf(d)
    ensures HandleChange(HandleChange(s, c), d) == HandleChange(s, d)
  {
    var l := HandleChange(HandleChange(s, c), d);
    var r := HandleChange(s, d);
    forall g ensures Read(l, g) == Read(r, g) {
    }
    ReadDetermines(l, r);
  }

  // ---- The controls ----

  /** The Sign Visualization switch. */
  function ToggleSignGeneration(s: AppSettings): (r: AppSettings)
    ensures r.signGenerationEnabled == !s.signGenerationEnabled
    ensures forall f :: f != SignGenerationField ==> Read(r, f) == Read(s, f)
  {
    HandleChange(s, SetSignGeneration(!s.signGenerationEnabled))
  }

  /** The On-Device Privacy Mode switch. */
  function TogglePrivacy(s: AppSettings): (r: AppSettings)
    ensures r.privacyEnabled == !s.privacyEnabled
    ensures forall f :: f != PrivacyField ==> Read(r, f) == Read(s, f)
  {
    HandleChange(s, SetPrivacy(!s.privacyEnabled))
  }

  /** The High Contrast switch. */
  function ToggleHighContrast(s: AppSettings): (r: AppSettings)
    ensures r.highContrast == !s.highContrast
    ensures forall f :: f != HighContrastField ==> Read(r, f) == Read(s, f)
  {
    HandleChange(s, SetHighContrast(!s.highContrast))
  }

  /** Flipping a switch twice restores the settings. */
  lemma TogglesAreInvolutions(s: AppSettings)
    ensures ToggleSignGeneration(ToggleSignGeneration(s)) == s
    ensures TogglePrivacy(TogglePrivacy(s)) == s
    ensures ToggleHighContrast(ToggleHighContrast(s)) == s
  {
  }

  /** The entry the voice picker shows: the stored URI, or the Auto-detect entry (the empty value) when none is stored. */
  function SelectValue(uri: Option<string>): string
  {
    if uri.Some? then uri.value else ""
  }

  /** The voice a picked entry stores: the Auto-detect option (the empty value) stores no voice. */
  function VoiceChoice(value: string): (r: Option<string>)
    ensures r.None? <==> value == ""
    ensures r.Some? ==> r.value == value
  {
    if value == "" then None else Some(value)
  }

  /** Choosing an entry of the voice picker. */
  function SelectVoice(s: AppSettings, value: string): (r: AppSettings)
    ensures r.selectedVoiceURI == VoiceChoice(value)
    ensures forall f :: f != SelectedVoiceField ==> Read(r, f) == Read(s, f)
  {
    HandleChange(s, SetSelectedVoice(VoiceChoice(value)))
  }

  /**
   * The picker and the stored setting agree: what is shown is what was chosen,
   * and re-choosing the shown entry keeps the setting, except that a stored
   * empty URI reads back as no voice.
   */
  lemma PickerRoundTrip(value: string, uri: Option<string>)
    ensures SelectValue(VoiceChoice(value)) == value
    ensures uri != Some("") ==> VoiceChoice(SelectValue(uri)) == uri
    ensures VoiceChoice(SelectValue(Some(""))) == None
  {
  }
}
