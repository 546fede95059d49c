/** Value types shared by the whole application (types.ts). */
module Types {

  datatype Option<+T> = None | Some(value: T)

  /** The two interface languages; each stands for a BCP 47 tag. */
  datatype Language = English | Hindi

  /** The tag string behind each enum member ('en-US', 'hi-IN'). */
  function LanguageTag(lang: Language): string
  {
    match lang
    case English => "en-US"
    case Hindi => "hi-IN"
  }

  /** The voice persona the user chose ('male' | 'female'). */
  datatype Gender = Male | Female

  datatype TextSize = Normal | Large | Extra

  /**
   * Speech and display settings. `selectedVoiceURI` is optional and nullable in
   * the application; both absent forms are `None` here. Rate, pitch and volume
   * are the engine's floating-point parameters, modelled as reals.
   */
  datatype AppSettings = AppSettings(
    language: Language,
    gender: Gender,
    rate: real,
    pitch: real,
    volume: real,
    highContrast: bool,
    textSize: TextSize,
    selectedVoiceURI: Option<string>,
    privacyEnabled: bool,
    signGenerationEnabled: bool)

  datatype SoundProfile = Happy | Sad | Neutral | Alert | Question | Social

  /** One tile of the symbol board. */
  datatype PhraseData = PhraseData(
    id: string,
    labelText: string,  // the source field `label` (a Dafny keyword)
    phraseEn: string,
    phraseEnFemale: Option<string>,
    phraseHi: string,
    phraseHiFemale: Option<string>,
    emoji: string,
    bgColor: string,
    soundProfile: Option<SoundProfile>)

  datatype Sender = User | Partner

  /** The message's `type` field ('text' | 'sign' | 'voice'). */
  datatype MessageKind = TextMessage | SignMessage | VoiceMessage

  /** One entry of the conversation log; `timestamp` is milliseconds since the epoch. */
  datatype ConversationMessage = ConversationMessage(
    id: string,
    text: string,
    sender: Sender,
    timestamp: int,
    kind: MessageKind,
    signImageUrl: Option<string>)
}
