/**
 * The application shell's state updates (App.tsx): the bounded conversation
 * log, the most-recently-used phrase list, onboarding completion, the header
 * language toggle, and which partner message drives the sign generator.
 * Every update builds a new value, as the React state setters do.
 */
module App {
  import opened Types
  import opened Seqs
  import LandingPage

  /** Adding a message keeps the 15 most recent old ones, so the log holds at most 16. */
  const KeptMessages: nat := 15
  const LogCap: nat := 16

  /** The recents list holds at most 12 phrases. */
  const RecentsCap: nat := 12

  /** The shell state this model tracks; persistence and rendering are outside it. */
  datatype Shell = Shell(
    settings: AppSettings,
    userName: string,
    onboarding: bool,
    recents: seq<PhraseData>,
    messages: seq<ConversationMessage>)

  // ---- The conversation log ----

  /**
   * Appending a message to the log: the new message comes last,
   * after the most recent 15 messages, in their order.
   */
  function AddMessage(log: seq<ConversationMessage>, m: ConversationMessage): (r: seq<ConversationMessage>)
    ensures |r| <= LogCap && |r| == (if |log| < KeptMessages then |log| else KeptMessages) + 1
    ensures r[|r| - 1] == m
    ensures r[..|r| - 1] == log[|log| - (|r| - 1)..]
  {
    LastN(log, KeptMessages) + [m]
  }

  /** The log after adding `ms` one by one. */
  function AddAll(log: seq<ConversationMessage>, ms: seq<ConversationMessage>): seq<ConversationMessage>
  {
    if ms == [] then log else AddMessage(AddAll(log, ms[..|ms| - 1]), ms[|ms| - 1])
  }

  /** However many messages arrive, the log is exactly the last 16 of everything said. */
  lemma {:induction false} LogIsLastSixteen(log: seq<ConversationMessage>, ms: seq<ConversationMessage>)
    requires |log| <= LogCap
    ensures AddAll(log, ms) == LastN(log + ms, LogCap)
    decreases |ms|
  {
    if ms != [] {
      var init := ms[..|ms| - 1];
      var m := ms[|ms| - 1];
      LogIsLastSixteen(log, init);
      var prev := log + init;
      assert log + ms == prev + [m];
      LastNOfLastN(prev, LogCap, KeptMessages);
      LastNAppend(prev, m, KeptMessages);
      calc {
        AddAll(log, ms);
        AddMessage(AddAll(log, init), m);
        AddMessage(LastN(prev, LogCap), m);
        LastN(LastN(prev, LogCap), KeptMessages) + [m];
        LastN(prev, KeptMessages) + [m];
        LastN(log + ms, LogCap);
      }
    } else {
      assert log + ms == log;
    }
  }

  /** `addMessage(text, sender, type)` with the message id and the clock reading passed in. */
  function Say(log: seq<ConversationMessage>, id: string, text: string, sender: Sender, kind: MessageKind, now: int)
    : (r: seq<ConversationMessage>)
    ensures 1 <= |r| <= LogCap
    ensures var m := r[|r| - 1];
            m.id == id && m.text == text && m.sender == sender && m.timestamp == now && m.kind == kind
            && m.signImageUrl.None?
    ensures r[..|r| - 1] == LastN(log, KeptMessages)
  {
    AddMessage(log, ConversationMessage(id, text, sender, now, kind, None))
  }

  /** The latest message from the partner, if there is one. */
  function LastPartnerMessage(log: seq<ConversationMessage>): (r: Option<ConversationMessage>)
    ensures r.None? <==> forall m :: m in log ==> m.sender != Partner
    ensures r.Some? ==> exists i :: 0 <= i < |log| && log[i] == r.value && r.value.sender == Partner
                                    && forall j :: i < j < |log| ==> log[j].sender != Partner
  {
    var fromPartner := (m: ConversationMessage) => m.sender == Partner;
    var partner := Filter(log, fromPartner);
    if partner == [] then None else FilterLast(log, fromPartner); Some(partner[|partner| - 1])
  }

  /** The partner's new message is the one the sign generator shows. */
  lemma PartnerReplyIsShown(log: seq<ConversationMessage>, id: string, text: string, now: int)
    ensures LastPartnerMessage(Say(log, id, text, Partner, VoiceMessage, now))
            == Some(ConversationMessage(id, text, Partner, now, VoiceMessage, None))
  {
    var r := Say(log, id, text, Partner, VoiceMessage, now);
    var m := r[|r| - 1];
    var last := LastPartnerMessage(r);
    assert m in r;
    var i :| 0 <= i < |r| && r[i] == last.value && last.value.sender == Partner
             && forall j :: i < j < |r| ==> r[j].sender != Partner;
    assert i == |r| - 1;
  }

  /**
   * A message from the user never changes which partner message is shown,
   * unless it pushes every partner message out of the log.
   */
  lemma UserMessageKeepsPartnerMessage(log: seq<ConversationMessage>, m: ConversationMessage)
    requires m.sender == User
    ensures var after := LastPartnerMessage(AddMessage(log, m));
            after == LastPartnerMessage(log) || after.None?
    ensures |log| < LogCap ==> LastPartnerMessage(AddMessage(log, m)) == LastPartnerMessage(log)
  {
    var fromPartner := (x: ConversationMessage) => x.sender == Partner;
    var k := |log| - |LastN(log, KeptMessages)|;
    assert log == log[..k] + LastN(log, KeptMessages);
    FilterAppend(log[..k], LastN(log, KeptMessages), fromPartner);
    FilterAppend(LastN(log, KeptMessages), [m], fromPartner);
    assert Filter([m], fromPartner) == [];
    var whole := Filter(log, fromPartner);
    var kept := Filter(LastN(log, KeptMessages), fromPartner);
    assert Filter(AddMessage(log, m), fromPartner) == kept;
    if kept != [] {
      assert whole[|whole| - 1] == kept[|kept| - 1];
    }
  }

  // ---- Recently used phrases ----

  predicate UniqueIds(s: seq<PhraseData>)
  {
    forall i, j :: 0 <= i < j < |s| ==> s[i].id != s[j].id
  }

  /** The list without any phrase carrying `id`. */
  function WithoutId(recents: seq<PhraseData>, id: string): (r: seq<PhraseData>)
    ensures forall q :: q in r <==> q in recents && q.id != id
    ensures IsSubsequence(r, recents)
  {
    Filter(recents, (q: PhraseData) => q.id != id)
  }

  /** Dropping elements keeps ids distinct. */
  lemma {:induction false} SubsequenceUnique(r: seq<PhraseData>, s: seq<PhraseData>)
    requires IsSubsequence(r, s) && UniqueIds(s)
    ensures UniqueIds(r)
    decreases |s|
  {
    if r != [] {
      assert UniqueIds(s[1..]);
      if r[0] == s[0] && IsSubsequence(r[1..], s[1..]) {
        SubsequenceUnique(r[1..], s[1..]);
        SubsequenceMembers(r[1..], s[1..]);
        forall i, j | 0 <= i < j < |r| ensures r[i].id != r[j].id {
          assert r[j] == r[1..][j - 1];
          if i > 0 {
            assert r[i] == r[1..][i - 1];
          } else {
            assert r[j] in r[1..];
            var k :| 0 <= k < |s[1..]| && s[1..][k] == r[j];
            assert s[k + 1] == r[j];
          }
        }
      } else {
        SubsequenceUnique(r, s[1..]);
      }
    }
  }

  /**
   * Recording a click in the recents list: the
   * clicked phrase moves to the front, any older copy of it goes, and the list
   * is capped.
   */
  function RecordRecent(recents: seq<PhraseData>, phrase: PhraseData): (r: seq<PhraseData>)
    ensures 1 <= |r| <= RecentsCap && r[0] == phrase
    ensures |r| == if |WithoutId(recents, phrase.id)| < RecentsCap then 1 + |WithoutId(recents, phrase.id)|
                   else RecentsCap
    ensures r[1..] == WithoutId(recents, phrase.id)[..|r| - 1]
  {
    Take([phrase] + WithoutId(recents, phrase.id), RecentsCap)
  }

  /**
   * The phrases behind the clicked one are older recents with other ids, in
   * their old order; none is lost unless the cap cuts it off, and at the cap
   * the kept ones are the 11 most recent, the front of the old list.
   */
  lemma RecordRecentKeepsOrder(recents: seq<PhraseData>, phrase: PhraseData)
    ensures var r := RecordRecent(recents, phrase);
            (forall q :: q in r[1..] ==> q in recents && q.id != phrase.id)
            && IsSubsequence(r[1..], recents)
            && (|WithoutId(recents, phrase.id)| < RecentsCap ==>
                  forall q :: q in recents && q.id != phrase.id ==> q in r)
            && (|WithoutId(recents, phrase.id)| >= RecentsCap ==>
                  |r| == RecentsCap && r[1..] == WithoutId(recents, phrase.id)[..RecentsCap - 1])
  {
    var others := WithoutId(recents, phrase.id);
    var r := RecordRecent(recents, phrase);
    assert r[1..] == others[..|r| - 1];
    PrefixSubsequence(others, recents, |r| - 1);
    SubsequenceMembers(r[1..], recents);
    if |others| < RecentsCap {
      assert r == [phrase] + others;
      assert forall q :: q in others ==> q in r;
    }
  }

  /** Recording a phrase keeps ids distinct. */
  lemma RecordRecentKeepsUnique(recents: seq<PhraseData>, phrase: PhraseData)
    requires UniqueIds(recents)
    ensures UniqueIds(RecordRecent(recents, phrase))
  {
    var others := WithoutId(recents, phrase.id);
    var r := RecordRecent(recents, phrase);
    assert r[1..] == others[..|r| - 1];
    SubsequenceUnique(others, recents);
    forall i, j | 0 <= i < j < |r| ensures r[i].id != r[j].id {
      assert r[j] == others[j - 1];
      if i > 0 {
        assert r[i] == others[i - 1];
      } else {
        assert others[j - 1] in others;
      }
    }
  }

  /** The list built by clicking `clicks` in order. */
  function RecordAll(recents: seq<PhraseData>, clicks: seq<PhraseData>): seq<PhraseData>
  {
    if clicks == [] then recents else RecordRecent(RecordAll(recents, clicks[..|clicks| - 1]), clicks[|clicks| - 1])
  }

  /** Starting from the empty list, no two recents ever share an id, and the list stays within the cap. */
  lemma {:induction false} RecentsStayUnique(clicks: seq<PhraseData>)
    ensures UniqueIds(RecordAll([], clicks)) && |RecordAll([], clicks)| <= RecentsCap
    decreases |clicks|
  {
    if clicks != [] {
      RecentsStayUnique(clicks[..|clicks| - 1]);
      RecordRecentKeepsUnique(RecordAll([], clicks[..|clicks| - 1]), clicks[|clicks| - 1]);
    }
  }

  /** Clicking the phrase already in front changes nothing (when ids are distinct). */
  lemma ClickingFrontAgain(recents: seq<PhraseData>, phrase: PhraseData)
    requires UniqueIds(recents) && recents != [] && recents[0] == phrase && |recents| <= RecentsCap
    ensures RecordRecent(recents, phrase) == recents
  {
    var others := WithoutId(recents, phrase.id);
    FilterOthersOfFront(recents, phrase.id);
    assert [phrase] + others == recents;
  }

  /** With distinct ids, filtering out the front's id leaves the tail. */
  lemma FilterOthersOfFront(recents: seq<PhraseData>, id: string)
    requires UniqueIds(recents) && recents != [] && recents[0].id == id
    ensures WithoutId(recents, id) == recents[1..]
  {
    var p := (q: PhraseData) => q.id != id;
    assert recents == [recents[0]] + recents[1..];
    FilterAppend([recents[0]], recents[1..], p);
    assert Filter([recents[0]], p) == [];
    FilterKeepsAll(recents[1..], p);
  }

  /** Filtering by a test every element passes keeps the sequence. */
  lemma {:induction false} FilterKeepsAll(s: seq<PhraseData>, p: PhraseData -> bool)
    requires forall i :: 0 <= i < |s| ==> p(s[i])
    ensures Filter(s, p) == s
    decreases |s|
  {
    if s != [] {
      FilterKeepsAll(s[1..], p);
    }
  }

  /** The phrase's text in the interface language (the gendered variants are not used here). */
  function PhraseText(settings: AppSettings, phrase: PhraseData): string
  {
    if settings.language == Hindi then phrase.phraseHi else phrase.phraseEn
  }

  /** `handlePhraseClick(phrase)`: record it as recent and log it as the user's spoken message. */
  function HandlePhraseClick(s: Shell, phrase: PhraseData, id: string, now: int): (r: Shell)
    ensures r.settings == s.settings && r.userName == s.userName && r.onboarding == s.onboarding
    ensures r.recents == RecordRecent(s.recents, phrase)
    ensures r.messages == Say(s.messages, id, PhraseText(s.settings, phrase), User, VoiceMessage, now)
    ensures 1 <= |r.recents| <= RecentsCap && r.recents[0] == phrase
    ensures 1 <= |r.messages| <= LogCap
    ensures var m := r.messages[|r.messages| - 1];
            m.sender == User && m.kind == VoiceMessage && m.timestamp == now
            && m.text == (if s.settings.language == Hindi then phrase.phraseHi else phrase.phraseEn)
  {
    s.(recents := RecordRecent(s.recents, phrase),
       messages := Say(s.messages, id, PhraseText(s.settings, phrase), User, VoiceMessage, now))
  }

  // ---- Settings ----

  /** `handleOnboardingComplete`: take the chosen language and voice gender, keep every other setting. */
  function CompleteOnboarding(s: Shell, data: LandingPage.OnboardingData): (r: Shell)
    ensures r.settings.language == data.language && r.settings.gender == data.gender
    ensures r.settings.(language := s.settings.language, gender := s.settings.gender) == s.settings
    ensures r.userName == data.name && !r.onboarding
    ensures r.recents == s.recents && r.messages == s.messages
  {
    s.(settings := s.settings.(language := data.language, gender := data.gender),
       userName := data.name,
       onboarding := false)
  }

  /** The header button: switch between English and Hindi, nothing else. */
  function ToggleLanguage(settings: AppSettings): (r: AppSettings)
    ensures r.language != settings.language
    ensures r.(language := settings.language) == settings
  {
    settings.(language := if settings.language == English then Hindi else English)
  }

  /** Pressing the toggle twice restores the settings. */
  lemma ToggleTwiceIsIdentity(settings: AppSettings)
    ensures ToggleLanguage(ToggleLanguage(settings)) == settings
  {
  }
}
