/** The per-message translate/revert toggle of the content script
    (`handleMessageDoubleClick` and its reply callback), the registry of
    original message bodies it keeps, and the target-language change that
    refreshes the indicator texts. The page is a value; every handler is a
    function from the page before to the page after. */
module MessageToggle {
  import opened Wrappers
  import opened MessageDom
  import opened UiPhrases

  /** What the content script sees of one message bubble. */
  datatype Message = Message(
    dataId: string,          // the container's `data-id`; "" when absent
    translated: bool,        // the `wt-translated` attribute
    translating: bool,       // the `wt-translating` class
    loading: nat,            // loading indicators currently shown
    badges: seq<string>,     // `wt-translated-badge` texts, in document order
    errors: seq<string>,     // `wt-error` texts, in document order
    hover: Option<string>,   // text of the hover indicator, when the bubble has one
    body: seq<Node>)         // content of the message's text element

  /** The page: the registry of original bodies keyed by message id, the
      bubbles (keyed by an opaque handle standing for the DOM node), the
      current target language and the stored phrase table. */
  datatype Page = Page(
    registry: map<string, seq<Node>>,
    messages: map<nat, Message>,
    targetLang: string,
    phraseData: Option<PhraseTable>)

  /** The `translate` message sent to the background script. */
  datatype TranslateRequest = TranslateRequest(text: string, targetLang: string)

  /** A request in flight together with what its reply callback captured. */
  datatype Pending = Pending(handle: nat, phrases: Phrases, request: TranslateRequest)

  /** The reply as the callback reads it: `response && response.success`
      with its `translation`, or anything else. */
  datatype TranslationReply = Succeeded(translation: string) | Failed

  datatype ClickOutcome = ClickOutcome(page: Page, pending: Option<Pending>)

  /** The message id: the existing `data-id`, else the synthesized one
      (`msg-` followed by a time stamp and random suffix, given here as `stamp`). */
  function MessageId(m: Message, stamp: string): (id: string)
    ensures id != ""
    ensures m.dataId != "" ==> id == m.dataId
    ensures m.dataId == "" ==> id == "msg-" + stamp
  {
    if m.dataId != "" then m.dataId else "msg-" + stamp
  }

  /** Two bubbles without a `data-id` that are given different stamps get
      different ids, so they never share a registry entry. */
  lemma {:induction false} SynthesizedIdsDiffer(m1: Message, m2: Message, stamp1: string, stamp2: string)
    requires m1.dataId == "" && m2.dataId == "" && stamp1 != stamp2
    ensures MessageId(m1, stamp1) != MessageId(m2, stamp2)
  {
    var prefix := "msg-";
    assert (prefix + stamp1)[|prefix|..] == stamp1;
    assert (prefix + stamp2)[|prefix|..] == stamp2;
  }

  /** A node that adds nothing to `innerHTML`: only an empty text node;
      every element serializes at least to its tags. */
  predicate SerializesEmpty(n: Node) {
    n.TextNode? && n.content == ""
  }

  /** `textElement.innerHTML` is truthy: some node of the snapshot serializes
      to a non-empty string. */
  predicate IsRestorable(snapshot: seq<Node>) {
    exists i :: 0 <= i < |snapshot| && !SerializesEmpty(snapshot[i])
  }

  function WithHover(hover: Option<string>, text: string): Option<string> {
    if hover.Some? then Some(text) else None
  }

  /** A double-click on message `h`. The id is fixed and written back first.
      A message marked translated is reverted from its registry entry, if the
      entry holds a non-empty snapshot (otherwise nothing else happens). Any
      other message has its body stored under the id, its text extracted and
      a translate request sent, with a loading indicator shown. */
  function OnDoubleClick(p: Page, h: nat, stamp: string): (c: ClickOutcome)
    requires h in p.messages
    ensures c.page.messages.Keys == p.messages.Keys
    ensures forall k :: k in p.messages && k != h ==> c.page.messages[k] == p.messages[k]
    ensures c.page.targetLang == p.targetLang && c.page.phraseData == p.phraseData
    ensures var m := p.messages[h];
      var id := MessageId(m, stamp);
      var m' := c.page.messages[h];
      var phrases := PhrasesFor(p.phraseData, p.targetLang);
      && m'.dataId == id
      && (!m.translated ==>
            && c.page.registry == p.registry[id := m.body]
            && c.pending == Some(Pending(h, phrases, TranslateRequest(ExtractText(m.body), p.targetLang)))
            && m' == m.(dataId := id, translating := true, loading := m.loading + 1))
      && (m.translated && id in p.registry && IsRestorable(p.registry[id]) ==>
            && c.page.registry == p.registry
            && c.pending.None?
            && m'.body == p.registry[id]
            && !m'.translated
            && m'.badges == (if |m.badges| > 0 then m.badges[1..] else [])
            && m'.hover == WithHover(m.hover, phrases.doubleClickToTranslate)
            && m'.errors == m.errors && m'.loading == m.loading && m'.translating == m.translating)
      && (m.translated && !(id in p.registry && IsRestorable(p.registry[id])) ==>
            && c.page.registry == p.registry
            && c.pending.None?
            && m' == m.(dataId := id))
  {
    var m := p.messages[h];
    var id := MessageId(m, stamp);
    var tagged := m.(dataId := id);
    var phrases := PhrasesFor(p.phraseData, p.targetLang);
    if m.translated then
      if id in p.registry && IsRestorable(p.registry[id]) then
        var reverted := tagged.(
          body := p.registry[id],
          badges := if |m.badges| > 0 then m.badges[1..] else [],
          translated := false,
          hover := WithHover(m.hover, phrases.doubleClickToTranslate));
        ClickOutcome(p.(messages := p.messages[h := reverted]), None)
      else
        ClickOutcome(p.(messages := p.messages[h := tagged]), None)
    else
      var request := TranslateRequest(ExtractText(m.body), p.targetLang);
      var sent := tagged.(translating := true, loading := m.loading + 1);
      ClickOutcome(
        p.(registry := p.registry[id := m.body], messages := p.messages[h := sent]),
        Some(Pending(h, phrases, request)))
  }

  /** The reply callback of a request. It removes its loading indicator and
      the translating class. On success the translation is applied, the
      message is marked translated (even when the translation is empty and
      the body therefore unchanged) and a badge is added; on failure one error
      indicator is added and nothing else changes. The registry is not
      touched either way. */
  function OnReply(p: Page, pending: Pending, reply: TranslationReply): (p': Page)
    requires pending.handle in p.messages
    ensures p'.registry == p.registry
    ensures p'.messages.Keys == p.messages.Keys
    ensures forall k :: k in p.messages && k != pending.handle ==> p'.messages[k] == p.messages[k]
    ensures p'.targetLang == p.targetLang && p'.phraseData == p.phraseData
    ensures var m := p.messages[pending.handle];
      var m' := p'.messages[pending.handle];
      && m'.dataId == m.dataId
      && !m'.translating
      && m'.loading == (if m.loading > 0 then m.loading - 1 else 0)
      && (reply.Succeeded? ==>
            && m'.translated
            && m'.body == ApplyTranslation(m.body, reply.translation)
            && m'.badges == m.badges + [pending.phrases.translatedTo]
            && m'.errors == m.errors
            && m'.hover == WithHover(m.hover, pending.phrases.doubleClickToRevert))
      && (reply.Failed? ==>
            && m'.translated == m.translated
            && m'.body == m.body
            && m'.badges == m.badges
            && m'.errors == m.errors + [pending.phrases.translationFailed]
            && m'.hover == m.hover)
  {
    var m := p.messages[pending.handle];
    var settled := m.(translating := false, loading := if m.loading > 0 then m.loading - 1 else 0);
    var m' := match reply
      case Succeeded(t) =>
        settled.(
          body := ApplyTranslation(m.body, t),
          translated := true,
          badges := m.badges + [pending.phrases.translatedTo],
          hover := WithHover(m.hover, pending.phrases.doubleClickToRevert))
      case Failed =>
        settled.(errors := m.errors + [pending.phrases.translationFailed]);
    p.(messages := p.messages[pending.handle := m'])
  }

  /** One message after `updateAllIndicators`: its hover indicator shows the
      phrase a double-click would choose for `lang`, every badge the new
      "Translated to" text, and nothing else changes. */
  function Refreshed(m: Message, data: PhraseTable, lang: string): (m': Message)
    ensures m'.body == m.body && m'.translated == m.translated && m'.dataId == m.dataId
    ensures m'.translating == m.translating && m'.loading == m.loading && m'.errors == m.errors
    ensures m'.hover.Some? <==> m.hover.Some?
    ensures m.hover.Some? && m.translated ==>
      m'.hover == Some(PhrasesFor(Some(data), lang).doubleClickToRevert)
    ensures m.hover.Some? && !m.translated ==>
      m'.hover == Some(PhrasesFor(Some(data), lang).doubleClickToTranslate)
    ensures |m'.badges| == |m.badges|
    ensures forall j :: 0 <= j < |m'.badges| ==> m'.badges[j] == PhrasesFor(Some(data), lang).translatedTo
  {
    RefreshAgreesWithDoubleClick(data, lang, m.translated);
    m.(hover := WithHover(m.hover, RefreshedHover(data, lang, m.translated)),
       badges := seq(|m.badges|, _ => BadgeText(data, lang)))
  }

  /** The `setTargetLanguage` message: the language changes and, when a
      phrase table is stored, every message is refreshed for the new
      language. Without a table nothing but the language changes. */
  function SetTargetLanguage(p: Page, lang: string): (p': Page)
    ensures p'.targetLang == lang
    ensures p'.registry == p.registry && p'.phraseData == p.phraseData
    ensures p'.messages.Keys == p.messages.Keys
    ensures forall k :: k in p.messages ==>
      var m := p.messages[k];
      var m' := p'.messages[k];
      && m'.body == m.body && m'.translated == m.translated && m'.dataId == m.dataId
      && m'.translating == m.translating && m'.loading == m.loading && m'.errors == m.errors
      && (m'.hover.Some? <==> m.hover.Some?)
      && |m'.badges| == |m.badges|
      && (p.phraseData.None? ==> m' == m)
      && (p.phraseData.Some? && m.translated && m.hover.Some? ==>
            m'.hover == Some(PhrasesFor(p.phraseData, lang).doubleClickToRevert))
      && (p.phraseData.Some? && !m.translated && m.hover.Some? ==>
            m'.hover == Some(PhrasesFor(p.phraseData, lang).doubleClickToTranslate))
      && (p.phraseData.Some? ==> forall j :: 0 <= j < |m'.badges| ==> m'.badges[j] == PhrasesFor(p.phraseData, lang).translatedTo)
  {
    match p.phraseData
    case None => p.(targetLang := lang)
    case Some(data) =>
      p.(targetLang := lang, messages := map k | k in p.messages :: Refreshed(p.messages[k], data, lang))
  }

  // ---------------------------------------------------------------------
  // Properties of whole interactions
  // ---------------------------------------------------------------------

  /** A message at rest: not translated and carrying no badge. */
  predicate AtRest(m: Message) {
    !m.translated && m.badges == []
  }

  /** Translate, a successful reply, then a second double-click restores the
      original body exactly, clears the translated mark and the badge, and
      keeps the registry entry. */
  lemma TranslateThenRevertRestores(p: Page, h: nat, stamp: string, translation: string, stamp2: string)
    requires h in p.messages && AtRest(p.messages[h]) && IsRestorable(p.messages[h].body)
    ensures
      var m := p.messages[h];
      var c1 := OnDoubleClick(p, h, stamp);
      c1.pending.Some? && h in c1.page.messages &&
      var p2 := OnReply(c1.page, c1.pending.value, Succeeded(translation));
      h in p2.messages && p2.messages[h].translated &&
      var c3 := OnDoubleClick(p2, h, stamp2);
      var m3 := c3.page.messages[h];
      && m3.body == m.body
      && AtRest(m3)
      && m3.errors == m.errors
      && c3.pending.None?
      && c3.page.registry[MessageId(m, stamp)] == m.body
  {
    var m := p.messages[h];
    var id := MessageId(m, stamp);
    var c1 := OnDoubleClick(p, h, stamp);
    var p2 := OnReply(c1.page, c1.pending.value, Succeeded(translation));
    assert p2.messages[h].dataId == id;
    assert MessageId(p2.messages[h], stamp2) == id;
    assert p2.registry[id] == m.body;
  }

  /** As written, a message whose body serializes to the empty string (no
      nodes, or only empty text nodes) never reverts: the revert branch treats
      its snapshot as missing, so the translation stays on the page and the
      message stays marked. */
  lemma EmptyBodyStaysTranslated(p: Page, h: nat, stamp: string, translation: string, stamp2: string)
    requires h in p.messages && AtRest(p.messages[h])
    requires forall i :: 0 <= i < |p.messages[h].body| ==> SerializesEmpty(p.messages[h].body[i])
    requires translation != ""
    ensures
      var c1 := OnDoubleClick(p, h, stamp);
      c1.pending.Some? && h in c1.page.messages &&
      var p2 := OnReply(c1.page, c1.pending.value, Succeeded(translation));
      h in p2.messages &&
      var c3 := OnDoubleClick(p2, h, stamp2);
      && c3.page.messages[h].translated
      && c3.page.messages[h].body == [TextNode(translation)]
  {
    var m := p.messages[h];
    var id := MessageId(m, stamp);
    var c1 := OnDoubleClick(p, h, stamp);
    var p2 := OnReply(c1.page, c1.pending.value, Succeeded(translation));
    assert !HasTextRunSpan(m.body) by {
      forall i | 0 <= i < |m.body|
        ensures !IsTextRunSpan(m.body[i])
      {
        assert SerializesEmpty(m.body[i]);
      }
    }
    assert MessageId(p2.messages[h], stamp2) == id;
    assert p2.registry[id] == m.body;
    assert !IsRestorable(m.body);
  }

  /** A failed attempt leaves the message untranslated with its body intact,
      so the next double-click translates again from the same original. */
  lemma FailedAttemptRetries(p: Page, h: nat, stamp: string, stamp2: string)
    requires h in p.messages && !p.messages[h].translated
    ensures
      var m := p.messages[h];
      var c1 := OnDoubleClick(p, h, stamp);
      c1.pending.Some? && h in c1.page.messages &&
      var p2 := OnReply(c1.page, c1.pending.value, Failed);
      h in p2.messages &&
      var c3 := OnDoubleClick(p2, h, stamp2);
      && p2.messages[h].body == m.body
      && !p2.messages[h].translated
      && |p2.messages[h].errors| == |m.errors| + 1
      && c3.pending.Some?
      && c3.pending.value.request == c1.pending.value.request
      && c3.page.registry[MessageId(m, stamp)] == m.body
  {
    var m := p.messages[h];
    var c1 := OnDoubleClick(p, h, stamp);
    var p2 := OnReply(c1.page, c1.pending.value, Failed);
    assert MessageId(p2.messages[h], stamp2) == MessageId(m, stamp);
  }

  /** A second double-click while the first request is still in flight is not
      guarded: it stores the (still original) body again and sends a second
      request, and two loading indicators are shown. */
  lemma ClickWhileInFlight(p: Page, h: nat, stamp: string, stamp2: string)
    requires h in p.messages && !p.messages[h].translated
    ensures
      var m := p.messages[h];
      var c1 := OnDoubleClick(p, h, stamp);
      h in c1.page.messages &&
      var c2 := OnDoubleClick(c1.page, h, stamp2);
      && c1.pending.Some? && c2.pending.Some?
      && c2.pending.value.request == c1.pending.value.request
      && c2.page.registry == c1.page.registry
      && c2.page.messages[h].loading == m.loading + 2
      && c2.page.messages[h].body == m.body
  {
    var c1 := OnDoubleClick(p, h, stamp);
    assert MessageId(c1.page.messages[h], stamp2) == MessageId(p.messages[h], stamp);
  }

  /** The events the content script reacts to. */
  datatype Event =
    | DoubleClick(handle: nat, stamp: string)
    | Reply(pending: Pending, reply: TranslationReply)
    | LanguageChange(lang: string)

  /** One event; a reply for a bubble that is not on the page changes nothing. */
  function Step(p: Page, e: Event): Page {
    match e
    case DoubleClick(h, stamp) => if h in p.messages then OnDoubleClick(p, h, stamp).page else p
    case Reply(pending, reply) => if pending.handle in p.messages then OnReply(p, pending, reply) else p
    case LanguageChange(lang) => SetTargetLanguage(p, lang)
  }

  function Run(p: Page, events: seq<Event>): Page
    decreases |events|
  {
    if |events| == 0 then p else Run(Step(p, events[0]), events[1..])
  }

  /** Registry entries are never deleted: an id that has an entry keeps one
      through any sequence of events, and the set of bubbles never changes. */
  lemma {:induction false} RegistryNeverShrinks(p: Page, events: seq<Event>)
    ensures p.registry.Keys <= Run(p, events).registry.Keys
    ensures Run(p, events).messages.Keys == p.messages.Keys
    decreases |events|
  {
    if |events| > 0 {
      var q := Step(p, events[0]);
      assert p.registry.Keys <= q.registry.Keys && q.messages.Keys == p.messages.Keys;
      RegistryNeverShrinks(q, events[1..]);
    }
  }

  /** Events that concern other bubbles never change a bubble. */
  lemma {:induction false} OtherMessagesIsolated(p: Page, events: seq<Event>, k: nat)
    requires k in p.messages
    requires forall j :: 0 <= j < |events| ==> !events[j].LanguageChange?
    requires forall j :: 0 <= j < |events| ==> events[j].DoubleClick? ==> events[j].handle != k
    requires forall j :: 0 <= j < |events| ==> events[j].Reply? ==> events[j].pending.handle != k
    ensures k in Run(p, events).messages && Run(p, events).messages[k] == p.messages[k]
    decreases |events|
  {
    if |events| > 0 {
      var q := Step(p, events[0]);
      assert k in q.messages && q.messages[k] == p.messages[k];
      OtherMessagesIsolated(q, events[1..], k);
    }
  }

  /** A registry entry survives any events in which every double-clicked
      bubble already carries a `data-id` other than the entry's id: no click
      can then write to it, and replies and language changes never touch the
      registry. */
  lemma {:induction false} EntryKeptByOtherClicks(p: Page, events: seq<Event>, id: string)
    requires id in p.registry
    requires forall j :: 0 <= j < |events| && events[j].DoubleClick? && events[j].handle in p.messages ==>
      p.messages[events[j].handle].dataId != "" && p.messages[events[j].handle].dataId != id
    ensures id in Run(p, events).registry && Run(p, events).registry[id] == p.registry[id]
    decreases |events|
  {
    if |events| > 0 {
      var q := Step(p, events[0]);
      assert id in q.registry && q.registry[id] == p.registry[id];
      assert q.messages.Keys == p.messages.Keys;
      assert forall h :: h in p.messages && p.messages[h].dataId != "" ==>
        q.messages[h].dataId == p.messages[h].dataId;
      EntryKeptByOtherClicks(q, events[1..], id);
    }
  }
}
