# WhatsApp Web translator — a Dafny model of its core

The extension adds per-message translation to the WhatsApp Web chat page.
A content script finds message bubbles and extracts the text of a bubble
on double-click. It asks the background script for a translation, writes
the translation back into the bubble's spans, and keeps the original
markup so that a second double-click reverts. The background script calls
the DeepL API. When that fails for any reason, it falls back to keyword
language detection and a small fixed phrase table.

This project models that core as pure functions over immutable values:

- `message_dom.dfy` (`MessageDom`): a message body as a flat, document-order
  sequence of nodes (`Span`, `Img`, `Br`, `TextNode`, `OtherElement`). It
  models `extractTextContent` (rich path and tree-walk path) and
  `applyTranslation` (line assignment to eligible spans, overflow spans,
  whole-text replacement).
- `message_toggle.dfy` (`MessageToggle`): the page as a value. It holds the
  registry of original bodies, the bubbles and their flags, badges and
  indicators, the target language and the stored phrase table. It models the
  double-click handler, its reply callback and the `setTargetLanguage`
  refresh as transitions, plus sequences of such events.
- `discovery.dfy` (`Discovery`): the marking tick that instruments bubbles.
- `ui_phrases.dfy` (`UiPhrases`): the UI phrase table the content script
  stores, and its lookup with English defaults.
- `fallback.dfy` (`Fallback`): ordered keyword detection and the offline phrase table.
- `background.dfy` (`Background`): settings, request parameters, reading the
  API reply, `translateWithDeepL` with its catch-all fallback, and the
  `onMessage` dispatch.
- `bridge.dfy` (`Bridge`): how a content request reaches the background and
  how the content callback reads the response.
- `strings.dfy` (`Strings`) and `wrappers.dfy` (`Wrappers`): JavaScript
  whitespace and `trim`, `split('\n')` with its inverse, case-insensitive
  keyword search, `Option` and `Result`.

Inputs the code gets from the browser are parameters. These are the network
reply (`ApiReply`, and `TranslationReply` on the content side), the stored
settings, and the time stamp of a synthesized message id.

Some behaviours of the code that a reader may not expect, which the model keeps:

- Registry entries are never deleted. A revert restores from the entry and
  leaves it in place.
- The rich extraction path is chosen only when a `span.x1lliihq`, `span.b38`
  or `span.b85` exists. An emoji image alone does not select it.
- On the rich path, only spans whose text is exactly "" or "\n" become a
  newline. A span holding other whitespace is copied as it is.
- The source language is never sent to the API. It only serves as the
  detected language when the API reply lacks one.
- A delivered translate response never reports failure, because the
  background falls back on every error. Only an undelivered response takes
  the content script's failure branch.

## Model

| member | source | states |
|---|---|---|
| Strings.SplitLines | content.js:372 | `split('\n')` yields one more piece than there are newlines; no piece contains "\n"; joining the pieces with "\n" gives the input back |
| Strings.SplitJoin | content.js:372 | splitting the "\n"-join of newline-free lines returns exactly those lines |
| Strings.ContainsIgnoreCase | background.js:207-213 | a keyword test succeeds iff some position of the text starts a case-insensitive copy of the keyword |
| MessageDom.ExtractConcat | content.js:310-353 | both extraction paths emit their nodes' pieces concatenated in document order |
| MessageDom.ExtractNewlineFidelity | content.js:306-354 | when no text run carries its own newline, the extracted text has exactly one "\n" per break span (rich path), or per `BR` and blank `SPAN` (tree walk) |
| MessageDom.EmojiLabelInPlace | content.js:313-323 | an emoji image between two text runs contributes its alt text at its position |
| MessageDom.AssignLines | content.js:372-395 | the k-th eligible span gets line k while lines remain; every other node is unchanged; the number of lines consumed is min(#eligible, #lines) |
| MessageDom.NonBlankLinesFilter | content.js:399-400 | every kept line is a non-blank line of the input, every non-blank line of the input is kept, and all lines are kept when none is blank |
| MessageDom.NonBlankLinesAppend | content.js:399-400 | a single line is kept iff it is not blank, and filtering distributes over concatenation, so the kept lines are the non-blank ones in their original order |
| MessageDom.AppendedSpans | content.js:398-407 | one new `x1lliihq` span per non-blank leftover line, in order |
| MessageDom.ApplyTranslation | content.js:357-412 | an empty translation is a no-op; without a text-run span the body becomes one text node; otherwise line assignment, ineligible nodes untouched, and exactly the non-blank leftover lines appended |
| MessageDom.NothingAppendedWhenLinesFit | content.js:398 | with no more lines than eligible spans, nothing is appended |
| MessageDom.ApplyLineForLine | content.js:361-395 | on a line/break layout, a translation with as many lines rewrites it line for line and keeps the break spans |
| MessageDom.ExtractApplyRoundTrip | content.js:306-412 | writing a layout's own extracted text back leaves it unchanged |
| MessageDom.TwoLineMessage | content.js:372-395 | "a" / "b" translated as "c\nd" becomes "c" / "d" with the break kept |
| UiPhrases.PhrasesFor | content.js:146-173 | without a table all phrases are English; with one, each of the five phrases is the table entry for the language when present and non-empty, the built-in English text otherwise; the badge is the entry, a space and the language code, else "Translated to " and the code |
| UiPhrases.RefreshAgreesWithDoubleClick | content.js:443-467 | the refresh after a language change shows the same hover text a double-click would choose |
| UiPhrases.StoredPhrases | content.js:521-558 | for each of EN, NL, DE, FR, ES, each phrase is that language's stored text and the badge is the stored prefix, a space and the code |
| UiPhrases.StoredTextNonEmpty | content.js:533-554 | no stored text of a phrase key is empty, in any language |
| UiPhrases.UnlistedLanguageIsEnglish | content.js:521-558 | for a language outside EN/NL/DE/FR/ES the stored table yields the English phrases |
| UiPhrases.EnglishFromStoredTable | content.js:533-535 | with the stored table, English matches the built-in texts except that the failure text loses "Check API key." |
| UiPhrases.DutchFromStoredTable | content.js:536-540 | with the stored table, Dutch gets the Dutch phrases and "Vertaald naar NL" |
| Discovery.Tick | content.js:47-64 | after a tick every bubble is processed; processed bubbles are untouched; a new one is instrumented once on its resolved container (msg-container, then message-in/out, then parent) or not at all |
| Discovery.TickIdempotent | content.js:47-54 | a second tick changes nothing |
| Discovery.TicksAreOneTick | content.js:45-121 | any positive number of ticks equals one tick |
| Discovery.AttachedAtMostOnce | content.js:52-64 | over any number of ticks a fresh bubble is instrumented at most once; one whose container failed to resolve never is |
| Discovery.TickOnlyVisitsNew | content.js:47 | bubbles rendered after a tick are handled by the next one without revisiting earlier ones |
| MessageToggle.MessageId | content.js:137-143 | the id is the existing `data-id`, else "msg-" followed by the stamp; never empty |
| MessageToggle.SynthesizedIdsDiffer | content.js:137-138 | two bubbles without a `data-id` given different stamps get different ids |
| MessageToggle.OnDoubleClick | content.js:137-240 | the translate branch stores the body under the id before the request and sends the extracted text; the revert branch restores the stored body, clears the mark and one badge, and keeps the entry; with no entry, or one whose `innerHTML` is empty, only the id is written; other bubbles untouched |
| MessageToggle.OnReply | content.js:241-298 | success applies the translation, marks the bubble and adds a badge, even for an empty translation; failure adds one error indicator and leaves the mark unset; the registry and other bubbles are untouched |
| MessageToggle.Refreshed | content.js:443-467 | a refreshed message shows the revert or translate phrase a double-click would choose, every badge the new "Translated to" text, and keeps its body, flags and indicators |
| MessageToggle.SetTargetLanguage | content.js:430-480 | the language changes; with a stored table every existing hover indicator and every badge shows the new language's text; bodies, flags, loading and error indicators, the presence of a hover indicator and the registry are unchanged |
| MessageToggle.TranslateThenRevertRestores | content.js:176-212 | translate, success, double-click again gives back the original body, unmarked, without badge, entry kept |
| MessageToggle.EmptyBodyStaysTranslated | content.js:179-180 | a body whose `innerHTML` is empty (no nodes, or only empty text nodes) is treated as a missing entry, so such a message never reverts |
| MessageToggle.FailedAttemptRetries | content.js:277-298 | after a failure the bubble is untranslated with its body intact and the next double-click sends the same request again |
| MessageToggle.ClickWhileInFlight | content.js:203-240 | a second double-click before the reply re-stores the same body and sends a second identical request |
| MessageToggle.RegistryNeverShrinks | content.js:176-212 | over any sequence of events no registry entry disappears and the bubbles stay the same |
| MessageToggle.OtherMessagesIsolated | content.js:241-298 | events about other bubbles never change a bubble |
| MessageToggle.EntryKeptByOtherClicks | content.js:176-212 | a registry entry is kept through any events in which every double-clicked bubble already carries a different `data-id` |
| Fallback.FirstMatch | background.js:207-213 | returns the first rule whose pattern matches, or none exactly when no rule matches |
| Fallback.DetectLanguage | background.js:204-213 | "EN" iff no keyword test matches; otherwise the language of the first matching test in the order NL, FR, DE, ES, IT, JA, ZH |
| Fallback.EarlierRuleWins | background.js:207-208 | a text with both a Dutch and a French keyword is reported as Dutch |
| Fallback.DetectionIgnoresCase | background.js:208 | an upper-case "BONJOUR" is recognized as French |
| Fallback.TableCoversLanguages | background.js:146-201 | every table phrase has entries for exactly NL, DE, FR, ES, IT, JA, ZH |
| Fallback.TaggedOutsideTable | background.js:215-227 | text outside the table, or a language outside the seven, yields "[" + lang + "] " + text |
| Fallback.FallbackNeverEmpty | background.js:215-227 | the fallback translation is never empty |
| Fallback.KnownPhrase | background.js:215-221 | every listed phrase in any of the seven languages gets its table entry |
| Background.LoadSettings | background.js:74-79 | a missing key reads as ""; a missing or empty formality reads as "default"; a stored key or non-empty formality is used as it is |
| Background.RequestParams | background.js:105-114 | the body holds auth_key, text and target_lang; it holds formality iff it is not "default"; it never holds source_lang |
| Background.ReadReply | background.js:125-140 | success iff the payload has a non-empty translations list; the text is the first entry's; the detected language is that entry's or else the source language; an empty list is "No translation returned" |
| Background.TranslateWithDeepL | background.js:88-229 | never rejects; a request is sent iff a key is loaded or stored; a usable reply gives the API's result; every error gives the fallback result |
| Background.HandleMessage | background.js:6-71 | translate answers success with the translation and detected language of `translateWithDeepL` called with `sourceLang \|\| ''` and the current formality, keeps the key that call reloaded, and sends that call's request; checkConnection answers connected and changes nothing; setFormalityLevel sets and stores the level and saveApiKey sets and stores the key, each changing nothing else, and both acknowledge; getApiKey reloads both settings from storage and reports them; any other action gets no answer and changes nothing |
| Background.FormalityReachesLaterRequests | background.js:40-46 | a level set by setFormalityLevel is the one a later translate request sends, and only when it is not "default" |
| Background.NoKeyUsesFallback | background.js:91-100 | with no key anywhere nothing is sent and the answer is the fallback |
| Background.MissingSourceLangIsEmpty | background.js:13 | a missing sourceLang behaves as "" |
| Bridge.ContentAlwaysReceivesTranslation | background.js:7-28 | a delivered translate response always reads as success in the content callback |
| Bridge.OfflineDoubleClick | content.js:235-276 | with the API unreachable, a double-click ends with the bubble marked translated and the non-empty fallback text applied |

## Left out

- Browser plumbing is not modelled: `chrome.storage`, `chrome.runtime` and
  `chrome.tabs` messaging, `MutationObserver`, and the scheduling of ticks.
  Each call of `attachTranslationListeners` starts a new 2-second interval.
  It is called once when the page loads, on every DOM mutation while the
  conversation panel exists, and every 10 seconds.
  Since ticks are idempotent (`Discovery.TicksAreOneTick`), how many ticks run
  does not matter.
- The 3-second removal of error indicators is a timer and is not modelled.
  Error indicators accumulate in `Message.errors`.
- `fetch`, HTTP status handling beyond the `ApiReply` shape, JSON parsing and
  `URLSearchParams` encoding are foreign calls. A JSON parse error ends the
  same way as `NetworkError`.
- Indicator and badge styling, hover opacity listeners, the container's
  `position: relative`, and `addStylesheet` are presentational. The
  loading-indicator text is also not tracked; only their number is.
- The asynchronous first text of a hover indicator is not modelled. Its
  value is `PhrasesFor(...).doubleClickToTranslate`.
- Real DOM nesting is left out:
  - `closest` and re-resolving the container inside the double-click handler.
    The model's bubbles are already the resolved containers.
  - Serialization of `innerHTML`. The snapshot is the node sequence itself.
    It stands for the empty string exactly when every node is an empty text
    node (`MessageToggle.IsRestorable`).
  - Nested spans being selected twice.
  - Setting a span's `textContent` dropping its nested children.
- `Date.now()` and `Math.random()` are nondeterministic. The time stamp of a
  synthesized id is a parameter.
- Values being `undefined` are simplified:
  - An API entry without `text` reads as "".
  - A `formalityLevel` message without a level is not modelled.
  - Phrase-table keys inherited from `Object.prototype` are not modelled.
- `popup.js` (settings form) and `service-worker.js` (offline cache of a
  marketing site) are outside the core.
- `connectToBackgroundScript` and the content script's start-up loading of
  the target language only log or set a field. The target language is a
  field of `Page`.
- Discovery.AttachedAtMostOnce: states the at-most-once guarantee for bubbles
  that start fresh (unprocessed, no attachment). Handlers already attached by
  other means are outside the model.
