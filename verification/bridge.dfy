/** The message channel between the content script and the background
    script: the `translate` message the content script sends and how its
    reply callback reads the background's response. */
module Bridge {
  import opened Wrappers
  import MessageDom
  import MessageToggle
  import Fallback
  import Background

  /** The content script sends `{action: 'translate', text, targetLang}`, without a source language. */
  function ToBackgroundRequest(request: MessageToggle.TranslateRequest): Background.Request {
    Background.Translate(request.text, request.targetLang, None)
  }

  /** The callback's reading of the response: `response && response.success`. */
  function ToContentReply(response: Background.Response): MessageToggle.TranslationReply {
    match response
    case TranslateSucceeded(translation, _) => MessageToggle.Succeeded(translation)
    case _ => MessageToggle.Failed
  }

  /** Because the background's translate call never rejects, a delivered
      translate response always reaches the content script as a success. */
  lemma ContentAlwaysReceivesTranslation(
    s: Background.Settings, request: MessageToggle.TranslateRequest, reply: Background.ApiReply)
    ensures ToContentReply(Background.HandleMessage(s, ToBackgroundRequest(request), reply).response).Succeeded?
  {
  }

  /** End to end with the API unreachable: double-clicking an untranslated
      message ends with the message marked translated and the fallback text
      (never empty) written into it. */
  lemma OfflineDoubleClick(p: MessageToggle.Page, h: nat, stamp: string, s: Background.Settings)
    requires h in p.messages && !p.messages[h].translated
    ensures
      var m := p.messages[h];
      var c := MessageToggle.OnDoubleClick(p, h, stamp);
      c.pending.Some? && h in c.page.messages &&
      var handled := Background.HandleMessage(s, ToBackgroundRequest(c.pending.value.request), Background.NetworkError);
      var translation := Fallback.FallbackTranslation(MessageDom.ExtractText(m.body), p.targetLang);
      var p2 := MessageToggle.OnReply(c.page, c.pending.value, ToContentReply(handled.response));
      && translation != ""
      && h in p2.messages
      && p2.messages[h].translated
      && p2.messages[h].body == MessageDom.ApplyTranslation(m.body, translation)
  {
    var m := p.messages[h];
    Fallback.FallbackNeverEmpty(MessageDom.ExtractText(m.body), p.targetLang);
  }
}
