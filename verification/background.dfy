/** The background script: its two settings, the message handler, and the
    translate call to the DeepL API with its offline fallback. Storage reads
    and the network reply are inputs; the handler is a function from the
    settings before to the settings after and the response sent. */
module Background {
  import opened Wrappers
  import opened Fallback

  /** What `chrome.storage.sync` holds (absent keys are `None`). */
  datatype StoredSettings = StoredSettings(apiKey: Option<string>, formalityLevel: Option<string>)

  /** The script's module-level variables, and the store they are read from. */
  datatype Settings = Settings(apiKey: string, formalityLevel: string, stored: StoredSettings)

  const DefaultFormality := "default"

  /** JavaScript's `value || fallback` for a possibly absent string. */
  function OrElse(value: Option<string>, fallback: string): (r: string)
    ensures value.Some? && value.value != "" ==> r == value.value
    ensures value.None? || value.value == "" ==> r == fallback
  {
    if value.Some? && value.value != "" then value.value else fallback
  }

  /** The settings read at start-up and on `getApiKey`: a missing key reads
      as "" and a missing formality as "default". */
  function LoadSettings(stored: StoredSettings): (s: Settings)
    ensures s.stored == stored
    ensures stored.apiKey.None? ==> s.apiKey == ""
    ensures stored.formalityLevel.None? || stored.formalityLevel.value == "" ==> s.formalityLevel == DefaultFormality
    ensures stored.apiKey.Some? ==> s.apiKey == stored.apiKey.value
    ensures stored.formalityLevel.Some? && stored.formalityLevel.value != "" ==> s.formalityLevel == stored.formalityLevel.value
  {
    Settings(OrElse(stored.apiKey, ""), OrElse(stored.formalityLevel, DefaultFormality), stored)
  }

  // ---------------------------------------------------------------------
  // The DeepL call
  // ---------------------------------------------------------------------

  /** One form field of the request body. */
  datatype Param = Param(name: string, value: string)

  /** The value of the first field called `name`, if any. */
  function ParamValue(params: seq<Param>, name: string): Option<string> {
    if |params| == 0 then None
    else if params[0].name == name then Some(params[0].value)
    else ParamValue(params[1..], name)
  }

  /** The request body: the key, the text and the target language, then the
      formality when it is not "default". The source language is not sent. */
  function RequestParams(apiKey: string, text: string, targetLang: string, formality: string): (params: seq<Param>)
    ensures ParamValue(params, "auth_key") == Some(apiKey)
    ensures ParamValue(params, "text") == Some(text)
    ensures ParamValue(params, "target_lang") == Some(targetLang)
    ensures ParamValue(params, "formality") == (if formality != DefaultFormality then Some(formality) else None)
    ensures ParamValue(params, "source_lang") == None
    ensures |params| == (if formality != DefaultFormality then 4 else 3)
  {
    var tail := if formality != DefaultFormality then [Param("formality", formality)] else [];
    var fromTarget := [Param("target_lang", targetLang)] + tail;
    var fromText := [Param("text", text)] + fromTarget;
    var params := [Param("auth_key", apiKey)] + fromText;
    assert params[1..] == fromText && fromText[1..] == fromTarget && fromTarget[1..] == tail;
    assert ParamValue(fromText, "target_lang") == Some(targetLang);
    assert forall name :: name != "auth_key" && name != "text" && name != "target_lang" ==>
      ParamValue(params, name) == ParamValue(tail, name) by {
      forall name | name != "auth_key" && name != "text" && name != "target_lang"
        ensures ParamValue(params, name) == ParamValue(tail, name)
      {
        assert ParamValue(fromText, name) == ParamValue(fromTarget, name) == ParamValue(tail, name);
      }
    }
    assert tail != [] ==> tail[1..] == [];
    assert ParamValue(tail, "source_lang") == None;
    params
  }

  /** One entry of the `translations` array of the API's JSON reply;
      `detectedSourceLanguage` is "" when the field is absent. */
  datatype ApiTranslation = ApiTranslation(text: string, detectedSourceLanguage: string)

  /** How the API call ended: the request never completed, a non-2xx status
      with its body, or a 2xx JSON body with or without `translations`. */
  datatype ApiReply =
    | NetworkError
    | HttpError(status: int, body: string)
    | Payload(translations: Option<seq<ApiTranslation>>)

  /** The errors raised inside the `try`. */
  datatype DeepLError = MissingApiKey | ApiStatus(status: int, body: string) | NoTranslationReturned | RequestFailed

  datatype Translation = Translation(translation: string, detectedLanguage: string)

  /** Reading the reply: the first entry's text, and its detected source
      language or, when that is absent, the requested source language. */
  function ReadReply(reply: ApiReply, sourceLang: string): (r: Result<Translation, DeepLError>)
    ensures r.Success? <==> reply.Payload? && reply.translations.Some? && |reply.translations.value| > 0
    ensures r.Success? ==> r.value.translation == reply.translations.value[0].text
    ensures r.Success? ==>
      r.value.detectedLanguage == (if reply.translations.value[0].detectedSourceLanguage != "" then reply.translations.value[0].detectedSourceLanguage else sourceLang)
    ensures reply.Payload? && !r.Success? ==> r.error == NoTranslationReturned
  {
    match reply
    case NetworkError => Failure(RequestFailed)
    case HttpError(status, body) => Failure(ApiStatus(status, body))
    case Payload(translations) =>
      if translations.Some? && |translations.value| > 0 then
        var first := translations.value[0];
        Success(Translation(first.text, if first.detectedSourceLanguage != "" then first.detectedSourceLanguage else sourceLang))
      else
        Failure(NoTranslationReturned)
  }

  /** How a promise settles. */
  datatype Settlement = Resolved(value: Translation) | Rejected(message: string)

  /** The outcome of `translateWithDeepL`: the settlement, the script's API
      key afterwards (it is reloaded from storage when empty), and the request
      body sent, if the call got as far as sending one. */
  datatype TranslateCall = TranslateCall(settled: Settlement, apiKey: string, sent: Option<seq<Param>>)

  /** The fallback result: the table or tagged translation and the guessed language. */
  function FallbackResult(text: string, targetLang: string): Translation {
    Translation(FallbackTranslation(text, targetLang), DetectLanguage(text))
  }

  /** The key the call uses: the loaded one, else the stored one. */
  function EffectiveKey(apiKey: string, stored: StoredSettings): string {
    if apiKey != "" then apiKey else stored.apiKey.GetOr("")
  }

  /** `translateWithDeepL`. With a key, the request is sent and a usable reply
      gives the API's translation; every error inside the `try` — no key, a
      failed request, a non-2xx status, no translations — is caught and
      turned into the fallback result. The promise therefore never rejects. */
  function TranslateWithDeepL(
    s: Settings, text: string, targetLang: string, sourceLang: string, formality: string, reply: ApiReply)
    : (call: TranslateCall)
    ensures call.settled.Resolved?
    ensures call.apiKey == EffectiveKey(s.apiKey, s.stored)
    ensures call.sent.Some? <==> call.apiKey != ""
    ensures call.sent.Some? ==> call.sent.value == RequestParams(call.apiKey, text, targetLang, formality)
    ensures call.sent.Some? && ReadReply(reply, sourceLang).Success? ==>
      call.settled.value == ReadReply(reply, sourceLang).value
    ensures call.sent.None? || ReadReply(reply, sourceLang).Failure? ==>
      call.settled.value == FallbackResult(text, targetLang)
  {
    var key := EffectiveKey(s.apiKey, s.stored);
    var attempt: Result<Translation, DeepLError> :=
      if key == "" then Failure(MissingApiKey) else ReadReply(reply, sourceLang);
    var sent := if key == "" then None else Some(RequestParams(key, text, targetLang, formality));
    match attempt
    case Success(t) => TranslateCall(Resolved(t), key, sent)
    case Failure(_) => TranslateCall(Resolved(FallbackResult(text, targetLang)), key, sent)
  }

  // ---------------------------------------------------------------------
  // The message handler
  // ---------------------------------------------------------------------

  datatype Request =
    | Translate(text: string, targetLang: string, sourceLang: Option<string>)
    | SaveApiKey(apiKey: string)
    | SetFormalityLevel(formalityLevel: string)
    | GetApiKey
    | CheckConnection
    | Unrecognized

  datatype Response =
    | TranslateSucceeded(translation: string, detectedLanguage: string)   // {success: true, translation, detectedLanguage}
    | TranslateFailed(error: string)                                       // {success: false, error}
    | Acknowledged(success: bool)                                          // {success}
    | ApiKeyInfo(apiKey: string, formalityLevel: string)                   // {apiKey, formalityLevel}
    | ConnectionStatus(connected: bool)                                    // {connected}
    | NoResponse

  datatype Handled = Handled(settings: Settings, response: Response, sent: Option<seq<Param>>)

  /** The `onMessage` listener. `reply` is how the DeepL request ends when
      one is sent; only `translate` sends one. */
  function HandleMessage(s: Settings, request: Request, reply: ApiReply): (h: Handled)
    ensures request.CheckConnection? ==> h == Handled(s, ConnectionStatus(true), None)
    ensures request.SetFormalityLevel? ==>
      && h.settings == s.(formalityLevel := request.formalityLevel,
                          stored := s.stored.(formalityLevel := Some(request.formalityLevel)))
      && h.response == Acknowledged(true)
    ensures request.SaveApiKey? ==>
      && h.settings == s.(apiKey := request.apiKey, stored := s.stored.(apiKey := Some(request.apiKey)))
      && h.response == Acknowledged(true)
    ensures request.Translate? ==>
      var call := TranslateWithDeepL(s, request.text, request.targetLang, OrElse(request.sourceLang, ""), s.formalityLevel, reply);
      && h.response == TranslateSucceeded(call.settled.value.translation, call.settled.value.detectedLanguage)
      && h.settings == s.(apiKey := call.apiKey)
      && h.sent == call.sent
    ensures request.GetApiKey? ==>
      h.settings == LoadSettings(s.stored) && h.response == ApiKeyInfo(h.settings.apiKey, h.settings.formalityLevel)
    ensures request.Unrecognized? ==> h == Handled(s, NoResponse, None)
    ensures !request.Translate? ==> h.sent.None?
  {
    match request
    case Translate(text, targetLang, sourceLang) =>
      var call := TranslateWithDeepL(s, text, targetLang, OrElse(sourceLang, ""), s.formalityLevel, reply);
      var response := match call.settled
        case Resolved(t) => TranslateSucceeded(t.translation, t.detectedLanguage)
        case Rejected(message) => TranslateFailed(message);
      Handled(s.(apiKey := call.apiKey), response, call.sent)
    case SaveApiKey(key) =>
      Handled(s.(apiKey := key, stored := s.stored.(apiKey := Some(key))), Acknowledged(true), None)
    case SetFormalityLevel(level) =>
      Handled(s.(formalityLevel := level, stored := s.stored.(formalityLevel := Some(level))), Acknowledged(true), None)
    case GetApiKey =>
      var loaded := LoadSettings(s.stored);
      Handled(loaded, ApiKeyInfo(loaded.apiKey, loaded.formalityLevel), None)
    case CheckConnection =>
      Handled(s, ConnectionStatus(true), None)
    case Unrecognized =>
      Handled(s, NoResponse, None)
  }

  /** A formality level set through the handler is the one later translate
      requests carry, and it is sent only when it is not "default". */
  lemma FormalityReachesLaterRequests(
    s: Settings, level: string, text: string, targetLang: string, sourceLang: Option<string>, r1: ApiReply, r2: ApiReply)
    requires EffectiveKey(s.apiKey, s.stored) != ""
    ensures
      var s2 := HandleMessage(s, SetFormalityLevel(level), r1).settings;
      var h := HandleMessage(s2, Translate(text, targetLang, sourceLang), r2);
      && h.sent.Some?
      && ParamValue(h.sent.value, "formality") == (if level != DefaultFormality then Some(level) else None)
      && ParamValue(h.sent.value, "text") == Some(text)
  {
  }

  /** Without any key, nothing is sent and the reply is the fallback, whatever the network would have said. */
  lemma NoKeyUsesFallback(s: Settings, text: string, targetLang: string, sourceLang: Option<string>, reply: ApiReply)
    requires s.apiKey == "" && OrElse(s.stored.apiKey, "") == ""
    ensures
      var h := HandleMessage(s, Translate(text, targetLang, sourceLang), reply);
      && h.sent.None?
      && h.response == TranslateSucceeded(FallbackTranslation(text, targetLang), DetectLanguage(text))
  {
  }

  /** A missing `sourceLang` behaves as the empty one. */
  lemma MissingSourceLangIsEmpty(s: Settings, text: string, targetLang: string, reply: ApiReply)
    ensures HandleMessage(s, Translate(text, targetLang, None), reply)
         == HandleMessage(s, Translate(text, targetLang, Some("")), reply)
  {
  }
}
