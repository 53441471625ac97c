/** The offline fallback of the background script's translate call: a
    keyword-based guess of the source language and a fixed table of phrase
    translations, with a tagged copy of the input for anything else. */
module Fallback {
  import opened Wrappers
  import opened Strings

  /** One `if (/a|b|c/i.test(text))` test: the language it reports and its alternatives. */
  datatype DetectionRule = DetectionRule(lang: string, keywords: seq<string>)

  /** The tests in the order they are tried. */
  const DetectionRules: seq<DetectionRule> := [
    DetectionRule("NL", ["hallo", "goedemorgen", "bedankt"]),
    DetectionRule("FR", ["bonjour", "merci", "comment"]),
    DetectionRule("DE", ["guten", "danke", "wie geht"]),
    DetectionRule("ES", ["hola", "gracias", "como estas"]),
    DetectionRule("IT", ["ciao", "grazie", "come stai"]),
    DetectionRule("JA", ["こんにちは", "ありがとう", "お元気"]),
    DetectionRule("ZH", ["你好", "谢谢", "你怎么样"])
  ]

  /** The language reported when no test matches. */
  const DefaultLanguage := "EN"

  predicate RuleMatches(text: string, rule: DetectionRule) {
    exists k :: 0 <= k < |rule.keywords| && ContainsIgnoreCase(text, rule.keywords[k])
  }

  /** Index of the first rule whose pattern matches, if any. */
  function FirstMatch(text: string, rules: seq<DetectionRule>): (r: Option<nat>)
    ensures r.None? <==> forall j :: 0 <= j < |rules| ==> !RuleMatches(text, rules[j])
    ensures r.Some? ==>
      && r.value < |rules|
      && RuleMatches(text, rules[r.value])
      && forall j :: 0 <= j < r.value ==> !RuleMatches(text, rules[j])
  {
    if |rules| == 0 then None
    else if RuleMatches(text, rules[0]) then Some(0)
    else
      var rest := FirstMatch(text, rules[1..]);
      assert forall j :: 1 <= j < |rules| ==> rules[j] == rules[1..][j - 1];
      match rest
      case None => None
      case Some(j) => Some(j + 1)
  }

  /** The simulated language detection: the language of the first matching
      test in the order NL, FR, DE, ES, IT, JA, ZH, and "EN" when none matches. */
  function DetectLanguage(text: string): (lang: string)
    ensures lang == DefaultLanguage <==> forall j :: 0 <= j < |DetectionRules| ==> !RuleMatches(text, DetectionRules[j])
    ensures lang != DefaultLanguage ==> exists j ::
      && 0 <= j < |DetectionRules|
      && lang == DetectionRules[j].lang
      && RuleMatches(text, DetectionRules[j])
      && forall j' :: 0 <= j' < j ==> !RuleMatches(text, DetectionRules[j'])
  {
    match FirstMatch(text, DetectionRules)
    case None => DefaultLanguage
    case Some(j) => DetectionRules[j].lang
  }

  /** A text with both a Dutch and a French keyword is reported as Dutch:
      the earlier test wins. */
  lemma EarlierRuleWins(text: string)
    requires ContainsIgnoreCase(text, "hallo") && ContainsIgnoreCase(text, "merci")
    ensures DetectLanguage(text) == "NL"
  {
    assert RuleMatches(text, DetectionRules[0]) by {
      assert DetectionRules[0].keywords[0] == "hallo";
    }
  }

  /** Case does not matter: a text that starts with "BONJOUR" is French unless a Dutch keyword occurs. */
  lemma DetectionIgnoresCase(text: string)
    requires |text| >= 7 && text[..7] == "BONJOUR"
    requires !RuleMatches(text, DetectionRules[0])
    ensures DetectLanguage(text) == "FR"
  {
    assert MatchesAt(text, 0, "bonjour");
    assert ContainsIgnoreCase(text, DetectionRules[1].keywords[0]);
  }

  const Languages: set<string> := {"NL", "DE", "FR", "ES", "IT", "JA", "ZH"}

  /** The known phrases and their translations. */
  const FallbackTable: map<string, map<string, string>> := map[
    "Hello, how are you doing today?" := map[
      "NL" := "Hallo, hoe gaat het vandaag met je?",
      "DE" := "Hallo, wie geht es dir heute?",
      "FR" := "Bonjour, comment vas-tu aujourd'hui?",
      "ES" := "Hola, ¿cómo estás hoy?",
      "IT" := "Ciao, come stai oggi?",
      "JA" := "こんにちは、今日の調子はどうですか？",
      "ZH" := "你好，今天怎么样？"],
    "I'm working on a new project. It's a translation extension for WhatsApp." := map[
      "NL" := "Ik werk aan een nieuw project. Het is een vertaalextensie voor WhatsApp.",
      "DE" := "Ich arbeite an einem neuen Projekt. Es ist eine Übersetzungserweiterung für WhatsApp.",
      "FR" := "Je travaille sur un nouveau projet. C'est une extension de traduction pour WhatsApp.",
      "ES" := "Estoy trabajando en un nuevo proyecto. Es una extensión de traducción para WhatsApp.",
      "IT" := "Sto lavorando a un nuovo progetto. È un'estensione di traduzione per WhatsApp.",
      "JA" := "新しいプロジェクトに取り組んでいます。WhatsApp用の翻訳拡張機能です。",
      "ZH" := "我正在做一个新项目。这是一个WhatsApp翻译扩展。"],
    "That sounds interesting! How does it work?" := map[
      "NL" := "Dat klinkt interessant! Hoe werkt het?",
      "DE" := "Das klingt interessant! Wie funktioniert es?",
      "FR" := "Ça a l'air intéressant ! Comment ça marche ?",
      "ES" := "¡Suena interesante! ¿Cómo funciona?",
      "IT" := "Sembra interessante! Come funziona?",
      "JA" := "それは興味深いですね！どのように機能しますか？",
      "ZH" := "听起来很有趣！它是如何工作的？"],
    "You just double-click on any message to translate it." := map[
      "NL" := "Je dubbelklikt gewoon op een bericht om het te vertalen.",
      "DE" := "Du klickst einfach doppelt auf eine Nachricht, um sie zu übersetzen.",
      "FR" := "Tu doubles-cliques simplement sur n'importe quel message pour le traduire.",
      "ES" := "Simplemente haces doble clic en cualquier mensaje para traducirlo.",
      "IT" := "Basta fare doppio clic su qualsiasi messaggio per tradurlo.",
      "JA" := "メッセージをダブルクリックするだけで翻訳できます。",
      "ZH" := "只需双击任何消息即可翻译它。"],
    "When can I try it?" := map[
      "NL" := "Wanneer kan ik het proberen?",
      "DE" := "Wann kann ich es ausprobieren?",
      "FR" := "Quand puis-je l'essayer ?",
      "ES" := "¿Cuándo puedo probarlo?",
      "IT" := "Quando posso provarlo?",
      "JA" := "いつ試すことができますか？",
      "ZH" := "我什么时候可以试试？"],
    "This is a test message to verify the translation service is working." := map[
      "NL" := "Dit is een testbericht om te verifiëren dat de vertaalservice werkt.",
      "DE" := "Dies ist eine Testnachricht, um zu überprüfen, ob der Übersetzungsdienst funktioniert.",
      "FR" := "Ceci est un message de test pour vérifier que le service de traduction fonctionne.",
      "ES" := "Este es un mensaje de prueba para verificar que el servicio de traducción está funcionando.",
      "IT" := "Questo è un messaggio di prova per verificare che il servizio di traduzione funzioni.",
      "JA" := "これは翻訳サービスが機能していることを確認するためのテストメッセージです。",
      "ZH" := "这是一条测试消息，用于验证翻译服务是否正常工作。"]
  ]

  /** The exact text's table entry for the target language, else the text
      tagged with the language code: "[" + targetLang + "] " + text. */
  function FallbackTranslation(text: string, targetLang: string): string {
    if text in FallbackTable && targetLang in FallbackTable[text] && FallbackTable[text][targetLang] != ""
    then FallbackTable[text][targetLang]
    else "[" + targetLang + "] " + text
  }

  /** Every phrase of the table has an entry for exactly the seven languages. */
  lemma TableCoversLanguages(text: string)
    requires text in FallbackTable
    ensures FallbackTable[text].Keys == Languages
  {
  }

  /** Text outside the table, or a language outside the seven, gets the tagged copy. */
  lemma {:induction false} TaggedOutsideTable(text: string, targetLang: string)
    requires text !in FallbackTable || targetLang !in Languages
    ensures FallbackTranslation(text, targetLang) == "[" + targetLang + "] " + text
  {
    if text in FallbackTable {
      TableCoversLanguages(text);
    }
  }

  /** The fallback never produces an empty translation. */
  lemma FallbackNeverEmpty(text: string, targetLang: string)
    ensures |FallbackTranslation(text, targetLang)| > 0
  {
  }

  /** A listed phrase in any of the seven languages gets the table's translation. */
  lemma KnownPhrase(text: string, targetLang: string)
    requires text in FallbackTable && targetLang in Languages
    ensures FallbackTranslation(text, targetLang) == FallbackTable[text][targetLang]
  {
  }
}
