/** The user-interface phrases of the content script (hover hint, badge,
    loading and error texts) and their lookup in the stored phrase table,
    which falls back to the built-in English text. */
module UiPhrases {
  import opened Wrappers

  /** `translationData`: phrase key, then language code, to localized phrase. */
  type PhraseTable = map<string, map<string, string>>

  const KeyTranslating := "Translating..."
  const KeyTranslatedTo := "Translated to"
  const KeyDoubleClickToTranslate := "Double-click to translate"
  const KeyDoubleClickToRevert := "Double-click to revert"
  const KeyTranslationFailed := "Translation failed"

  /** The texts one double-click uses. */
  datatype Phrases = Phrases(
    translating: string,
    translatedTo: string,
    doubleClickToTranslate: string,
    doubleClickToRevert: string,
    translationFailed: string)

  /** The built-in texts, used when the table has no entry. */
  function EnglishPhrases(lang: string): Phrases {
    Phrases("Translating...", "Translated to " + lang, "Double-click to translate",
            "Double-click to revert", "Translation failed. Check API key.")
  }

  /** `data[key] && data[key][lang]`: the entry when present and non-empty. */
  function Lookup(data: PhraseTable, key: string, lang: string): Option<string> {
    if key in data && lang in data[key] && data[key][lang] != "" then Some(data[key][lang]) else None
  }

  /** The badge text: the localized "Translated to" followed by the language code. */
  function BadgeText(data: PhraseTable, lang: string): string {
    match Lookup(data, KeyTranslatedTo, lang)
    case Some(prefix) => prefix + " " + lang
    case None => "Translated to " + lang
  }

  /** The phrases of a double-click (content.js, `handleMessageDoubleClick`):
      each one is the table's entry for the target language when there is
      one, the English text otherwise; without a table, all English. */
  function PhrasesFor(data: Option<PhraseTable>, lang: string): (p: Phrases)
    ensures data.None? ==> p == EnglishPhrases(lang)
    ensures data.Some? ==> p.translating == Lookup(data.value, KeyTranslating, lang).GetOr("Translating...")
    ensures data.Some? && Lookup(data.value, KeyTranslatedTo, lang).Some?
      ==> p.translatedTo == data.value[KeyTranslatedTo][lang] + " " + lang
    ensures data.Some? && Lookup(data.value, KeyTranslatedTo, lang).None?
      ==> p.translatedTo == "Translated to " + lang
    ensures data.Some? ==>
      p.doubleClickToTranslate == Lookup(data.value, KeyDoubleClickToTranslate, lang).GetOr("Double-click to translate")
    ensures data.Some? && Lookup(data.value, KeyDoubleClickToRevert, lang).None?
      ==> p.doubleClickToRevert == "Double-click to revert"
    ensures data.Some? && Lookup(data.value, KeyDoubleClickToRevert, lang).Some?
      ==> p.doubleClickToRevert == data.value[KeyDoubleClickToRevert][lang]
    ensures data.Some? ==>
      p.translationFailed == Lookup(data.value, KeyTranslationFailed, lang).GetOr("Translation failed. Check API key.")
  {
    match data
    case None => EnglishPhrases(lang)
    case Some(t) =>
      var en := EnglishPhrases(lang);
      Phrases(
        Lookup(t, KeyTranslating, lang).GetOr(en.translating),
        BadgeText(t, lang),
        Lookup(t, KeyDoubleClickToTranslate, lang).GetOr(en.doubleClickToTranslate),
        Lookup(t, KeyDoubleClickToRevert, lang).GetOr(en.doubleClickToRevert),
        Lookup(t, KeyTranslationFailed, lang).GetOr(en.translationFailed))
  }

  /** Text `updateAllIndicators` gives a hover indicator. */
  function RefreshedHover(data: PhraseTable, lang: string, translated: bool): string {
    if translated then
      (if KeyDoubleClickToRevert in data && lang in data[KeyDoubleClickToRevert] && data[KeyDoubleClickToRevert][lang] != ""
       then data[KeyDoubleClickToRevert][lang] else "Double-click to revert")
    else
      (if KeyDoubleClickToTranslate in data && lang in data[KeyDoubleClickToTranslate] && data[KeyDoubleClickToTranslate][lang] != ""
       then data[KeyDoubleClickToTranslate][lang] else "Double-click to translate")
  }

  /** The refresh after a language change shows the same texts a double-click
      would choose for that language. */
  lemma RefreshAgreesWithDoubleClick(data: PhraseTable, lang: string, translated: bool)
    ensures RefreshedHover(data, lang, translated)
      == (if translated then PhrasesFor(Some(data), lang).doubleClickToRevert
          else PhrasesFor(Some(data), lang).doubleClickToTranslate)
  {
  }

  // ---------------------------------------------------------------------
  // The table the content script stores at start-up
  // ---------------------------------------------------------------------

  const PhraseKeys: set<string> :=
    {KeyTranslating, KeyTranslatedTo, KeyDoubleClickToTranslate, KeyDoubleClickToRevert, KeyTranslationFailed}

  const StoredLanguages: set<string> := {"EN", "NL", "DE", "FR", "ES"}

  /** The stored text of one key in one language: English is the key itself;
      the other languages pick their text by key, and an unknown key stays as
      it is. */
  function StoredText(lang: string, key: string): string {
    if lang == "EN" then key
    else if lang == "NL" then
      (if key == KeyTranslating then "Vertalen..."
       else if key == KeyTranslatedTo then "Vertaald naar"
       else if key == KeyDoubleClickToTranslate then "Dubbelklik om te vertalen"
       else if key == KeyDoubleClickToRevert then "Dubbelklik om terug te zetten"
       else if key == KeyTranslationFailed then "Vertaling mislukt. Controleer API-sleutel."
       else key)
    else if lang == "DE" then
      (if key == KeyTranslating then "Übersetzen..."
       else if key == KeyTranslatedTo then "Übersetzt in"
       else if key == KeyDoubleClickToTranslate then "Doppelklicken zum Übersetzen"
       else if key == KeyDoubleClickToRevert then "Doppelklicken zum Zurücksetzen"
       else if key == KeyTranslationFailed then "Übersetzung fehlgeschlagen. API-Schlüssel prüfen."
       else key)
    else if lang == "FR" then
      (if key == KeyTranslating then "Traduction en cours..."
       else if key == KeyTranslatedTo then "Traduit en"
       else if key == KeyDoubleClickToTranslate then "Double-cliquez pour traduire"
       else if key == KeyDoubleClickToRevert then "Double-cliquez pour rétablir"
       else if key == KeyTranslationFailed then "Échec de la traduction. Vérifiez la clé API."
       else key)
    else
      (if key == KeyTranslating then "Traduciendo..."
       else if key == KeyTranslatedTo then "Traducido al"
       else if key == KeyDoubleClickToTranslate then "Haga doble clic para traducir"
       else if key == KeyDoubleClickToRevert then "Haga doble clic para revertir"
       else if key == KeyTranslationFailed then "Traducción fallida. Comprueba la clave API."
       else key)
  }

  /** The per-language entry of one key: EN, NL, DE, FR and ES. */
  function StoredEntry(key: string): map<string, string> {
    map lang | lang in StoredLanguages :: StoredText(lang, key)
  }

  /** `saveTranslationsToStorage`: one entry per phrase key. */
  function StoredTable(): PhraseTable {
    map key | key in PhraseKeys :: StoredEntry(key)
  }

  /** For a language the stored table does not list, every phrase is the English one. */
  lemma {:induction false} UnlistedLanguageIsEnglish(lang: string)
    requires lang !in StoredLanguages
    ensures PhrasesFor(Some(StoredTable()), lang) == EnglishPhrases(lang)
  {
    var t := StoredTable();
    forall key | key in PhraseKeys
      ensures Lookup(t, key, lang).None?
    {
      assert t[key].Keys == StoredLanguages;
    }
  }

  /** A stored table lookup for a listed key and language finds that key's
      text in that language, whenever the text is not empty. */
  lemma {:induction false} StoredLookup(key: string, lang: string)
    requires key in PhraseKeys && lang in StoredLanguages && StoredText(lang, key) != ""
    ensures Lookup(StoredTable(), key, lang) == Some(StoredText(lang, key))
  {
    assert StoredTable()[key] == StoredEntry(key);
  }

  /** In the stored table, the English entry of every phrase key is the key itself. */
  lemma {:induction false} StoredEnglishIsKey(key: string)
    requires key in PhraseKeys
    ensures Lookup(StoredTable(), key, "EN") == Some(key)
  {
    assert key != "" by { assert |key| > 0; }
    StoredLookup(key, "EN");
  }

  /** A badge built from the "Translated to" key reads like the built-in one. */
  lemma {:induction false} KeyedBadgeIsBuiltIn(lang: string)
    ensures KeyTranslatedTo + " " + lang == "Translated to " + lang
  {
    assert KeyTranslatedTo + " " == "Translated to ";
  }

  /** With the stored table, English differs from the built-in texts only in
      the failure message, which loses its "Check API key." hint. */
  lemma {:induction false} EnglishFromStoredTable()
    ensures PhrasesFor(Some(StoredTable()), "EN")
         == EnglishPhrases("EN").(translationFailed := "Translation failed")
  {
    var p := PhrasesFor(Some(StoredTable()), "EN");
    var en := EnglishPhrases("EN");
    StoredEnglishIsKey(KeyTranslating);
    StoredEnglishIsKey(KeyTranslatedTo);
    StoredEnglishIsKey(KeyDoubleClickToTranslate);
    StoredEnglishIsKey(KeyDoubleClickToRevert);
    StoredEnglishIsKey(KeyTranslationFailed);
    KeyedBadgeIsBuiltIn("EN");
    assert p.translating == en.translating;
    assert p.translatedTo == en.translatedTo;
    assert p.doubleClickToTranslate == en.doubleClickToTranslate;
    assert p.doubleClickToRevert == en.doubleClickToRevert;
    assert p.translationFailed == "Translation failed";
  }

  /** No stored text of a phrase key is empty, in any language. */
  lemma {:induction false} StoredTextNonEmpty(lang: string, key: string)
    requires key in PhraseKeys
    ensures StoredText(lang, key) != ""
  {
    assert |key| > 0;
  }

  /** The stored table's phrases for a listed language are its stored texts,
      the badge followed by the language code. */
  lemma {:induction false} StoredPhrases(lang: string)
    requires lang in StoredLanguages
    ensures PhrasesFor(Some(StoredTable()), lang)
         == Phrases(StoredText(lang, KeyTranslating),
                    StoredText(lang, KeyTranslatedTo) + " " + lang,
                    StoredText(lang, KeyDoubleClickToTranslate),
                    StoredText(lang, KeyDoubleClickToRevert),
                    StoredText(lang, KeyTranslationFailed))
  {
    StoredTextNonEmpty(lang, KeyTranslating);
    StoredTextNonEmpty(lang, KeyTranslatedTo);
    StoredTextNonEmpty(lang, KeyDoubleClickToTranslate);
    StoredTextNonEmpty(lang, KeyDoubleClickToRevert);
    StoredTextNonEmpty(lang, KeyTranslationFailed);
    StoredLookup(KeyTranslating, lang);
    StoredLookup(KeyTranslatedTo, lang);
    StoredLookup(KeyDoubleClickToTranslate, lang);
    StoredLookup(KeyDoubleClickToRevert, lang);
    StoredLookup(KeyTranslationFailed, lang);
  }

  /** With the stored table, Dutch gets the Dutch phrases. */
  lemma {:induction false} DutchFromStoredTable()
    ensures PhrasesFor(Some(StoredTable()), "NL")
         == Phrases("Vertalen...", "Vertaald naar" + " " + "NL", "Dubbelklik om te vertalen",
                    "Dubbelklik om terug te zetten", "Vertaling mislukt. Controleer API-sleutel.")
  {
    assert "NL" != "EN";
    assert StoredText("NL", KeyTranslating) == "Vertalen...";
    assert StoredText("NL", KeyTranslatedTo) == "Vertaald naar";
    assert StoredText("NL", KeyDoubleClickToTranslate) == "Dubbelklik om te vertalen";
    assert StoredText("NL", KeyDoubleClickToRevert) == "Dubbelklik om terug te zetten";
    assert StoredText("NL", KeyTranslationFailed) == "Vertaling mislukt. Controleer API-sleutel.";
    StoredPhrases("NL");
  }
}
