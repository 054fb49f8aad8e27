/** The verdict logic of `Translator` (src/core/translator.ts): the order in
    which the two providers are tried, the language-name lookup, and the
    fail-open decision whether a message is in the required language. The
    providers themselves are outside the model: what each would return for the
    message is given as a value. */
module Translator {
  import opened Wrappers
  import opened Types

  /** The contents of the language table: ISO code to human-readable name. */
  type LangTable = map<string, string>

  const Unknown: string := "unknown"

  /** Below this confidence a detection is not trusted. */
  const MinConfidence: real := 0.7

  /** The sentinel codes a provider reports when it cannot detect a language. */
  predicate Undetermined(code: string) {
    code == "und" || code == "unknown"
  }

  /** `findLangName`: the table's name for the code, or "unknown" when the code
      is missing or its name is empty. */
  function FindLangName(table: LangTable, code: string): (r: string)
    ensures r != ""
    ensures code in table && table[code] != "" ==> r == table[code]
    ensures r != Unknown ==> code in table && table[code] == r
    ensures code !in table ==> r == Unknown
  {
    if code in table && table[code] != "" then table[code] else Unknown
  }

  /** The result of `translate` together with whether the paid provider was asked. */
  datatype Fallback = Fallback(result: Option<Translation>, richCalled: bool)

  /** `translate`: the free provider's result when it has one; otherwise the paid
      provider, but only when an API key is configured; otherwise nothing. */
  function Translate(poor: Option<Translation>, rich: Translation, gcpApiKey: string): (r: Fallback)
    ensures r.richCalled <==> poor.None? && gcpApiKey != ""
    ensures poor.Some? ==> r.result == poor
    ensures r.richCalled ==> r.result == Some(rich)
    ensures r.result.None? <==> poor.None? && gcpApiKey == ""
  {
    if poor.None? && gcpApiKey != "" then Fallback(Some(rich), true)
    else Fallback(poor, false)
  }

  /** With a configuration that was built successfully the key is always there,
      so a failing free provider always falls back to the paid one. */
  lemma ValidConfigAlwaysTranslates(config: CoreConfig, poor: Option<Translation>, rich: Translation)
    requires ValidConfig(config)
    ensures Translate(poor, rich, config.gcpApiKey).result.Some?
  {
  }

  /** The decision part of `translateAndCheck`: absent translation, undetermined
      code or low confidence count as correct; otherwise the detected code must
      be the required one. */
  function Check(requiredLang: string, table: LangTable, translation: Option<Translation>): (ctx: TranslationContext)
    ensures ctx.requiredLangCode == requiredLang
    ensures ctx.requiredLangName == FindLangName(table, requiredLang)
    ensures ctx.translation == translation
    ensures ctx.isCorrectLang <==>
      || translation.None?
      || Undetermined(translation.value.detectedLangCode)
      || translation.value.confidence < MinConfidence
      || translation.value.detectedLangCode == requiredLang
  {
    var requiredLangName := FindLangName(table, requiredLang);
    if translation.None? then
      TranslationContext(true, requiredLang, requiredLangName, None)
    else
      var t := translation.value;
      var isCorrectLang := t.detectedLangCode == requiredLang;
      var isCorrectLang := if Undetermined(t.detectedLangCode) then true else isCorrectLang;
      var isCorrectLang := if t.confidence < MinConfidence then true else isCorrectLang;
      TranslationContext(isCorrectLang, requiredLang, requiredLangName, translation)
  }

  /** `translateAndCheck`: translate, then decide. */
  function TranslateAndCheck(config: CoreConfig, table: LangTable, poor: Option<Translation>, rich: Translation)
    : (ctx: TranslationContext)
    ensures ctx.requiredLangCode == config.requiredLang
    ensures ctx.translation == Translate(poor, rich, config.gcpApiKey).result
    ensures poor.None? && config.gcpApiKey == "" ==> ctx.isCorrectLang && ctx.translation.None?
  {
    Check(config.requiredLang, table, Translate(poor, rich, config.gcpApiKey).result)
  }

  /** Fail-open: a message is only ever judged wrong on a trusted, determined
      detection of another language. */
  lemma {:induction false} WrongOnlyOnTrustedDetection(requiredLang: string, table: LangTable, translation: Option<Translation>)
    ensures !Check(requiredLang, table, translation).isCorrectLang ==>
      && translation.Some?
      && !Undetermined(translation.value.detectedLangCode)
      && translation.value.confidence >= MinConfidence
      && translation.value.detectedLangCode != requiredLang
  {
  }

  /** Lowering the confidence never turns a correct verdict into a wrong one. */
  lemma {:induction false} ConfidenceMonotone(requiredLang: string, table: LangTable, t: Translation, c: real)
    requires c <= t.confidence
    ensures Check(requiredLang, table, Some(t)).isCorrectLang ==>
      Check(requiredLang, table, Some(t.(confidence := c))).isCorrectLang
  {
  }

  /** The two expectations of the core tests: an English sentence passes and a
      confidently detected Polish one does not, with "en" required. */
  lemma {:induction false} RequiredEnglishScenarios(table: LangTable, english: Translation, polish: Translation)
    requires english.detectedLangCode == "en" && polish.detectedLangCode == "pl"
    requires polish.confidence >= MinConfidence
    ensures Check("en", table, Some(english)).isCorrectLang
    ensures !Check("en", table, Some(polish)).isCorrectLang
    ensures Check("en", table, Some(polish)).requiredLangCode == "en"
  {
  }
}
