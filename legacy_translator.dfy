/** The earlier translator (src/translator.ts): the paid provider is the
    unconditional fallback, the verdict is plain code equality, and names are
    looked up in the language list. */
module LegacyTranslator {
  import opened Wrappers
  import opened Types
  import opened LegacyCore
  import Translator

  /** `findLangName`: the name of the first list entry with the code, or
      "unknown" when there is none or its name is empty. */
  function FindLangName(list: seq<LangEntry>, code: string): (r: string)
    ensures r != ""
    ensures FindEntry(list, code).None? ==> r == Translator.Unknown
    ensures FindEntry(list, code).Some? && FindEntry(list, code).value.name != "" ==> r == FindEntry(list, code).value.name
  {
    match FindEntry(list, code)
    case None => Translator.Unknown
    case Some(entry) => if entry.name != "" then entry.name else Translator.Unknown
  }

  /** The language list read as a table; the first entry of a code wins. */
  function TableOf(list: seq<LangEntry>): Translator.LangTable {
    if list == [] then map[] else TableOf(list[1..])[list[0].language := list[0].name]
  }

  lemma {:induction false} TableOfFindsFirst(list: seq<LangEntry>, code: string)
    ensures code in TableOf(list) <==> FindEntry(list, code).Some?
    ensures code in TableOf(list) ==> TableOf(list)[code] == FindEntry(list, code).value.name
  {
    if list != [] {
      TableOfFindsFirst(list[1..], code);
    }
  }

  /** The list lookup and the table lookup of the current translator name
      every code alike. */
  lemma FindLangNameAgrees(list: seq<LangEntry>, code: string)
    ensures FindLangName(list, code) == Translator.FindLangName(TableOf(list), code)
  {
    TableOfFindsFirst(list, code);
  }

  /** `translate`: the free provider's result, else the paid provider's, with no
      check for an API key. */
  function Translate(poor: Option<Translation>, rich: Translation): (r: Translation)
    ensures poor.Some? ==> r == poor.value
    ensures poor.None? ==> r == rich
  {
    if poor.Some? then poor.value else rich
  }

  /** `translateAndCheck`: the message is correct exactly when the detected code
      is the required one; there is always a translation. */
  function TranslateAndCheck(requiredLang: string, list: seq<LangEntry>, poor: Option<Translation>, rich: Translation)
    : (ctx: TranslationContext)
    ensures ctx.translation == Some(Translate(poor, rich))
    ensures ctx.isCorrectLang <==> Translate(poor, rich).detectedLangCode == requiredLang
    ensures ctx.requiredLangCode == requiredLang && ctx.requiredLangName == FindLangName(list, requiredLang)
  {
    var translation := Translate(poor, rich);
    TranslationContext(translation.detectedLangCode == requiredLang, requiredLang, FindLangName(list, requiredLang), Some(translation))
  }

  /** Against the same list and the same provider results, the current
      translator (with a key configured) accepts whatever this one accepts,
      names the required language alike and carries the same translation. */
  lemma CurrentTranslatorIsLenient(config: CoreConfig, list: seq<LangEntry>, poor: Option<Translation>, rich: Translation)
    requires config.gcpApiKey != ""
    ensures var legacy := TranslateAndCheck(config.requiredLang, list, poor, rich);
            var current := Translator.TranslateAndCheck(config, TableOf(list), poor, rich);
            && (legacy.isCorrectLang ==> current.isCorrectLang)
            && legacy.requiredLangName == current.requiredLangName
            && legacy.translation == current.translation
  {
    FindLangNameAgrees(list, config.requiredLang);
  }
}
