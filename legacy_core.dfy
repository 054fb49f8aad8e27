/** The earlier, module-level core (src/core.ts): `checkAndTranslate`, which
    returns its verdict as a four-slot tuple, and one global exception list
    shared by every chat, matched with the stricter similarity 0.8. */
module LegacyCore {
  import opened Wrappers
  import opened Strings
  import opened Types
  import opened Core
  import Translator

  const LegacySimilarityThreshold: real := 0.8

  /** One entry of the language list `languagesFile.data.languages`. */
  datatype LangEntry = LangEntry(language: string, name: string)

  /** `Array.prototype.find` on the language list: the first entry with the code. */
  function FindEntry(list: seq<LangEntry>, code: string): (r: Option<LangEntry>)
    ensures r.None? <==> forall k :: 0 <= k < |list| ==> list[k].language != code
    ensures r.Some? ==> exists k :: 0 <= k < |list| && list[k] == r.value && r.value.language == code &&
                                    forall j :: 0 <= j < k ==> list[j].language != code
  {
    if list == [] then None
    else if list[0].language == code then Some(list[0])
    else
      var r := FindEntry(list[1..], code);
      assert forall k :: 1 <= k < |list| ==> list[k] == list[1..][k - 1];
      r
  }

  /** What the free translation library returns for a message. */
  datatype ProviderReply = ProviderReply(detectedCode: string, confidence: real, translatedText: string)

  /** The detection is not trusted: undetermined, or below the confidence
      threshold. */
  predicate Relaxed(reply: ProviderReply) {
    reply.detectedCode == "und" || reply.confidence < Translator.MinConfidence
  }

  /** The tuple `[isCorrect, detectedName, requiredName, text]`. */
  datatype LegacyVerdict = LegacyVerdict(isCorrect: bool, detectedName: string, requiredName: string, text: string)

  /** `checkAndTranslate`. No verdict (a rejected promise) when the library
      failed or either code is missing from the list, because both lookups
      dereference the entry they find before any other test. An undetermined
      code ("und") or a low confidence counts as correct and keeps the original
      text; otherwise the codes are compared and the translation is returned. */
  function CheckAndTranslate(messageText: string, requiredLang: string, list: seq<LangEntry>, reply: Option<ProviderReply>)
    : (r: Option<LegacyVerdict>)
    ensures r.None? <==>
      reply.None? || FindEntry(list, reply.value.detectedCode).None? || FindEntry(list, requiredLang).None?
    ensures r.Some? ==>
      && r.value.detectedName == FindEntry(list, reply.value.detectedCode).value.name
      && r.value.requiredName == FindEntry(list, requiredLang).value.name
    ensures r.Some? ==> (r.value.isCorrect <==> Relaxed(reply.value) || reply.value.detectedCode == requiredLang)
    ensures r.Some? ==> r.value.text == (if Relaxed(reply.value) then messageText else reply.value.translatedText)
  {
    if reply.None? then None
    else
      var data := reply.value;
      var detected := FindEntry(list, data.detectedCode);
      var required := FindEntry(list, requiredLang);
      if detected.None? || required.None? then None
      else if data.detectedCode == "und" then
        Some(LegacyVerdict(true, detected.value.name, required.value.name, messageText))
      else if data.confidence < Translator.MinConfidence then
        Some(LegacyVerdict(true, detected.value.name, required.value.name, messageText))
      else
        Some(LegacyVerdict(data.detectedCode == requiredLang, detected.value.name, required.value.name, data.translatedText))
  }

  /** The current verdict is never stricter: whatever the tuple version accepts,
      `Translator.Check` accepts for the same detection; the two differ only on
      the code "unknown", which only the current version also relaxes. */
  lemma CurrentVerdictIsLenient(messageText: string, requiredLang: string, list: seq<LangEntry>,
                                reply: ProviderReply, table: Translator.LangTable, name: string)
    requires CheckAndTranslate(messageText, requiredLang, list, Some(reply)).Some?
    ensures var legacy := CheckAndTranslate(messageText, requiredLang, list, Some(reply)).value;
            var t := Translation(messageText, reply.detectedCode, name, reply.translatedText, reply.confidence);
            var current := Translator.Check(requiredLang, table, Some(t));
            && (legacy.isCorrect ==> current.isCorrectLang)
            && (reply.detectedCode != "unknown" ==> legacy.isCorrect == current.isCorrectLang)
  {
  }

  /** A message the 0.8 threshold exempts is exempt under 0.75 as well. */
  lemma LegacyThresholdStricter(text: string, snapshot: Option<seq<string>>, sim: Similarity)
    ensures Permission(text, snapshot, sim, LegacySimilarityThreshold) == Some(true) ==>
            Permission(text, snapshot, sim, SimilarityThreshold) == Some(true)
  {
    if snapshot.Some? {
      ThresholdMonotone(snapshot.value, Lower(text), sim, SimilarityThreshold, LegacySimilarityThreshold);
      AnyMatchIff(snapshot.value, Lower(text), sim, SimilarityThreshold);
      AnyMatchIff(snapshot.value, Lower(text), sim, LegacySimilarityThreshold);
    }
  }

  /** The `exceptions` collection: one list shared by every chat. */
  class GlobalExceptionStore {
    var entries: seq<string>

    constructor ()
      ensures entries == []
    {
      entries := [];
    }

    /** `addException`: appends the lower-cased text; nothing changes when the
        store call fails. */
    method AddException(messageText: string, available: bool) returns (ok: bool)
      modifies this
      ensures ok == available
      ensures entries == if ok then old(entries) + [Lower(messageText)] else old(entries)
    {
      if !available {
        return false;
      }
      entries := entries + [Lower(messageText)];
      return true;
    }

    /** `removeException`: deletes every entry equal to the lower-cased text. */
    method RemoveException(messageText: string, available: bool) returns (ok: bool)
      modifies this
      ensures ok == available
      ensures entries == if ok then Without(old(entries), Lower(messageText)) else old(entries)
    {
      if !available {
        return false;
      }
      entries := RemoveMatching(entries, Lower(messageText));
      return true;
    }

    /** `shouldBePermitted`: the same lexical rules, then the global list with
        the threshold 0.8. */
    method ShouldBePermitted(messageText: string, sim: Similarity, readOk: bool) returns (r: Option<bool>)
      ensures r == Permission(messageText, if readOk then Some(entries) else None, sim, LegacySimilarityThreshold)
    {
      if LexicallyExempt(messageText) {
        return Some(true);
      }
      if !readOk {
        return None;
      }
      var found := FuzzyMatch(entries, Lower(messageText), sim, LegacySimilarityThreshold);
      return Some(found);
    }
  }
}
