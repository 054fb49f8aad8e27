# Language enforcer bot: the moderation decision engine in Dafny

A chat bot that enforces one required language in a group. For every message it
asks a translation provider which language the message is in. When the language
is wrong, the detection is trusted, and no exemption applies, it rebukes the
sender and can mute them for a while. This project models the decision logic
and proves its properties:

- **Types** (`types_core.dfy`, src/types_core.ts). The `Translation` and
  `TranslationContext` records are datatypes, so their constructors store their
  arguments verbatim by construction. The `CoreConfig` environment reading is a
  function returning a `Result`.
- **Translator** (`translator.dfy`, src/core/translator.ts). The provider
  fallback order (`translate`), the language-name lookup and the fail-open
  verdict (`translateAndCheck`).
- **Core** (`core.dfy`, src/core/core.ts). The ordered lexical exemption rules,
  the fuzzy loop over stored phrases, and class `ExceptionStore`. That class
  holds the per-group phrase lists and group settings that `initNewGroup`,
  `addException` and `removeException` change.
- **LegacyCore** (`legacy_core.dfy`, src/core.ts) and **LegacyTranslator**
  (`legacy_translator.dfy`, src/translator.ts). The earlier revision: a tuple
  verdict, one global phrase list matched at 0.8, and a list-based name lookup.
  Lemmas relate them to the current revision. The current verdict is never
  stricter, 0.8 exempts less than 0.75, and the list lookup equals the table
  lookup.
- **TelegramBot** (`bot_telegram.dfy`, src/telegram/bot_telegram.ts). Class
  `EnforcingBot` keeps the ordered log of calls it makes on the platform
  (send, restrict) and the queue of scheduled unmute callbacks. Its invariant
  `Valid()` says that every mute is followed by exactly one restore, done or
  pending, and that restores come in the order of the mutes.

Foreign pieces are parameters:
- the similarity score `sim(stored, input)` of the string-similarity library;
- the language table (a map, or the list of `LangEntry` for the earlier
  revision);
- what each translation provider returns;
- the chat-member status;
- whether each store call succeeds.

In these places the model follows what the code does rather than what one might expect:
- The code also treats the detected code "unknown" as undetermined.
- When reading the exception list fails in `shouldBePermitted`, the promise is
  rejected. The model returns `None` and the handler then does nothing. It does
  not count the message as not exempt.
- The earlier `checkAndTranslate` looks up both language names before the "und"
  test. A code missing from the list therefore gives no verdict at all.

## Model

| member | source | states |
|---|---|---|
| Strings.Lower | src/core/core.ts:99 | lower-casing keeps the length and lower-cases each character in place (ASCII letters only) |
| Strings.LowerIdempotent | src/telegram/bot_telegram.ts:73 | lower-casing twice equals lower-casing once, so the adapter's lower-casing and then the store's store the same phrase |
| Strings.DeleteAll | src/core/core.ts:113-114 | `replace(/c/g, "")` leaves no `c` and never lengthens the text |
| Strings.DeleteAllContents | src/core/core.ts:113-114 | every character other than `c` is kept as often as it occurs; with `DeleteAllAppend` the order is kept too |
| Strings.DeleteAllAppend | src/core/core.ts:113-114 | deletion distributes over concatenation, so the kept characters stay in order |
| Strings.DeleteTwiceEmpty | src/core/core.ts:112-117 | deleting `a` and then `b` gives "" exactly when every character is `a` or `b` |
| Strings.ContainsAt | src/core/core.ts:128 | `includes` finds an occurrence at any position |
| Strings.ContainsChars | src/core/core.ts:128-130 | every character of an occurring substring occurs in the text |
| Strings.ContainsLower | src/core/core.ts:128-130 | an occurrence of a substring survives lower-casing of both |
| Types.UnescapeNewlines | src/types_core.ts:31 | never lengthens the key, and empties only the empty key |
| Types.EscapeNewlines | src/types_core.ts:31 | writing a key on one line leaves no newline character in it |
| Types.UnescapeEscape | src/types_core.ts:31 | a key without backslashes, written with escaped newlines, is restored exactly: each backslash-`n` pair becomes one newline character |
| Types.UnescapeLeavesNoEscape | src/types_core.ts:31 | after `replace(/\\n/g, "\n")` no backslash-n pair is left in the private key |
| Types.UnescapeKeepsPlainText | src/types_core.ts:31 | a key with no backslash-n pair is left unchanged |
| Types.UnescapeIdempotent | src/types_core.ts:31 | unescaping an already unescaped key changes nothing |
| Types.ParseDecimal | src/types_core.ts:34 | `Number(s)` gives a number exactly for digits, or a sign followed by at least one digit |
| Types.SignedRoundTrip | src/types_core.ts:34 | a `-` in front of the decimal rendering of n gives -n, a `+` gives n, and a leading zero gives n |
| Types.DecimalRoundTrip | src/types_core.ts:34 | parsing the decimal rendering of n gives back n |
| Types.MuteTimeoutOf | src/types_core.ts:34 | `Number(v) \|\| 30000`: 30000 when the variable is missing, not a number, or zero; otherwise the parsed value, which is never 0 |
| Types.MuteTimeoutFromDecimal | src/types_core.ts:34 | a positive timeout written in decimal is used as written |
| Types.NewCoreConfig | src/types_core.ts:21-49 | fails exactly when a credential is missing or empty, naming the first in the order GCP_API_KEY, PROJECT_ID, CLIENT_EMAIL, PRIVATE_KEY. On success: REQUIRED_LANG defaults to "en"; the flags are true only for the exact string "true"; the key is unescaped; the configuration is `ValidConfig` |
| Translator.FindLangName | src/core/translator.ts:128-136 | the table's name for the code when present and non-empty, otherwise "unknown"; never empty |
| Translator.Translate | src/core/translator.ts:42-51 | a free-provider result wins and the paid provider is not asked; the paid one is asked exactly when the free one failed and a key is set; otherwise there is no translation |
| Translator.ValidConfigAlwaysTranslates | src/core/translator.ts:42-51 | with a configuration that was built successfully, `translate` always yields a translation |
| Translator.Check | src/core/translator.ts:16-40 | correct exactly when there is no translation, the code is "und" or "unknown", the confidence is below 0.7, or the code is the required one. The context carries the required code, its name and the translation unchanged |
| Translator.TranslateAndCheck | src/core/translator.ts:16-40 | the context carries the required code and the result of `translate`; with no key and no free result it is correct and has no translation |
| Translator.WrongOnlyOnTrustedDetection | src/core/translator.ts:22-37 | fail-open: a wrong verdict implies a determined detection of another language with confidence at least 0.7 |
| Translator.ConfidenceMonotone | src/core/translator.ts:35-37 | lowering the confidence never turns a correct verdict into a wrong one |
| Translator.RequiredEnglishScenarios | tests/core.test.ts:13-27 | with "en" required, an English detection is correct and a confident Polish one is not |
| Core.FirstLexicalRule | src/core/core.ts:99-130 | the short-message rule fires exactly on a length of at most 4, the command rule exactly on a longer text starting with `/` or `@`, and the link rule only on a text containing "https://" once lower-cased |
| Core.LexicallyExempt | src/core/core.ts:99-130 | some rule exempts the message exactly when it is at most 4 long, starts with `/` or `@`, is made of x/d letters or of h/a letters in any case, or contains "https://" in any case |
| Core.FirstLexicalRuleMeaning | src/core/core.ts:99-130 | each rule fires exactly when its condition holds and every earlier rule did not: length at most 4, then a leading `/` or `@`, then only x/d letters, then only h/a letters, then "https://" in the lower-cased text |
| Core.LinkInAnyCase | src/core/core.ts:128-130 | a link scheme in any letter case, such as "HTTPS://", exempts the message |
| Core.LaughterLetters | src/core/core.ts:112-125 | deleting two letters from the lower-cased text leaves "" exactly when every character is one of them in either case |
| Core.LaughterIsExempt | src/core/core.ts:111-125 | laughter longer than four characters, made of x/d or of h/a letters in any case, is exempt |
| Core.LaughterExamples | src/core/core.ts:111-125 | "XDXDXD" and "hahaha" are exempt |
| Core.NoLexicalRule | src/core/core.ts:99-130 | a text longer than four characters, starting with neither `/` nor `@`, with a character other than x/d, one other than h/a, and no colon, is not exempt |
| Core.ProseExample | src/core/core.ts:99-130 | "hello XD there" and "oto tekst po polsku" are not lexically exempt |
| Core.AnyMatchIff | src/core/core.ts:134-141 | the fuzzy test holds exactly when some stored phrase scores at least the threshold against the input |
| Core.AnyMatchMonotone | src/core/core.ts:134-141 | a list containing every phrase of another exempts at least what the other exempts |
| Core.AnyMatchOrderIndependent | src/core/core.ts:134-141 | the order of the stored phrases does not change the verdict |
| Core.ThresholdMonotone | src/core/core.ts:137 | a lower threshold exempts at least what a higher one exempts |
| Core.FuzzyMatch | src/core/core.ts:132-143 | the early-return loop returns true exactly when some stored phrase scores at least the threshold |
| Core.Permission | src/core/core.ts:98-144 | exempt when a lexical rule fires, whatever the store holds or whether it can be read. Otherwise there is no verdict exactly when the read fails, and the message is exempt exactly when some stored phrase scores at least the threshold against the lower-cased text |
| Core.ShortMessageIgnoresStore | src/core/core.ts:102-104 | a message of length at most 4 is permitted and the exception list is never consulted |
| Core.Without | src/core/core.ts:79-84 | after removal no phrase equals the key and only stored phrases remain |
| Core.WithoutAppend | src/core/core.ts:82-84 | removal distributes over concatenation, so the other phrases keep their order |
| Core.WithoutKeepsOthers | src/core/core.ts:82-84 | every other phrase keeps its number of occurrences |
| Core.WithoutAbsent | src/core/core.ts:82-84 | removing a phrase that is not stored changes nothing |
| Core.AddThenRemove | src/core/core.ts:40-91 | adding a phrase and removing it again equals removing it |
| Core.RemovalNeverGrants | src/core/core.ts:69-91 | removal never creates a fuzzy exemption |
| Core.AdditionNeverRevokes | src/core/core.ts:40-54 | adding a phrase never takes a permission away |
| Core.AddedPhraseIsPermitted | src/core/core.ts:42-47 | when identical strings score 1.0, a message whose text was added is permitted afterwards |
| Core.RemoveMatching | src/core/core.ts:82-84 | the deletion loop drops exactly the phrases equal to the key and keeps the others in order and multiplicity |
| Core.ExceptionStore.InitNewGroup | src/core/core.ts:28-34 | creates the group document with requiredLang "en", mutePeople false and beHelpful true only if none exists and the store call succeeds; exceptions are untouched |
| Core.ExceptionStore.AddException | src/core/core.ts:40-54 | on success appends exactly the lower-cased text to that group's list (duplicates allowed) and returns true. On store failure it returns false and nothing changes. Other groups are untouched |
| Core.ExceptionStore.RemoveException | src/core/core.ts:69-91 | on success deletes every phrase of that group equal to the lower-cased text, keeps the rest in order, and returns true even if nothing matched. Other groups are untouched. On failure it returns false and nothing changes |
| Core.ExceptionStore.ShouldBePermitted | src/core/core.ts:98-144 | the verdict is `Permission` over this group's phrases with threshold 0.75 |
| LegacyCore.FindEntry | src/core.ts:50-56 | `find` gives the first entry with the code, or nothing when no entry has it |
| LegacyCore.CheckAndTranslate | src/core.ts:33-74 | no verdict when the library failed or a code is missing from the list. For "und" or confidence below 0.7: true with the original text in the fourth slot. Otherwise code equality with the translation. Slots two and three are the looked-up names |
| LegacyCore.CurrentVerdictIsLenient | src/core.ts:58-73 | whatever the tuple verdict accepts, the current verdict accepts; they agree except on the code "unknown" |
| LegacyCore.LegacyThresholdStricter | src/core.ts:178 | a message exempt at 0.8 is exempt at 0.75 |
| LegacyCore.GlobalExceptionStore.AddException | src/core.ts:80-97 | appends the lower-cased text to the global list; false and unchanged only on store failure |
| LegacyCore.GlobalExceptionStore.RemoveException | src/core.ts:104-124 | deletes every global entry equal to the lower-cased text; false and unchanged only on store failure |
| LegacyCore.GlobalExceptionStore.ShouldBePermitted | src/core.ts:131-187 | the same ordered lexical rules, then the global list with threshold 0.8 |
| LegacyTranslator.FindLangName | src/translator.ts:85-95 | the name of the first list entry with the code, or "unknown" when none or empty |
| LegacyTranslator.TableOfFindsFirst | src/translator.ts:86-88 | read as a table, the list maps each code to the name of its first entry |
| LegacyTranslator.FindLangNameAgrees | src/translator.ts:85-95 | the list lookup equals the current table lookup on the same data |
| LegacyTranslator.Translate | src/translator.ts:20-29 | the free result when there is one, else always the paid provider's |
| LegacyTranslator.TranslateAndCheck | src/translator.ts:9-18 | correct exactly when the detected code equals the required one, with no relaxation; the context always holds the translation and the looked-up required name |
| LegacyTranslator.CurrentTranslatorIsLenient | src/translator.ts:15 | on the same inputs the current translator accepts whatever this one accepts and carries the same translation and required name |
| TelegramBot.IsAdminUser | src/telegram/bot_telegram.ts:135-137 | of Telegram's six member statuses, "creator" and "administrator" are admins and "member", "restricted", "left" and "kicked" are not |
| TelegramBot.HelpfulLine | src/telegram/bot_telegram.ts:164-170 | when the translation differs from what was written: the fixed prefix, the translation verbatim, then a closing quotation mark; otherwise the fixed "no idea" sentence |
| TelegramBot.Rebuke | src/telegram/bot_telegram.ts:155-170 | starts with the header naming both languages; the mute line follows the header when muted; ends with the helpful line when being helpful; is the header alone otherwise |
| TelegramBot.RebukeLayout | src/telegram/bot_telegram.ts:155-170 | the mute line follows the header exactly when the sender is muted, and the rebuke is nothing but header, mute line and helpful line: its length is the sum of the parts present |
| TelegramBot.ShouldEnforceMeaning | src/telegram/bot_telegram.ts:35-46 | the handler acts exactly on a trusted, determined detection of another language, in a text no lexical rule exempts, with a readable store that holds no similar phrase |
| TelegramBot.PolishSentenceIsEnforced | src/telegram/bot_telegram.ts:35-46 | "oto tekst po polsku", detected as Polish at 0.95 with "en" required and no stored phrases, is acted on |
| TelegramBot.UndeterminedIsNeverEnforced | src/core/translator.ts:29-32 | a message detected as "und" is never acted on, whatever the store holds |
| TelegramBot.LeftmostMatch | src/telegram/bot_telegram.ts:50 | the regular expression search: none exactly when the pattern matches nowhere, otherwise the leftmost match position |
| TelegramBot.CaptureAt | src/telegram/bot_telegram.ts:50 | at a match, `(.+)` captures a non-empty single line that follows the literal in the text |
| TelegramBot.RestOfLine | src/telegram/bot_telegram.ts:50 | `.+` takes the longest prefix without a line terminator |
| TelegramBot.CommandArgument | src/telegram/bot_telegram.ts:50 | no capture exactly when `/except (.+)` matches nowhere; otherwise the capture is the rest of the line after the literal at the leftmost match, non-empty, on one line, and occurring after the literal in the text |
| TelegramBot.CommandArgumentOfCommand | src/telegram/bot_telegram.ts:91 | a command followed by a one-line argument captures exactly that argument |
| TelegramBot.EnforcingBot.Send | src/telegram/bot_telegram.ts:172-175 | `sendMessage` appends exactly one send call, with the chat, the text and the message replied to, and leaves the pending unmutes alone |
| TelegramBot.EnforcingBot.Mute | src/telegram/bot_telegram.ts:183-211 | a non-admin loses all four send permissions and exactly one restore is scheduled; for an admin nothing happens |
| TelegramBot.EnforcingBot.FireUnmute | src/telegram/bot_telegram.ts:200-209 | the oldest scheduled restore gives all four permissions back, exactly once |
| TelegramBot.EnforcingBot.PerformAction | src/telegram/bot_telegram.ts:143-176 | nothing without a sender. Otherwise a mute happens exactly when muting is on and the sender is not an admin, and a reply follows. Its text is the rebuke header, then the mute line when muted, then (with be-helpful) the translation when it differs from the original or else the "no idea" sentence |
| TelegramBot.EnforcingBot.OnMessage | src/telegram/bot_telegram.ts:16-47 | a message with no text is ignored; a private chat gets only "Sorry, I work only in groups."; in a group the bot acts exactly when `ShouldEnforce` holds, and then does what `PerformAction` does |
| TelegramBot.EnforcingBot.OnExcept | src/telegram/bot_telegram.ts:50-88 | a non-admin gets "Sorry, this is a admin-only feature." and the store is unchanged; an admin's lower-cased phrase is appended to the chat's list and the outcome is reported |
| TelegramBot.MuteScenario | src/telegram/bot_telegram.ts:143-211 | a member who writes Polish where English is required is muted, rebuked, and given the permissions back exactly once |
| TelegramBot.AdminScenario | src/telegram/bot_telegram.ts:143-176 | the same message from the chat's creator is only rebuked: no restriction and no pending unmute |
| TelegramBot.EnforcingBot.OnRemove | src/telegram/bot_telegram.ts:91-129 | a non-admin gets the admin-only reply and the store is unchanged; for an admin every phrase equal to the lower-cased text is deleted from the chat's list and the outcome is reported |

## Left out

- Translation provider calls. The HTTP requests, the translation library, the
  extraction of the confidence from the raw reply and `process.exit(69)` are not
  modelled (src/core/translator.ts:56-126, src/translator.ts:34-83). Each
  provider's answer is a parameter. `translatePoor` returning null on any
  failure (src/translator.ts:67-83) is the `None` case of that parameter.
- The database client. Each store is an in-memory map or sequence. Whether a
  store call succeeds is a parameter. The unawaited deletes of
  `removeException` are modelled as done before it returns.
- The similarity score of the string-similarity library is the parameter
  `sim`, not a bigram metric.
- Strings.Lower: lower-cases ASCII letters only. JavaScript `toLowerCase` also
  maps other letters and can change the length. `length` here counts Unicode
  scalar values, not UTF-16 code units.
- Confidence and similarity are exact `real` numbers, not floating point.
- The rendering of `MUTE_TIMEOUT / 1000` in the mute sentence is the text
  `muteSeconds` given to the bot.
- Types.ParseDecimal: covers an optional sign and decimal digits only. The
  whitespace trimming, fractions, exponents, hexadecimal and `Infinity` that
  `Number()` also accepts are not modelled. All other text falls back to 30000,
  as `NaN` does.
- The rebuke is sent with `parse_mode: "HTML"` (src/telegram/bot_telegram.ts:172-175).
  Telegram therefore reads any markup inside the quoted translation. A send call
  here carries only the chat, the text and the message replied to. The model
  does not capture how Telegram renders the text.
- Timer timing. Every mute uses the same timeout, so the callbacks are a
  first-in first-out queue fired by `FireUnmute`. Overlapping mutes of one
  member keep separate callbacks, as in the code. Failures of sending or
  restricting are not modelled: every platform call succeeds.
- The bot's `config` is destructured from a module that exports only the `Core`
  class (src/telegram/bot_telegram.ts:9). The bot takes a `CoreConfig` value
  instead.
- The handlers call `core.translateAndCheck`, `core.shouldBePermitted`,
  `core.addException` and `core.removeException` without a group. The model
  routes them to the per-group store, keyed by the chat id.
- The null check on the translation context (src/telegram/bot_telegram.ts:30-33)
  is dead code, because `translateAndCheck` always returns a context.
- `Core.translateAndCheck` (src/core/core.ts:60-62) only forwards to the
  translator.
- Logging, and property lookups of the JSON table that reach inherited object
  keys.
- The group settings that `initNewGroup` writes are never read by the code.
- The Discord adapter, the earlier Telegram adapter, the generated JavaScript
  files, and startup and token loading are not part of this model.
