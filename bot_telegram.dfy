/** The Telegram adapter (src/telegram/bot_telegram.ts): the message handler
    that decides whether to act, the rebuke it composes, the timed mute, and
    the admin-only `/except` and `/remove` commands. The platform is modelled by
    what the bot asks of it: an ordered log of calls (send a message, restrict a
    member) and the queue of scheduled unmute callbacks. What the platform and
    the providers answer (a member's status, the translations, whether the
    store call succeeds) is passed in. */
module TelegramBot {
  import opened Wrappers
  import opened Strings
  import opened Types
  import opened Core
  import Translator

  /** `isAdminUser`: of the six statuses a Telegram chat member can have, the
      creator and the administrators are admins; members, restricted members
      and those who left or were kicked are not. */
  function IsAdminUser(status: string): (b: bool)
    ensures status == "creator" || status == "administrator" ==> b
    ensures status == "member" || status == "restricted" || status == "left" || status == "kicked" ==> !b
  {
    status == "administrator" || status == "creator"
  }

  /** The four send permissions of `restrictChatMember`. */
  datatype Permissions = Permissions(
    canSendMessages: bool,
    canSendMediaMessages: bool,
    canSendOtherMessages: bool,
    canAddWebPagePreviews: bool)

  const Muted: Permissions := Permissions(false, false, false, false)
  const Unmuted: Permissions := Permissions(true, true, true, true)

  /** The parts of a Telegram message the bot reads; `from` is the sender's id. */
  datatype Message = Message(chatId: int, chatType: string, messageId: int, text: Option<string>, from: Option<int>)

  /** A call the bot makes on the platform. */
  datatype PlatformCall =
    | SendMessage(chatId: int, text: string, replyTo: Option<int>)
    | RestrictChatMember(chatId: int, userId: int, permissions: Permissions)

  /** A member of a chat: (chat id, user id). */
  type Target = (int, int)

  /** The members muted by the calls, in call order. */
  function MuteTargets(calls: seq<PlatformCall>): seq<Target> {
    if calls == [] then []
    else
      var c := calls[|calls| - 1];
      MuteTargets(calls[..|calls| - 1]) +
      (if c.RestrictChatMember? && c.permissions == Muted then [(c.chatId, c.userId)] else [])
  }

  /** The members given their permissions back by the calls, in call order. */
  function RestoreTargets(calls: seq<PlatformCall>): seq<Target> {
    if calls == [] then []
    else
      var c := calls[|calls| - 1];
      RestoreTargets(calls[..|calls| - 1]) +
      (if c.RestrictChatMember? && c.permissions == Unmuted then [(c.chatId, c.userId)] else [])
  }

  lemma TargetsAppend(calls: seq<PlatformCall>, c: PlatformCall)
    ensures MuteTargets(calls + [c]) ==
      MuteTargets(calls) + (if c.RestrictChatMember? && c.permissions == Muted then [(c.chatId, c.userId)] else [])
    ensures RestoreTargets(calls + [c]) ==
      RestoreTargets(calls) + (if c.RestrictChatMember? && c.permissions == Unmuted then [(c.chatId, c.userId)] else [])
  {
    assert (calls + [c])[..|calls|] == calls;
  }

  // ---------------------------------------------------------------------------
  // Texts

  const PrivateChatReply: string := "Sorry, I work only in groups."
  const AdminOnlyReply: string := "Sorry, this is a admin-only feature."

  function RebukeHeader(detectedLangName: string, requiredLangName: string): string {
    "Oi, I don't concur with this " + detectedLangName + "! We only use " + requiredLangName + " here.\n"
  }

  /** `muteSeconds` is the rendering of the mute timeout divided by 1000. */
  function MuteLine(muteSeconds: string): string {
    "You've been muted for " + muteSeconds + " seconds.\n"
  }

  const QuotePrefix: string := "BTW, we know you mean \""
  const NoIdeaLine: string := "BTW, we've no idea what you tried to say."

  /** The translation when it differs from what was written, else an admission. */
  function HelpfulLine(translatedText: string, original: Option<string>): (r: string)
    ensures Some(translatedText) != original ==>
      && |r| == |QuotePrefix| + |translatedText| + 1
      && r[..|QuotePrefix|] == QuotePrefix
      && r[|QuotePrefix|..|r| - 1] == translatedText
      && r[|r| - 1] == '"'
    ensures Some(translatedText) == original ==> r == NoIdeaLine
  {
    if Some(translatedText) != original then QuotePrefix + translatedText + "\""
    else NoIdeaLine
  }

  /** The rebuke: header, then the mute line, then the helpful line. */
  function Rebuke(detectedLangName: string, requiredLangName: string, muted: bool, muteSeconds: string,
                  beHelpful: bool, translatedText: string, original: Option<string>): (r: string)
    ensures var header := RebukeHeader(detectedLangName, requiredLangName);
            |header| <= |r| && r[..|header|] == header
    ensures var header := RebukeHeader(detectedLangName, requiredLangName);
            muted ==> |header| + |MuteLine(muteSeconds)| <= |r| &&
                      r[|header|..|header| + |MuteLine(muteSeconds)|] == MuteLine(muteSeconds)
    ensures var helpful := HelpfulLine(translatedText, original);
            beHelpful ==> |helpful| <= |r| && r[|r| - |helpful|..] == helpful
    ensures !muted && !beHelpful ==> r == RebukeHeader(detectedLangName, requiredLangName)
  {
    RebukeHeader(detectedLangName, requiredLangName)
    + (if muted then MuteLine(muteSeconds) else "")
    + (if beHelpful then HelpfulLine(translatedText, original) else "")
  }

  /** The rebuke holds nothing but its parts, and the mute line follows the
      header only for a muted sender: otherwise the text ends there or goes on
      with the "B" of the helpful line, where the mute line starts with "Y". */
  lemma RebukeLayout(detectedLangName: string, requiredLangName: string, muted: bool, muteSeconds: string,
                     beHelpful: bool, translatedText: string, original: Option<string>)
    ensures var r := Rebuke(detectedLangName, requiredLangName, muted, muteSeconds, beHelpful, translatedText, original);
            var header := RebukeHeader(detectedLangName, requiredLangName);
            muted <==> |header| + |MuteLine(muteSeconds)| <= |r| &&
                       r[|header|..|header| + |MuteLine(muteSeconds)|] == MuteLine(muteSeconds)
    ensures |Rebuke(detectedLangName, requiredLangName, muted, muteSeconds, beHelpful, translatedText, original)|
            == |RebukeHeader(detectedLangName, requiredLangName)|
               + (if muted then |MuteLine(muteSeconds)| else 0)
               + (if beHelpful then |HelpfulLine(translatedText, original)| else 0)
  {
    var header := RebukeHeader(detectedLangName, requiredLangName);
    var helpful := HelpfulLine(translatedText, original);
    assert MuteLine(muteSeconds)[0] == 'Y' && helpful[0] == 'B';
    if !muted && beHelpful {
      assert (header + helpful)[|header|] == 'B';
    }
  }

  // ---------------------------------------------------------------------------
  // The verdict of the message handler

  /** The handler acts on a message when the language is wrong, the message is
      not permitted, and there is a translation to quote. */
  predicate ShouldEnforce(ctx: TranslationContext, permission: Option<bool>) {
    !ctx.isCorrectLang && permission == Some(false) && ctx.translation.Some?
  }

  /** The handler acts exactly on a trusted, determined detection of another
      language in a message that no lexical rule exempts and that no stored
      phrase matches; a store that cannot be read never leads to an action. */
  lemma ShouldEnforceMeaning(config: CoreConfig, table: Translator.LangTable, poor: Option<Translation>,
                             rich: Translation, text: string, snapshot: Option<seq<string>>, sim: Similarity)
    ensures var ctx := Translator.TranslateAndCheck(config, table, poor, rich);
            ShouldEnforce(ctx, Permission(text, snapshot, sim, SimilarityThreshold)) <==>
              && ctx.translation.Some?
              && !Translator.Undetermined(ctx.translation.value.detectedLangCode)
              && ctx.translation.value.confidence >= Translator.MinConfidence
              && ctx.translation.value.detectedLangCode != config.requiredLang
              && !LexicallyExempt(text)
              && snapshot.Some?
              && forall k :: 0 <= k < |snapshot.value| ==> sim(snapshot.value[k], Lower(text)) < SimilarityThreshold
  {
  }

  // ---------------------------------------------------------------------------
  // Commands

  /** The characters `.` does not match in a JavaScript regular expression. */
  predicate IsLineTerminator(c: char) {
    c == '\n' || c == '\r' || c == '\U{2028}' || c == '\U{2029}'
  }

  predicate SingleLine(s: string) {
    forall k :: 0 <= k < |s| ==> !IsLineTerminator(s[k])
  }

  /** The longest prefix without a line terminator. */
  function RestOfLine(s: string): (r: string)
    ensures |r| <= |s| && s[..|r|] == r && SingleLine(r)
    ensures |r| < |s| ==> IsLineTerminator(s[|r|])
  {
    if s == [] || IsLineTerminator(s[0]) then [] else [s[0]] + RestOfLine(s[1..])
  }

  /** `/<command> (.+)/` can match at position `i`: the literal starts there
      and a character other than a line terminator follows it. */
  predicate MatchAt(text: string, command: string, i: nat) {
    i + |command| < |text| && text[i..i + |command|] == command && !IsLineTerminator(text[i + |command|])
  }

  /** `i` is the leftmost position where the pattern matches. */
  predicate LeftmostAt(text: string, command: string, i: nat) {
    MatchAt(text, command, i) && forall j: nat :: j < i ==> !MatchAt(text, command, j)
  }

  /** The match positions of `text[1..]` are those of `text`, one to the left. */
  lemma MatchShift(text: string, command: string, i: nat)
    requires text != []
    ensures MatchAt(text[1..], command, i) <==> MatchAt(text, command, i + 1)
  {
    if i + |command| < |text[1..]| {
      assert text[1..][i..i + |command|] == text[i + 1..i + 1 + |command|];
      assert text[1..][i + |command|] == text[i + 1 + |command|];
    }
  }

  /** The leftmost position where `/<command> (.+)/` matches, if any. */
  function LeftmostMatch(text: string, command: string): (r: Option<nat>)
    ensures r.None? <==> forall i: nat :: i < |text| ==> !MatchAt(text, command, i)
    ensures r.Some? ==> LeftmostAt(text, command, r.value)
    decreases |text|
  {
    if |text| <= |command| then None
    else if MatchAt(text, command, 0) then Some(0)
    else
      NoMatchLater(text, command);
      match LeftmostMatch(text[1..], command)
      case None => None
      case Some(i) =>
        LeftmostMatchLater(text, command, i);
        Some(i + 1)
  }

  /** The capture of `/<command> (.+)/` searched in `text`, with `command` the
      literal before the group (for example "/except "): none exactly when the
      pattern matches nowhere; otherwise, at the leftmost match, everything up
      to the end of that line. */
  function CommandArgument(text: string, command: string): (r: Option<string>)
    ensures r.None? <==> forall i: nat :: i < |text| ==> !MatchAt(text, command, i)
    ensures r.Some? ==> exists i: nat :: LeftmostAt(text, command, i) && r.value == RestOfLine(text[i + |command|..])
    ensures r.Some? ==> r.value != [] && SingleLine(r.value) && Contains(text, command + r.value)
  {
    match LeftmostMatch(text, command)
    case None => None
    case Some(i) =>
      CaptureAt(text, command, i);
      Some(RestOfLine(text[i + |command|..]))
  }

  /** What `(.+)` captures after a match at `i`: a non-empty single line that
      follows the literal in the text. */
  lemma CaptureAt(text: string, command: string, i: nat)
    requires MatchAt(text, command, i)
    ensures var arg := RestOfLine(text[i + |command|..]);
            arg != [] && SingleLine(arg) && Contains(text, command + arg)
  {
    var arg := RestOfLine(text[i + |command|..]);
    assert arg != [] by {
      assert text[i + |command|..][0] == text[i + |command|];
    }
    assert text[i..i + |command| + |arg|] == command + arg by {
      assert text[i..i + |command| + |arg|] == text[i..i + |command|] + text[i + |command|..][..|arg|];
    }
    ContainsAt(text, command + arg, i);
  }

  /** When the pattern does not match at the first position, it matches
      nowhere in `text` exactly when it matches nowhere in `text[1..]`. */
  lemma NoMatchLater(text: string, command: string)
    requires text != [] && !MatchAt(text, command, 0)
    ensures (forall i: nat :: i < |text| ==> !MatchAt(text, command, i)) <==>
            (forall i: nat :: i < |text[1..]| ==> !MatchAt(text[1..], command, i))
  {
    if forall i: nat :: i < |text[1..]| ==> !MatchAt(text[1..], command, i) {
      forall i: nat | i < |text|
        ensures !MatchAt(text, command, i)
      {
        if i > 0 {
          MatchShift(text, command, i - 1);
        }
      }
    } else {
      var i: nat :| i < |text[1..]| && MatchAt(text[1..], command, i);
      MatchShift(text, command, i);
    }
  }

  /** ... and the leftmost match in `text[1..]` is the leftmost in `text`,
      one position to the right. */
  lemma LeftmostMatchLater(text: string, command: string, i: nat)
    requires text != [] && !MatchAt(text, command, 0)
    requires LeftmostAt(text[1..], command, i)
    ensures LeftmostAt(text, command, i + 1)
    ensures text[1..][i + |command|..] == text[i + 1 + |command|..]
  {
    MatchShift(text, command, i);
    forall j: nat | j < i + 1
      ensures !MatchAt(text, command, j)
    {
      if j > 0 {
        MatchShift(text, command, j - 1);
      }
    }
  }

  /** A command followed by a one-line argument yields exactly that argument. */
  lemma CommandArgumentOfCommand(command: string, arg: string)
    requires arg != [] && SingleLine(arg)
    ensures CommandArgument(command + arg, command) == Some(arg)
  {
    var text := command + arg;
    assert text[..|command|] == command;
    assert text[|command|..] == arg;
    assert StartsWith(text, command) && text[|command|] == arg[0];
    var r := RestOfLine(arg);
    assert r == arg[..|arg|] == arg;
  }

  const ExceptCommand: string := "/except "
  const RemoveCommand: string := "/remove "

  // ---------------------------------------------------------------------------
  // The bot

  class EnforcingBot {
    const config: CoreConfig
    const langTable: Translator.LangTable
    const muteSeconds: string
    const store: ExceptionStore

    /** Every call made on the platform, oldest first. */
    var calls: seq<PlatformCall>
    /** The members whose scheduled unmute has not fired yet, in firing order. */
    var pendingUnmutes: seq<Target>

    /** Every mute is followed by exactly one restore, either done or pending,
        and restores come in the order of the mutes. */
    ghost predicate Valid()
      reads this
    {
      MuteTargets(calls) == RestoreTargets(calls) + pendingUnmutes
    }

    constructor (config: CoreConfig, langTable: Translator.LangTable, muteSeconds: string, store: ExceptionStore)
      ensures Valid()
      ensures this.config == config && this.langTable == langTable && this.muteSeconds == muteSeconds
      ensures this.store == store
      ensures calls == [] && pendingUnmutes == []
    {
      this.config := config;
      this.langTable := langTable;
      this.muteSeconds := muteSeconds;
      this.store := store;
      calls := [];
      pendingUnmutes := [];
    }

    /** `sendMessage`. */
    method Send(chatId: int, text: string, replyTo: Option<int>)
      requires Valid()
      modifies this
      ensures Valid()
      ensures calls == old(calls) + [SendMessage(chatId, text, replyTo)]
      ensures pendingUnmutes == old(pendingUnmutes)
    {
      TargetsAppend(calls, SendMessage(chatId, text, replyTo));
      calls := calls + [SendMessage(chatId, text, replyTo)];
    }

    /** `mute`: for a member who is not an admin, takes away the four send
        permissions and schedules the callback that gives them back; for an
        admin it does nothing. */
    method Mute(chatId: int, userId: int, senderStatus: string)
      requires Valid()
      modifies this
      ensures Valid()
      ensures IsAdminUser(senderStatus) ==> calls == old(calls) && pendingUnmutes == old(pendingUnmutes)
      ensures !IsAdminUser(senderStatus) ==>
        && calls == old(calls) + [RestrictChatMember(chatId, userId, Muted)]
        && pendingUnmutes == old(pendingUnmutes) + [(chatId, userId)]
    {
      if !IsAdminUser(senderStatus) {
        TargetsAppend(calls, RestrictChatMember(chatId, userId, Muted));
        calls := calls + [RestrictChatMember(chatId, userId, Muted)];
        pendingUnmutes := pendingUnmutes + [(chatId, userId)];
      }
    }

    /** The timer of the oldest pending mute fires: the member gets all four
        permissions back. Every mute uses the same timeout, so the timers fire
        in the order they were set. */
    method FireUnmute() returns (fired: bool)
      requires Valid()
      modifies this
      ensures Valid()
      ensures fired <==> old(pendingUnmutes) != []
      ensures fired ==>
        && calls == old(calls) + [RestrictChatMember(old(pendingUnmutes)[0].0, old(pendingUnmutes)[0].1, Unmuted)]
        && pendingUnmutes == old(pendingUnmutes)[1..]
      ensures !fired ==> calls == old(calls) && pendingUnmutes == old(pendingUnmutes)
    {
      if pendingUnmutes == [] {
        return false;
      }
      var (chatId, userId) := pendingUnmutes[0];
      TargetsAppend(calls, RestrictChatMember(chatId, userId, Unmuted));
      calls := calls + [RestrictChatMember(chatId, userId, Unmuted)];
      pendingUnmutes := pendingUnmutes[1..];
      return true;
    }

    /** `performAction`: mutes the sender when muting is on and the sender is not
        an admin, then replies to the message with the rebuke. */
    method PerformAction(msg: Message, senderStatus: string, detectedLangName: string,
                         requiredLangName: string, translatedText: string)
      requires Valid()
      modifies this
      ensures Valid()
      ensures msg.from.None? ==> calls == old(calls) && pendingUnmutes == old(pendingUnmutes)
      ensures msg.from.Some? ==>
        var muted := config.mutePeople && !IsAdminUser(senderStatus);
        && calls == old(calls)
             + (if muted then [RestrictChatMember(msg.chatId, msg.from.value, Muted)] else [])
             + [SendMessage(msg.chatId,
                            Rebuke(detectedLangName, requiredLangName, muted, muteSeconds,
                                   config.beHelpful, translatedText, msg.text),
                            Some(msg.messageId))]
        && pendingUnmutes == old(pendingUnmutes) + (if muted then [(msg.chatId, msg.from.value)] else [])
    {
      if msg.from.None? {
        return;
      }
      var muted := config.mutePeople && !IsAdminUser(senderStatus);
      var message := RebukeHeader(detectedLangName, requiredLangName);
      if muted {
        Mute(msg.chatId, msg.from.value, senderStatus);
        message := message + MuteLine(muteSeconds);
      }
      assert message == RebukeHeader(detectedLangName, requiredLangName) + (if muted then MuteLine(muteSeconds) else "");
      if config.beHelpful {
        message := message + HelpfulLine(translatedText, msg.text);
      }
      assert message == Rebuke(detectedLangName, requiredLangName, muted, muteSeconds,
                               config.beHelpful, translatedText, msg.text);
      Send(msg.chatId, message, Some(msg.messageId));
    }

    /** The handler of every message: ignores messages without text, refuses
        private chats, and otherwise acts when `ShouldEnforce` holds, consulting
        the group's exceptions only when the language is wrong. */
    method OnMessage(msg: Message, senderStatus: string, poor: Option<Translation>, rich: Translation,
                     sim: Similarity, readOk: bool)
      requires Valid()
      modifies this
      ensures Valid()
      ensures msg.text.None? ==> calls == old(calls) && pendingUnmutes == old(pendingUnmutes)
      ensures msg.text.Some? && msg.chatType == "private" ==>
        calls == old(calls) + [SendMessage(msg.chatId, PrivateChatReply, None)] && pendingUnmutes == old(pendingUnmutes)
      ensures msg.text.Some? && msg.chatType != "private" ==>
        var ctx := Translator.TranslateAndCheck(config, langTable, poor, rich);
        var permission := Permission(msg.text.value, if readOk then Some(store.Exceptions(msg.chatId)) else None,
                                     sim, SimilarityThreshold);
        !ShouldEnforce(ctx, permission) ==> calls == old(calls) && pendingUnmutes == old(pendingUnmutes)
      ensures msg.text.Some? && msg.chatType != "private" && msg.from.None? ==>
        calls == old(calls) && pendingUnmutes == old(pendingUnmutes)
      ensures msg.text.Some? && msg.chatType != "private" && msg.from.Some? ==>
        var ctx := Translator.TranslateAndCheck(config, langTable, poor, rich);
        var permission := Permission(msg.text.value, if readOk then Some(store.Exceptions(msg.chatId)) else None,
                                     sim, SimilarityThreshold);
        var muted := config.mutePeople && !IsAdminUser(senderStatus);
        ShouldEnforce(ctx, permission) ==>
          && calls == old(calls)
               + (if muted then [RestrictChatMember(msg.chatId, msg.from.value, Muted)] else [])
               + [SendMessage(msg.chatId,
                              Rebuke(ctx.translation.value.detectedLangName, ctx.requiredLangName, muted, muteSeconds,
                                     config.beHelpful, ctx.translation.value.translatedText, msg.text),
                              Some(msg.messageId))]
          && pendingUnmutes == old(pendingUnmutes) + (if muted then [(msg.chatId, msg.from.value)] else [])
    {
      if msg.text.None? {
        return;
      }
      var text := msg.text.value;
      if msg.chatType == "private" {
        Send(msg.chatId, PrivateChatReply, None);
        return;
      }
      var ctx := Translator.TranslateAndCheck(config, langTable, poor, rich);
      if !ctx.isCorrectLang {
        var permitted := store.ShouldBePermitted(text, msg.chatId, sim, readOk);
        if permitted == Some(false) && ctx.translation.Some? {
          var t := ctx.translation.value;
          PerformAction(msg, senderStatus, t.detectedLangName, ctx.requiredLangName, t.translatedText);
        }
      }
    }

    /** `/except <phrase>`: an admin adds the lower-cased phrase to the chat's
        exceptions; anyone else is told the command is admin-only and nothing is
        stored. */
    method OnExcept(msg: Message, senderStatus: string, available: bool)
      requires Valid()
      modifies this, store
      ensures Valid()
      ensures pendingUnmutes == old(pendingUnmutes)
      ensures store.groups == old(store.groups)
      ensures var arg := if msg.text.Some? then CommandArgument(msg.text.value, ExceptCommand) else None;
        arg.None? || msg.from.None? || msg.from.value == 0 ==>
          calls == old(calls) && store.exceptions == old(store.exceptions)
      ensures var arg := if msg.text.Some? then CommandArgument(msg.text.value, ExceptCommand) else None;
        arg.Some? && msg.from.Some? && msg.from.value != 0 && !IsAdminUser(senderStatus) ==>
          calls == old(calls) + [SendMessage(msg.chatId, AdminOnlyReply, None)]
          && store.exceptions == old(store.exceptions)
      ensures var arg := if msg.text.Some? then CommandArgument(msg.text.value, ExceptCommand) else None;
        arg.Some? && msg.from.Some? && msg.from.value != 0 && IsAdminUser(senderStatus) ==>
          && store.exceptions == (if available
                                  then old(store.exceptions)[msg.chatId := old(store.Exceptions(msg.chatId)) + [Lower(arg.value)]]
                                  else old(store.exceptions))
          && calls == old(calls) + [SendMessage(msg.chatId,
               if available then "Okay, \"" + Lower(arg.value) + "\" has been added to the exception list. "
               else "An error occurred while adding the word " + Lower(arg.value), None)]
    {
      var arg := if msg.text.Some? then CommandArgument(msg.text.value, ExceptCommand) else None;
      if arg.None? || msg.from.None? || msg.from.value == 0 {
        return;
      }
      if !IsAdminUser(senderStatus) {
        Send(msg.chatId, AdminOnlyReply, None);
        return;
      }
      var inputText := Lower(arg.value);
      LowerIdempotent(arg.value);
      var successful := store.AddException(inputText, msg.chatId, available);
      if successful {
        Send(msg.chatId, "Okay, \"" + inputText + "\" has been added to the exception list. ", None);
      } else {
        Send(msg.chatId, "An error occurred while adding the word " + inputText, None);
      }
    }

    /** `/remove <phrase>`: an admin deletes every exception of the chat equal
        to the lower-cased phrase; anyone else is told the command is
        admin-only and nothing is deleted. */
    method OnRemove(msg: Message, senderStatus: string, available: bool)
      requires Valid()
      modifies this, store
      ensures Valid()
      ensures pendingUnmutes == old(pendingUnmutes)
      ensures store.groups == old(store.groups)
      ensures var arg := if msg.text.Some? then CommandArgument(msg.text.value, RemoveCommand) else None;
        arg.None? || msg.from.None? || msg.from.value == 0 ==>
          calls == old(calls) && store.exceptions == old(store.exceptions)
      ensures var arg := if msg.text.Some? then CommandArgument(msg.text.value, RemoveCommand) else None;
        arg.Some? && msg.from.Some? && msg.from.value != 0 && !IsAdminUser(senderStatus) ==>
          calls == old(calls) + [SendMessage(msg.chatId, AdminOnlyReply, None)]
          && store.exceptions == old(store.exceptions)
      ensures var arg := if msg.text.Some? then CommandArgument(msg.text.value, RemoveCommand) else None;
        arg.Some? && msg.from.Some? && msg.from.value != 0 && IsAdminUser(senderStatus) ==>
          && store.exceptions == (if available
                                  then old(store.exceptions)[msg.chatId := Without(old(store.Exceptions(msg.chatId)), Lower(arg.value))]
                                  else old(store.exceptions))
          && calls == old(calls) + [SendMessage(msg.chatId,
               if available then "Okay, \"" + Lower(arg.value) + "\" has been removed from the exception list."
               else "An error occurred while removing the word " + Lower(arg.value), None)]
    {
      var arg := if msg.text.Some? then CommandArgument(msg.text.value, RemoveCommand) else None;
      if arg.None? || msg.from.None? || msg.from.value == 0 {
        return;
      }
      if !IsAdminUser(senderStatus) {
        Send(msg.chatId, AdminOnlyReply, None);
        return;
      }
      var inputText := Lower(arg.value);
      LowerIdempotent(arg.value);
      var successful := store.RemoveException(inputText, msg.chatId, available);
      if successful {
        Send(msg.chatId, "Okay, \"" + inputText + "\" has been removed from the exception list.", None);
      } else {
        Send(msg.chatId, "An error occurred while removing the word " + inputText, None);
      }
    }
  }

  // ---------------------------------------------------------------------------
  // Scenarios

  /** A confidently detected Polish sentence, with English required and no
      stored phrases, is acted on. */
  lemma {:induction false} PolishSentenceIsEnforced(text: string, table: Translator.LangTable, t: Translation, sim: Similarity)
    requires text == "oto tekst po polsku"
    requires t.detectedLangCode == "pl" && t.confidence == 0.95
    ensures ShouldEnforce(Translator.Check("en", table, Some(t)), Permission(text, Some([]), sim, SimilarityThreshold))
  {
    ProseExample(text);
    assert Permission(text, Some([]), sim, SimilarityThreshold) == Some(false);
  }

  /** Digits the provider cannot place ("und") are never acted on, whatever the
      store holds. */
  lemma UndeterminedIsNeverEnforced(text: string, table: Translator.LangTable, t: Translation,
                                    snapshot: Option<seq<string>>, sim: Similarity)
    requires t.detectedLangCode == "und"
    ensures !ShouldEnforce(Translator.Check("en", table, Some(t)), Permission(text, snapshot, sim, SimilarityThreshold))
  {
  }

  /** A member who writes Polish where English is required is muted, rebuked,
      and given the permissions back exactly once. */
  method MuteScenario(config: CoreConfig) returns (log: seq<PlatformCall>)
    requires config.mutePeople && !config.beHelpful
    ensures log == [
      RestrictChatMember(1, 42, Muted),
      SendMessage(1, Rebuke("Polish", "English", true, "30", false, "here is text in Polish", Some("oto tekst po polsku")), Some(7)),
      RestrictChatMember(1, 42, Unmuted)]
  {
    var store := new ExceptionStore();
    var bot := new EnforcingBot(config, map[], "30", store);
    var msg := Message(1, "group", 7, Some("oto tekst po polsku"), Some(42));
    var rebuke := Rebuke("Polish", "English", true, "30", false, "here is text in Polish", msg.text);
    bot.PerformAction(msg, "member", "Polish", "English", "here is text in Polish");
    assert bot.pendingUnmutes == [(1, 42)];
    assert bot.calls == [RestrictChatMember(1, 42, Muted), SendMessage(1, rebuke, Some(7))];
    var fired := bot.FireUnmute();
    assert fired && bot.pendingUnmutes == [];
    assert bot.calls == [RestrictChatMember(1, 42, Muted), SendMessage(1, rebuke, Some(7)), RestrictChatMember(1, 42, Unmuted)];
    fired := bot.FireUnmute();
    assert !fired;
    log := bot.calls;
  }

  /** The same message from the chat's creator is only rebuked. */
  method AdminScenario(config: CoreConfig) returns (log: seq<PlatformCall>)
    requires config.mutePeople && !config.beHelpful
    ensures log == [
      SendMessage(1, Rebuke("Polish", "English", false, "30", false, "here is text in Polish", Some("oto tekst po polsku")), Some(7))]
  {
    var store := new ExceptionStore();
    var bot := new EnforcingBot(config, map[], "30", store);
    var msg := Message(1, "group", 7, Some("oto tekst po polsku"), Some(42));
    bot.PerformAction(msg, "creator", "Polish", "English", "here is text in Polish");
    assert bot.pendingUnmutes == [];
    var fired := bot.FireUnmute();
    assert !fired;
    log := bot.calls;
  }
}
