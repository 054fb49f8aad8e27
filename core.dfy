/** The platform-independent core (src/core/core.ts): the ordered lexical
    exemption rules, the fuzzy match against a group's stored exception
    phrases, and the per-group exception store that `addException`,
    `removeException` and `initNewGroup` change. The similarity score of the
    `string-similarity` library is a parameter: `sim(stored, input)`. */
module Core {
  import opened Wrappers
  import opened Strings

  /** A chat or group identifier; the exception store is keyed by it. */
  type GroupId = int

  /** `similarity.compareTwoStrings(stored, input)`. */
  type Similarity = (string, string) -> real

  /** A stored phrase exempts a message when its score reaches this value. */
  const SimilarityThreshold: real := 0.75

  // ---------------------------------------------------------------------------
  // Lexical rules, tried in this order

  datatype LexicalRule = ShortMessage | CommandOrMention | XdLaughter | HahaLaughter | Link

  /** Every character of `text`, lower-cased, is `a` or `b`. */
  predicate OnlyLetters(text: string, a: char, b: char) {
    forall k :: 0 <= k < |text| ==> LowerChar(text[k]) == a || LowerChar(text[k]) == b
  }

  /** The first rule that exempts the message, if any. Length and the leading
      character are judged on the original text, the other rules on its
      lower-cased form. */
  function FirstLexicalRule(text: string): (r: Option<LexicalRule>)
    ensures r == Some(ShortMessage) <==> |text| <= 4
    ensures r == Some(CommandOrMention) <==> |text| > 4 && (text[0] == '/' || text[0] == '@')
    ensures r == Some(Link) ==> Contains(Lower(text), "https://")
  {
    assert |text| > 4 ==> (StartsWith(text, "/") <==> text[0] == '/') && (StartsWith(text, "@") <==> text[0] == '@');
    var input := Lower(text);
    if |text| <= 4 then Some(ShortMessage)
    else if StartsWith(text, "/") || StartsWith(text, "@") then Some(CommandOrMention)
    else if DeleteAll(DeleteAll(input, 'x'), 'd') == "" then Some(XdLaughter)
    else if DeleteAll(DeleteAll(input, 'h'), 'a') == "" then Some(HahaLaughter)
    else if Contains(input, "https://") then Some(Link)
    else None
  }

  /** Some lexical rule exempts the message: it is short, a command or a
      mention, laughter, or contains a link. */
  function LexicallyExempt(text: string): (b: bool)
    ensures b <==>
      || |text| <= 4 || text[0] == '/' || text[0] == '@'
      || OnlyLetters(text, 'x', 'd') || OnlyLetters(text, 'h', 'a')
      || Contains(Lower(text), "https://")
  {
    FirstLexicalRuleMeaning(text);
    FirstLexicalRule(text).Some?
  }

  /** What each rule means, and that a rule only fires when every earlier one
      did not. */
  lemma {:induction false} FirstLexicalRuleMeaning(text: string)
    ensures FirstLexicalRule(text) == Some(ShortMessage) <==> |text| <= 4
    ensures FirstLexicalRule(text) == Some(CommandOrMention) <==>
      |text| > 4 && (text[0] == '/' || text[0] == '@')
    ensures FirstLexicalRule(text) == Some(XdLaughter) <==>
      |text| > 4 && text[0] != '/' && text[0] != '@' && OnlyLetters(text, 'x', 'd')
    ensures FirstLexicalRule(text) == Some(HahaLaughter) <==>
      |text| > 4 && text[0] != '/' && text[0] != '@' && !OnlyLetters(text, 'x', 'd') && OnlyLetters(text, 'h', 'a')
    ensures FirstLexicalRule(text) == Some(Link) <==>
      && |text| > 4 && text[0] != '/' && text[0] != '@'
      && !OnlyLetters(text, 'x', 'd') && !OnlyLetters(text, 'h', 'a')
      && Contains(Lower(text), "https://")
  {
    if |text| > 4 {
      assert StartsWith(text, "/") <==> text[0] == '/';
      assert StartsWith(text, "@") <==> text[0] == '@';
      if text[0] != '/' && text[0] != '@' {
        LaughterLetters(text, 'x', 'd');
        LaughterLetters(text, 'h', 'a');
      }
    }
  }

  /** Deleting two letters from the lower-cased text leaves nothing exactly
      when the text is made of those letters in either case. */
  lemma {:induction false} LaughterLetters(text: string, a: char, b: char)
    ensures DeleteAll(DeleteAll(Lower(text), a), b) == "" <==> OnlyLetters(text, a, b)
  {
    DeleteTwiceEmpty(Lower(text), a, b);
  }

  /** A link exempts the message whatever the case of its scheme: an occurrence
      of any text that lower-cases to "https://" is enough. */
  lemma LinkInAnyCase(text: string, scheme: string)
    requires Lower(scheme) == "https://" && Contains(text, scheme)
    ensures LexicallyExempt(text)
  {
    ContainsLower(text, scheme);
  }

  /** Laughter is exempt: a text longer than four characters made of x/d
      letters, or of h/a letters, in any case. */
  lemma {:induction false} LaughterIsExempt(text: string)
    requires |text| > 4
    requires OnlyLetters(text, 'x', 'd') || OnlyLetters(text, 'h', 'a')
    ensures LexicallyExempt(text)
  {
    FirstLexicalRuleMeaning(text);
  }

  /** Examples: "XDXDXD" and "hahaha" are exempt. */
  lemma {:induction false} LaughterExamples(text: string)
    requires text == "XDXDXD" || text == "hahaha"
    ensures LexicallyExempt(text)
  {
    if text == "XDXDXD" {
      assert OnlyLetters(text, 'x', 'd') && text[0] == 'X';
    } else {
      assert OnlyLetters(text, 'h', 'a') && text[0] == 'h';
    }
    LaughterIsExempt(text);
  }

  /** A text of more than four characters that starts with neither `/` nor `@`,
      has a character other than x/d and one other than h/a in any case, and
      has no colon (so no "https://") is not exempt. */
  lemma {:induction false} NoLexicalRule(text: string, i: nat, j: nat)
    requires |text| > 4 && text[0] != '/' && text[0] != '@'
    requires i < |text| && LowerChar(text[i]) != 'x' && LowerChar(text[i]) != 'd'
    requires j < |text| && LowerChar(text[j]) != 'h' && LowerChar(text[j]) != 'a'
    requires forall k :: 0 <= k < |text| ==> text[k] != ':'
    ensures !LexicallyExempt(text)
  {
    FirstLexicalRuleMeaning(text);
    var input := Lower(text);
    if Contains(input, "https://") {
      ContainsChars(input, "https://", 5);
      assert false;
    }
  }

  /** Examples: prose is not exempt, neither laughter nor a link, even with
      "XD" inside it. */
  lemma {:induction false} ProseExample(prose: string)
    requires prose == "hello XD there" || prose == "oto tekst po polsku"
    ensures !LexicallyExempt(prose)
  {
    forall k | 0 <= k < |prose| ensures prose[k] != ':' {
    }
    if prose == "hello XD there" {
      NoLexicalRule(prose, 0, 1);
    } else {
      NoLexicalRule(prose, 0, 0);
    }
  }

  // ---------------------------------------------------------------------------
  // Fuzzy match against the stored phrases

  /** Some stored phrase scores at least `threshold` against `input`. */
  predicate AnyMatch(entries: seq<string>, input: string, sim: Similarity, threshold: real) {
    entries != [] && (sim(entries[0], input) >= threshold || AnyMatch(entries[1..], input, sim, threshold))
  }

  lemma {:induction false} AnyMatchIff(entries: seq<string>, input: string, sim: Similarity, threshold: real)
    ensures AnyMatch(entries, input, sim, threshold) <==>
      exists k :: 0 <= k < |entries| && sim(entries[k], input) >= threshold
  {
    if entries != [] {
      AnyMatchIff(entries[1..], input, sim, threshold);
      assert forall k :: 1 <= k < |entries| ==> entries[k] == entries[1..][k - 1];
    }
  }

  /** More stored phrases never take an exemption away. */
  lemma AnyMatchMonotone(a: seq<string>, b: seq<string>, input: string, sim: Similarity, threshold: real)
    requires forall k :: 0 <= k < |a| ==> a[k] in b
    ensures AnyMatch(a, input, sim, threshold) ==> AnyMatch(b, input, sim, threshold)
  {
    AnyMatchIff(a, input, sim, threshold);
    AnyMatchIff(b, input, sim, threshold);
    if AnyMatch(a, input, sim, threshold) {
      var k :| 0 <= k < |a| && sim(a[k], input) >= threshold;
      var j :| 0 <= j < |b| && b[j] == a[k];
    }
  }

  /** The order of the stored phrases does not matter. */
  lemma AnyMatchOrderIndependent(a: seq<string>, b: seq<string>, input: string, sim: Similarity, threshold: real)
    requires multiset(a) == multiset(b)
    ensures AnyMatch(a, input, sim, threshold) == AnyMatch(b, input, sim, threshold)
  {
    forall k | 0 <= k < |a| ensures a[k] in b {
      assert a[k] in multiset(a);
    }
    forall k | 0 <= k < |b| ensures b[k] in a {
      assert b[k] in multiset(b);
    }
    AnyMatchMonotone(a, b, input, sim, threshold);
    AnyMatchMonotone(b, a, input, sim, threshold);
  }

  /** A lower threshold exempts at least the messages a higher one does. */
  lemma {:induction false} ThresholdMonotone(entries: seq<string>, input: string, sim: Similarity, lo: real, hi: real)
    requires lo <= hi
    ensures AnyMatch(entries, input, sim, hi) ==> AnyMatch(entries, input, sim, lo)
  {
    if entries != [] {
      ThresholdMonotone(entries[1..], input, sim, lo, hi);
    }
  }

  /** The loop of `shouldBePermitted` over the stored phrases, stopping at the
      first one that is similar enough. */
  method FuzzyMatch(entries: seq<string>, input: string, sim: Similarity, threshold: real) returns (found: bool)
    ensures found <==> exists k :: 0 <= k < |entries| && sim(entries[k], input) >= threshold
    ensures found == AnyMatch(entries, input, sim, threshold)
  {
    AnyMatchIff(entries, input, sim, threshold);
    var i := 0;
    while i < |entries|
      invariant 0 <= i <= |entries|
      invariant forall k :: 0 <= k < i ==> sim(entries[k], input) < threshold
    {
      if sim(entries[i], input) >= threshold {
        return true;
      }
      i := i + 1;
    }
    return false;
  }

  /** The verdict of `shouldBePermitted`: exempt by a lexical rule, without
      reading the store; otherwise the fuzzy match against the snapshot of the
      stored phrases (`None`: reading the store failed, so there is no verdict). */
  function Permission(text: string, snapshot: Option<seq<string>>, sim: Similarity, threshold: real): (r: Option<bool>)
    ensures LexicallyExempt(text) ==> r == Some(true)
    ensures r.None? <==> !LexicallyExempt(text) && snapshot.None?
    ensures r == Some(true) <==>
      || LexicallyExempt(text)
      || (snapshot.Some? && exists k :: 0 <= k < |snapshot.value| && sim(snapshot.value[k], Lower(text)) >= threshold)
  {
    if LexicallyExempt(text) then Some(true)
    else match snapshot
      case None => None
      case Some(entries) =>
        AnyMatchIff(entries, Lower(text), sim, threshold);
        Some(AnyMatch(entries, Lower(text), sim, threshold))
  }

  /** A short message is exempt and the store is never consulted: the verdict is
      the same whatever the store holds, even when it cannot be read. */
  lemma ShortMessageIgnoresStore(text: string, snapshot: Option<seq<string>>, sim: Similarity, threshold: real)
    requires |text| <= 4
    ensures Permission(text, snapshot, sim, threshold) == Some(true)
  {
  }

  // ---------------------------------------------------------------------------
  // The stored phrases of one group

  /** The group's phrases without every one equal to `key`, the rest in order. */
  function Without(s: seq<string>, key: string): (r: seq<string>)
    ensures |r| <= |s|
    ensures key !in r
    ensures forall e :: e in r ==> e in s
  {
    if s == [] then []
    else (if s[0] == key then [] else [s[0]]) + Without(s[1..], key)
  }

  lemma {:induction false} WithoutAppend(u: seq<string>, v: seq<string>, key: string)
    ensures Without(u + v, key) == Without(u, key) + Without(v, key)
  {
    if u == [] {
      assert u + v == v;
    } else {
      var head := if u[0] == key then [] else [u[0]];
      assert (u + v)[0] == u[0] && (u + v)[1..] == u[1..] + v;
      assert Without(u + v, key) == head + Without(u[1..] + v, key);
      WithoutAppend(u[1..], v, key);
      assert Without(u, key) == head + Without(u[1..], key);
    }
  }

  /** Removal keeps every other phrase as often as it was stored. */
  lemma {:induction false} WithoutKeepsOthers(s: seq<string>, key: string, e: string)
    requires e != key
    ensures multiset(Without(s, key))[e] == multiset(s)[e]
  {
    if s != [] {
      assert s == [s[0]] + s[1..];
      WithoutKeepsOthers(s[1..], key, e);
    }
  }

  /** Removing a phrase that is not stored changes nothing. */
  lemma {:induction false} WithoutAbsent(s: seq<string>, key: string)
    requires key !in s
    ensures Without(s, key) == s
  {
    if s != [] {
      WithoutAbsent(s[1..], key);
    }
  }

  /** Adding a phrase and removing it again is the same as removing it. */
  lemma AddThenRemove(s: seq<string>, key: string)
    ensures Without(s + [key], key) == Without(s, key)
  {
    WithoutAppend(s, [key], key);
    assert Without([key], key) == [];
  }

  /** Removal never grants an exemption. */
  lemma RemovalNeverGrants(s: seq<string>, key: string, input: string, sim: Similarity, threshold: real)
    ensures AnyMatch(Without(s, key), input, sim, threshold) ==> AnyMatch(s, input, sim, threshold)
  {
    var r := Without(s, key);
    assert forall k :: 0 <= k < |r| ==> r[k] in r;
    AnyMatchMonotone(r, s, input, sim, threshold);
  }

  /** Adding a phrase never revokes an exemption. */
  lemma AdditionNeverRevokes(text: string, s: seq<string>, e: string, sim: Similarity, threshold: real)
    ensures Permission(text, Some(s), sim, threshold) == Some(true) ==>
      Permission(text, Some(s + [e]), sim, threshold) == Some(true)
  {
    var t := s + [e];
    assert forall k :: 0 <= k < |s| ==> s[k] == t[k];
    AnyMatchMonotone(s, t, Lower(text), sim, threshold);
  }

  /** When identical strings score 1.0, a phrase added to the list exempts the
      message it was added from. */
  lemma AddedPhraseIsPermitted(text: string, s: seq<string>, sim: Similarity)
    requires forall x :: sim(x, x) == 1.0
    ensures Permission(text, Some(s + [Lower(text)]), sim, SimilarityThreshold) == Some(true)
  {
    var t := s + [Lower(text)];
    assert sim(t[|s|], Lower(text)) == 1.0;
  }

  /** The deletion loop of `removeException`: every stored phrase equal to
      `key` is dropped, the others are kept in order. */
  method RemoveMatching(stored: seq<string>, key: string) returns (kept: seq<string>)
    ensures kept == Without(stored, key)
    ensures key !in kept
    ensures forall e :: e != key ==> multiset(kept)[e] == multiset(stored)[e]
  {
    kept := [];
    var i := 0;
    while i < |stored|
      invariant 0 <= i <= |stored|
      invariant kept == Without(stored[..i], key)
    {
      assert stored[..i + 1] == stored[..i] + [stored[i]];
      WithoutAppend(stored[..i], [stored[i]], key);
      if stored[i] != key {
        kept := kept + [stored[i]];
      }
      i := i + 1;
    }
    assert stored[..i] == stored;
    forall e | e != key ensures multiset(kept)[e] == multiset(stored)[e] {
      WithoutKeepsOthers(stored, key, e);
    }
  }

  // ---------------------------------------------------------------------------
  // The exception store

  /** The settings document created for a new group. */
  datatype GroupSettings = GroupSettings(requiredLang: string, mutePeople: bool, beHelpful: bool)

  const NewGroupSettings: GroupSettings := GroupSettings("en", false, true)

  /** The `groups` collection: one settings document per group and, below it,
      the group's exception phrases. Every operation takes whether the store
      call succeeds (`available`) as a parameter. */
  class ExceptionStore {
    var groups: map<GroupId, GroupSettings>
    var exceptions: map<GroupId, seq<string>>

    constructor ()
      ensures groups == map[] && exceptions == map[]
    {
      groups := map[];
      exceptions := map[];
    }

    /** The phrases stored for a group; a group with none has an empty list. */
    function Exceptions(groupId: GroupId): seq<string>
      reads this
    {
      if groupId in exceptions then exceptions[groupId] else []
    }

    /** `initNewGroup`: creates the group's settings document with the default
        settings; creating a document that exists fails. */
    method InitNewGroup(groupId: GroupId, available: bool) returns (created: bool)
      modifies this
      ensures created <==> available && groupId !in old(groups)
      ensures groups == if created then old(groups)[groupId := NewGroupSettings] else old(groups)
      ensures exceptions == old(exceptions)
    {
      if !available || groupId in groups {
        return false;
      }
      groups := groups[groupId := NewGroupSettings];
      return true;
    }

    /** `addException`: appends the lower-cased text to the group's phrases
        (duplicates allowed); nothing changes when the store call fails. */
    method AddException(messageText: string, groupId: GroupId, available: bool) returns (ok: bool)
      modifies this
      ensures ok == available
      ensures groups == old(groups)
      ensures exceptions == if ok then old(exceptions)[groupId := old(Exceptions(groupId)) + [Lower(messageText)]]
                            else old(exceptions)
      ensures forall g :: g != groupId ==> Exceptions(g) == old(Exceptions(g))
    {
      if !available {
        return false;
      }
      var inputText := Lower(messageText);
      exceptions := exceptions[groupId := Exceptions(groupId) + [inputText]];
      return true;
    }

    /** `removeException`: deletes every phrase of the group equal to the
        lower-cased text; succeeds also when none matched. */
    method RemoveException(messageText: string, groupId: GroupId, available: bool) returns (ok: bool)
      modifies this
      ensures ok == available
      ensures groups == old(groups)
      ensures exceptions == if ok then old(exceptions)[groupId := Without(old(Exceptions(groupId)), Lower(messageText))]
                            else old(exceptions)
      ensures forall g :: g != groupId ==> Exceptions(g) == old(Exceptions(g))
    {
      if !available {
        return false;
      }
      var kept := RemoveMatching(Exceptions(groupId), Lower(messageText));
      exceptions := exceptions[groupId := kept];
      return true;
    }

    /** `shouldBePermitted` for a group; `readOk` says whether reading the
        group's phrases succeeds. */
    method ShouldBePermitted(messageText: string, groupId: GroupId, sim: Similarity, readOk: bool)
      returns (r: Option<bool>)
      ensures r == Permission(messageText, if readOk then Some(Exceptions(groupId)) else None, sim, SimilarityThreshold)
    {
      if LexicallyExempt(messageText) {
        return Some(true);
      }
      if !readOk {
        return None;
      }
      var found := FuzzyMatch(Exceptions(groupId), Lower(messageText), sim, SimilarityThreshold);
      return Some(found);
    }
  }
}
