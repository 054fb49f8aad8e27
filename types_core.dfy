/** Value types shared by every frontend (src/types_core.ts): the translation of
    one message, the verdict context built from it, and the configuration read
    from the process environment. */
module Types {
  import opened Wrappers

  /** What a translation provider reports for one message. */
  datatype Translation = Translation(
    inputText: string,
    detectedLangCode: string,
    detectedLangName: string,
    translatedText: string,
    confidence: real)

  /** The verdict on one message and the data needed to act on it. */
  datatype TranslationContext = TranslationContext(
    isCorrectLang: bool,
    requiredLangCode: string,
    requiredLangName: string,
    translation: Option<Translation>)

  /** The settings of `CoreConfig`, one field per environment variable. */
  datatype CoreConfig = CoreConfig(
    gcpApiKey: string,
    requiredLang: string,
    projectId: string,
    clientEmail: string,
    privateKey: string,
    beHelpful: bool,
    mutePeople: bool,
    muteTimeout: int)

  /** The process environment: a variable that is not in the map is undefined. */
  type Env = map<string, string>

  const DefaultRequiredLang: string := "en"
  const DefaultMuteTimeout: int := 30000

  /** `process.env[key]` is truthy: defined and not the empty string. */
  predicate IsSet(env: Env, key: string) {
    key in env && env[key] != ""
  }

  /** `process.env[key] === "true"`. */
  predicate IsTrue(env: Env, key: string) {
    key in env && env[key] == "true"
  }

  // ---------------------------------------------------------------------------
  // PRIVATE_KEY: `replace(/\\n/g, "\n")`

  /** The two characters backslash and `n` start at position `k`. */
  predicate EscapeAt(s: string, k: int)
    requires 0 <= k < |s| - 1
  {
    s[k] == '\\' && s[k + 1] == 'n'
  }

  predicate HasEscapedNewline(s: string) {
    exists k :: 0 <= k < |s| - 1 && EscapeAt(s, k)
  }

  /** Every backslash-`n` pair, scanned left to right without overlap, becomes a
      newline character. */
  function UnescapeNewlines(s: string): (r: string)
    ensures |r| <= |s|
    ensures (r == []) == (s == [])
  {
    if |s| >= 2 && s[0] == '\\' && s[1] == 'n' then "\n" + UnescapeNewlines(s[2..])
    else if s == [] then []
    else [s[0]] + UnescapeNewlines(s[1..])
  }

  /** A result that starts with `n` comes from a text that starts with `n`:
      a replaced pair starts the result with a newline instead. */
  lemma UnescapeHead(s: string)
    requires UnescapeNewlines(s) != [] && UnescapeNewlines(s)[0] == 'n'
    ensures s[0] == 'n'
  {
  }

  /** No backslash-`n` pair is left after unescaping. */
  lemma {:induction false} UnescapeLeavesNoEscape(s: string)
    ensures !HasEscapedNewline(UnescapeNewlines(s))
  {
    var r := UnescapeNewlines(s);
    if |s| >= 2 && s[0] == '\\' && s[1] == 'n' {
      UnescapeLeavesNoEscape(s[2..]);
      var tail := UnescapeNewlines(s[2..]);
      assert r == "\n" + tail;
      forall k | 0 <= k < |r| - 1
        ensures !EscapeAt(r, k)
      {
        if k > 0 {
          assert r[k] == tail[k - 1] && r[k + 1] == tail[k];
          assert !EscapeAt(tail, k - 1);
        }
      }
    } else if s != [] {
      UnescapeLeavesNoEscape(s[1..]);
      var tail := UnescapeNewlines(s[1..]);
      assert r == [s[0]] + tail;
      forall k | 0 <= k < |r| - 1
        ensures !EscapeAt(r, k)
      {
        if k == 0 {
          if r[0] == '\\' {
            assert r[1] == tail[0];
            if tail[0] == 'n' {
              UnescapeHead(s[1..]);
            }
          }
        } else {
          assert r[k] == tail[k - 1] && r[k + 1] == tail[k];
          assert !EscapeAt(tail, k - 1);
        }
      }
    }
  }

  /** Text without a backslash-`n` pair is left as it is. */
  lemma {:induction false} UnescapeKeepsPlainText(s: string)
    requires !HasEscapedNewline(s)
    ensures UnescapeNewlines(s) == s
  {
    if s != [] {
      if |s| >= 2 {
        assert !EscapeAt(s, 0);
      }
      forall k | 0 <= k < |s[1..]| - 1
        ensures !EscapeAt(s[1..], k)
      {
        assert !EscapeAt(s, k + 1);
      }
      UnescapeKeepsPlainText(s[1..]);
    }
  }

  /** How a multi-line key is written on one line of an environment file:
      every newline character becomes backslash-`n`. */
  function EscapeNewlines(t: string): (r: string)
    ensures |r| >= |t|
    ensures forall k :: 0 <= k < |r| ==> r[k] != '\n'
  {
    if t == [] then []
    else (if t[0] == '\n' then "\\n" else [t[0]]) + EscapeNewlines(t[1..])
  }

  /** Unescaping restores a key written with escaped newlines: each
      backslash-`n` pair becomes exactly one newline character again. */
  lemma {:induction false} UnescapeEscape(t: string)
    requires forall k :: 0 <= k < |t| ==> t[k] != '\\'
    ensures UnescapeNewlines(EscapeNewlines(t)) == t
  {
    if t != [] {
      var e := EscapeNewlines(t[1..]);
      UnescapeEscape(t[1..]);
      if t[0] == '\n' {
        var w := "\\n" + e;
        assert EscapeNewlines(t) == w;
        assert w[0] == '\\' && w[1] == 'n' && w[2..] == e;
        assert UnescapeNewlines(w) == "\n" + UnescapeNewlines(e);
      } else {
        var w := [t[0]] + e;
        assert EscapeNewlines(t) == w;
        assert w[1..] == e;
      }
      assert t == [t[0]] + t[1..];
    }
  }

  /** Unescaping is idempotent: a key that was already unescaped is kept. */
  lemma UnescapeIdempotent(s: string)
    ensures UnescapeNewlines(UnescapeNewlines(s)) == UnescapeNewlines(s)
  {
    UnescapeLeavesNoEscape(s);
    UnescapeKeepsPlainText(UnescapeNewlines(s));
  }

  // ---------------------------------------------------------------------------
  // MUTE_TIMEOUT: `Number(value) || 30000`

  predicate IsDigit(c: char) { '0' <= c <= '9' }

  predicate AllDigits(s: string) {
    forall k :: 0 <= k < |s| ==> IsDigit(s[k])
  }

  function DigitChar(d: nat): (c: char)
    requires d < 10
    ensures IsDigit(c) && c as int - '0' as int == d
  {
    ('0' as int + d) as char
  }

  /** The value of a string of decimal digits, most significant first. */
  function DigitsValue(s: string): nat
    requires AllDigits(s)
  {
    if s == [] then 0
    else DigitsValue(s[..|s| - 1]) * 10 + (s[|s| - 1] as int - '0' as int)
  }

  /** `Number(s)` for an optional sign followed by decimal digits; `None` stands
      for `NaN`. The empty string is `None` here and `0` in JavaScript: both fall
      back to the default timeout. */
  function ParseDecimal(s: string): (r: Option<int>)
    ensures r.Some? <==>
      s != [] && (AllDigits(s) || ((s[0] == '-' || s[0] == '+') && |s| > 1 && AllDigits(s[1..])))
  {
    if s != [] && (s[0] == '-' || s[0] == '+') then
      var body := s[1..];
      if body != [] && AllDigits(body) then
        Some(if s[0] == '-' then -(DigitsValue(body) as int) else DigitsValue(body))
      else None
    else if s != [] && AllDigits(s) then Some(DigitsValue(s))
    else None
  }

  /** The decimal rendering of a natural number. */
  function Decimal(n: nat): (r: string)
    ensures r != [] && AllDigits(r)
  {
    if n < 10 then [DigitChar(n)] else Decimal(n / 10) + [DigitChar(n % 10)]
  }

  lemma {:induction false} DecimalValue(n: nat)
    ensures DigitsValue(Decimal(n)) == n
  {
    if n >= 10 {
      var r := Decimal(n);
      assert r[..|r| - 1] == Decimal(n / 10);
      DecimalValue(n / 10);
    }
  }

  /** Parsing the rendering of a number gives the number back. */
  lemma DecimalRoundTrip(n: nat)
    ensures ParseDecimal(Decimal(n)) == Some(n)
  {
    DecimalValue(n);
  }

  /** A leading zero does not change the value of a digit string. */
  lemma {:induction false} LeadingZero(s: string)
    requires AllDigits(s)
    ensures AllDigits(['0'] + s) && DigitsValue(['0'] + s) == DigitsValue(s)
  {
    var z := ['0'] + s;
    assert AllDigits(z) by {
      assert forall k :: 1 <= k < |z| ==> z[k] == s[k - 1];
    }
    if s != [] {
      assert z[..|z| - 1] == ['0'] + s[..|s| - 1];
      assert AllDigits(s[..|s| - 1]) by {
        assert forall k :: 0 <= k < |s| - 1 ==> s[..|s| - 1][k] == s[k];
      }
      LeadingZero(s[..|s| - 1]);
    }
  }

  /** A sign in front of the rendering of a number gives its signed value, and
      a leading zero is ignored. */
  lemma SignedRoundTrip(n: nat)
    ensures ParseDecimal("-" + Decimal(n)) == Some(-(n as int))
    ensures ParseDecimal("+" + Decimal(n)) == Some(n)
    ensures ParseDecimal("0" + Decimal(n)) == Some(n)
  {
    DecimalValue(n);
    var d := Decimal(n);
    assert ("-" + d)[1..] == d && ("+" + d)[1..] == d;
    LeadingZero(d);
    assert "0" + d == ['0'] + d;
  }

  /** The mute timeout in milliseconds: the parsed variable, or 30000 when the
      variable is undefined, not a number, or zero. */
  function MuteTimeoutOf(env: Env): (t: int)
    ensures t != 0
    ensures "MUTE_TIMEOUT" !in env ==> t == DefaultMuteTimeout
    ensures "MUTE_TIMEOUT" in env && ParseDecimal(env["MUTE_TIMEOUT"]).None? ==> t == DefaultMuteTimeout
    ensures "MUTE_TIMEOUT" in env && ParseDecimal(env["MUTE_TIMEOUT"]) == Some(0) ==> t == DefaultMuteTimeout
    ensures "MUTE_TIMEOUT" in env && ParseDecimal(env["MUTE_TIMEOUT"]).Some? && ParseDecimal(env["MUTE_TIMEOUT"]).value != 0 ==>
              t == ParseDecimal(env["MUTE_TIMEOUT"]).value
  {
    if "MUTE_TIMEOUT" !in env then DefaultMuteTimeout
    else match ParseDecimal(env["MUTE_TIMEOUT"])
      case None => DefaultMuteTimeout
      case Some(v) => if v != 0 then v else DefaultMuteTimeout
  }

  /** A positive timeout written in decimal is taken as it is. */
  lemma MuteTimeoutFromDecimal(env: Env, n: nat)
    requires n > 0 && "MUTE_TIMEOUT" in env && env["MUTE_TIMEOUT"] == Decimal(n)
    ensures MuteTimeoutOf(env) == n
  {
    DecimalRoundTrip(n);
  }

  // ---------------------------------------------------------------------------
  // CoreConfig

  /** What every successfully built configuration satisfies. */
  predicate ValidConfig(c: CoreConfig) {
    && c.gcpApiKey != "" && c.projectId != "" && c.clientEmail != "" && c.privateKey != ""
    && c.requiredLang != ""
    && c.muteTimeout != 0
    && !HasEscapedNewline(c.privateKey)
  }

  /** `new CoreConfig()`: fails with the message of the first missing credential,
      checked in the order GCP_API_KEY, PROJECT_ID, CLIENT_EMAIL, PRIVATE_KEY;
      otherwise reads every setting with its default. */
  function NewCoreConfig(env: Env): (r: Result<CoreConfig, string>)
    ensures r.Success? <==>
      IsSet(env, "GCP_API_KEY") && IsSet(env, "PROJECT_ID") && IsSet(env, "CLIENT_EMAIL") && IsSet(env, "PRIVATE_KEY")
    ensures !IsSet(env, "GCP_API_KEY") ==> r == Failure("GCP_API_KEY is missing!")
    ensures IsSet(env, "GCP_API_KEY") && !IsSet(env, "PROJECT_ID") ==> r == Failure("PROJECT_ID is missing!")
    ensures IsSet(env, "GCP_API_KEY") && IsSet(env, "PROJECT_ID") && !IsSet(env, "CLIENT_EMAIL") ==>
      r == Failure("CLIENT_EMAIL is missing!")
    ensures IsSet(env, "GCP_API_KEY") && IsSet(env, "PROJECT_ID") && IsSet(env, "CLIENT_EMAIL") && !IsSet(env, "PRIVATE_KEY") ==>
      r == Failure("PRIVATE_KEY is missing!")
    ensures r.Success? ==> ValidConfig(r.value)
    ensures r.Success? ==>
      && r.value.gcpApiKey == env["GCP_API_KEY"]
      && r.value.projectId == env["PROJECT_ID"]
      && r.value.clientEmail == env["CLIENT_EMAIL"]
      && r.value.privateKey == UnescapeNewlines(env["PRIVATE_KEY"])
      && r.value.requiredLang == (if IsSet(env, "REQUIRED_LANG") then env["REQUIRED_LANG"] else DefaultRequiredLang)
      && (r.value.beHelpful <==> IsTrue(env, "BE_HELPFUL"))
      && (r.value.mutePeople <==> IsTrue(env, "MUTE_PEOPLE"))
      && r.value.muteTimeout == MuteTimeoutOf(env)
  {
    if !IsSet(env, "GCP_API_KEY") then Failure("GCP_API_KEY is missing!")
    else if !IsSet(env, "PROJECT_ID") then Failure("PROJECT_ID is missing!")
    else if !IsSet(env, "CLIENT_EMAIL") then Failure("CLIENT_EMAIL is missing!")
    else if !IsSet(env, "PRIVATE_KEY") then Failure("PRIVATE_KEY is missing!")
    else
      UnescapeLeavesNoEscape(env["PRIVATE_KEY"]);
      Success(CoreConfig(
        env["GCP_API_KEY"],
        if IsSet(env, "REQUIRED_LANG") then env["REQUIRED_LANG"] else DefaultRequiredLang,
        env["PROJECT_ID"],
        env["CLIENT_EMAIL"],
        UnescapeNewlines(env["PRIVATE_KEY"]),
        IsTrue(env, "BE_HELPFUL"),
        IsTrue(env, "MUTE_PEOPLE"),
        MuteTimeoutOf(env)))
  }
}
