/** The validators of `utils/validation.py`: total functions from their inputs
    to a verdict, each failing case with its own message. */
module Validation {
  import opened Chars
  import opened Strings
  import opened Wrappers
  import TextProcessor
  import opened DateParser

  /** The `(is_valid, error_message)` pair: `(True, None)` or `(False, message)`. */
  datatype Verdict = Valid | Invalid(message: string)

  predicate EndsWithNewline(s: string) {
    |s| > 0 && s[|s| - 1] == '\n'
  }

  /** The texts a pattern ending in `$` must match under `re.match`: the whole
      input, or the input without one final "\n". */
  predicate DollarMatch(s: string, body: string -> bool) {
    body(s) || (EndsWithNewline(s) && body(s[..|s| - 1]))
  }

  // ---------------------------------------------------------------------------
  // validate_discord_id
  // ---------------------------------------------------------------------------

  /** A snowflake as the pattern `\d{17,20}` spells it. */
  predicate IsSnowflake(s: string) {
    17 <= |s| <= 20 && AllDigits(s)
  }

  /** `validate_discord_id`: `^\d{17,20}$` scanned greedily. */
  function ValidateDiscordId(s: string): (ok: bool)
    ensures ok <==> DollarMatch(s, IsSnowflake)
  {
    if s == "" then false
    else
      var n := Run(Digits, s);
      if !(17 <= n <= 20) then
        assert !IsSnowflake(s);
        assert EndsWithNewline(s) ==> !IsSnowflake(s[..|s| - 1]);
        false
      else if n == |s| then true
      else if n + 1 == |s| && s[n] == '\n' then
        assert s[..n] == s[..|s| - 1];
        true
      else
        assert !IsSnowflake(s);
        assert EndsWithNewline(s) ==> !IsSnowflake(s[..|s| - 1]);
        false
  }

  /** The decimal rendering of an id is accepted exactly for the values with
      17 to 20 digits. */
  lemma DiscordIdOfNumber(n: nat)
    ensures ValidateDiscordId(NatToString(n)) <==> Pow10(16) <= n < Pow10(20)
  {
    var s := NatToString(n);
    assert !EndsWithNewline(s);
    if n < Pow10(16) {
      NatToStringLength(n, 16);
    } else {
      NatToStringAtLeast(n, 16);
      if n >= Pow10(20) {
        NatToStringAtLeast(n, 20);
      } else {
        NatToStringLength(n, 20);
      }
    }
    assert ValidateDiscordId(s) <==> IsSnowflake(s);
  }

  // ---------------------------------------------------------------------------
  // validate_user_permissions
  // ---------------------------------------------------------------------------

  /** The parts of a guild member the permission check reads. */
  datatype Member = Member(id: nat, administrator: bool, manageMessages: bool)

  /** `validate_user_permissions`: self-analysis, administrators and message
      managers are allowed. */
  function ValidateUserPermissions(user: Member, target: Member): (ok: bool)
    ensures ok <==> user.id == target.id || user.administrator || user.manageMessages
  {
    if user.id == target.id then true
    else if user.administrator then true
    else if user.manageMessages then true
    else false
  }

  /** Whether analysis is allowed does not depend on the target's own
      permissions. */
  lemma UserPermissionsIgnoreTargetRights(user: Member, a: Member, b: Member)
    requires a.id == b.id
    ensures ValidateUserPermissions(user, a) == ValidateUserPermissions(user, b)
  {
  }

  // ---------------------------------------------------------------------------
  // validate_cutoff_date
  // ---------------------------------------------------------------------------

  /** `^\d{1,2}\.\d{1,2}\.\d{4}$` under `re.match`. */
  predicate CutoffShape(s: string) {
    DollarMatch(s, t => SplitDmy(t).Some?)
  }

  const CutoffMinimum: DateTime := Midnight(Date(2015, 1, 1))

  /** `validate_cutoff_date`, with the current time as a parameter. The checks
      run in this order: empty, format, calendar, future, before 2015. */
  function ValidateCutoffDate(s: string, now: DateTime): (r: Verdict)
    requires 1 <= now.date.month <= 12
    ensures r == Invalid("Date cannot be empty") <==> s == ""
    ensures r == Invalid("Date must be in DD.MM.YYYY format") <==> s != "" && !CutoffShape(s)
    ensures r == Invalid("Invalid date values") <==> CutoffShape(s) && Strptime(s).None?
    ensures r == Invalid("Cutoff date cannot be in the future") <==>
      Strptime(s).Some? && !IsValidCutoffDate(Midnight(Strptime(s).value), now)
    ensures r == Invalid("Cutoff date cannot be before 2015") <==>
      Strptime(s).Some? && IsValidCutoffDate(Midnight(Strptime(s).value), now)
      && Strptime(s).value.year < 2015
    ensures r.Valid? <==>
      Strptime(s).Some? && IsValidCutoffDate(Midnight(Strptime(s).value), now)
      && Strptime(s).value.year >= 2015
  {
    if s == "" then Invalid("Date cannot be empty")
    else if !CutoffShape(s) then
      assert Strptime(s).None?;
      Invalid("Date must be in DD.MM.YYYY format")
    else
      match Strptime(s)
      case None => Invalid("Invalid date values")
      case Some(d) =>
        var parsed := Midnight(d);
        if Instant(parsed) > Instant(now) then Invalid("Cutoff date cannot be in the future")
        else
          BeforeMinimumIffEarlierYear(d);
          if Instant(parsed) < Instant(CutoffMinimum) then Invalid("Cutoff date cannot be before 2015")
          else Valid
  }

  /** Midnight of a date is before 1 January 2015 exactly when its year is. */
  lemma BeforeMinimumIffEarlierYear(d: Date)
    requires IsValidDate(d)
    ensures Instant(Midnight(d)) < Instant(CutoffMinimum) <==> d.year < 2015
  {
    var m := Date(2015, 1, 1);
    if d.year < 2015 {
      OrdinalOrdersYears(d, m);
    } else if d.year > 2015 {
      OrdinalOrdersYears(m, d);
    }
  }

  /** A date the validator accepts is one `parse_dd_mm_yyyy` reads to the same
      midnight, and one `is_valid_cutoff_date` accepts. */
  lemma ValidCutoffParses(s: string, now: DateTime)
    requires 1 <= now.date.month <= 12
    requires ValidateCutoffDate(s, now).Valid?
    ensures ParseDdMmYyyy(s) == Ok(Midnight(Strptime(s).value))
    ensures IsValidCutoffDate(ParseDdMmYyyy(s).value, now)
    ensures ParseDdMmYyyy(s).value.date.year >= 2015
  {
    var f := SplitDmy(s).value;
    RenderIsStripped(f);
    ParseStripped(s);
  }

  /** The format check lets one trailing newline through; strptime then
      rejects the text, so the verdict is the calendar message. */
  lemma TrailingNewlineIsInvalidValues(f: DmyFields, now: DateTime)
    requires WellFormedFields(f) && 1 <= now.date.month <= 12
    ensures ValidateCutoffDate(Render(f) + "\n", now) == Invalid("Invalid date values")
  {
    var s := Render(f) + "\n";
    assert s[..|s| - 1] == Render(f);
    SplitDmyOfRender(f);
    assert CutoffShape(s);
  }

  // ---------------------------------------------------------------------------
  // validate_session_limits
  // ---------------------------------------------------------------------------

  /** The refusal `validate_session_limits` gives for the maximum `max`. */
  function SessionLimitMessage(max: int): string {
    "Maximum number of active sessions (" + IntToString(max) + ") reached for this server"
  }

  /** `validate_session_limits`: the server id is not consulted. */
  function ValidateSessionLimits(serverId: string, current: int, max: int): (r: Verdict)
    ensures r.Valid? <==> current < max
    ensures r.Invalid? ==> r.message == SessionLimitMessage(max)
  {
    if current >= max then Invalid(SessionLimitMessage(max)) else Valid
  }

  /** The refusal names the maximum: different maxima give different texts. */
  lemma SessionLimitMessageNamesMaximum(a: int, b: int)
    requires SessionLimitMessage(a) == SessionLimitMessage(b)
    ensures a == b
  {
    var pre, post := "Maximum number of active sessions (", ") reached for this server";
    var m := SessionLimitMessage(a);
    assert |IntToString(a)| == |m| - |pre| - |post| == |IntToString(b)|;
    assert IntToString(a) == m[|pre|..|m| - |post|] == IntToString(b);
    IntToStringInjective(a, b);
  }

  /** Sessions active after `requests` start requests from `current`, each
      admitted exactly when `validate_session_limits` accepts it. */
  function AdmitSessions(serverId: string, current: int, max: int, requests: nat): int
    decreases requests
  {
    if requests == 0 then current
    else
      var next := if ValidateSessionLimits(serverId, current, max).Valid? then current + 1 else current;
      AdmitSessions(serverId, next, max, requests - 1)
  }

  /** However many requests arrive, admissions stop at the maximum: below it
      the count grows to `min(current + requests, max)`, at or above it
      nothing is admitted. */
  lemma {:induction false} SessionAdmissionsStopAtMaximum(serverId: string, current: int, max: int, requests: nat)
    ensures AdmitSessions(serverId, current, max, requests) ==
      if current >= max then current
      else if current + requests <= max then current + requests
      else max
    decreases requests
  {
    if requests > 0 {
      var next := if current < max then current + 1 else current;
      SessionAdmissionsStopAtMaximum(serverId, next, max, requests - 1);
    }
  }

  // ---------------------------------------------------------------------------
  // validate_message_content_for_training
  // ---------------------------------------------------------------------------

  const MaxTrainingLength := 2000

  /** `validate_message_content_for_training`: emptiness, then stripped
      length, then raw length, then the proportion of word and whitespace
      characters. */
  function ValidateMessageContentForTraining(content: string): (r: Verdict)
    ensures r == Invalid("Empty message content") <==> |Strip(content)| == 0
    ensures r == Invalid("Message too short for training") <==> 0 < |Strip(content)| < 3
    ensures r == Invalid("Message too long") <==> |Strip(content)| >= 3 && |content| > MaxTrainingLength
    ensures r == Invalid("Message contains too many special characters") <==>
      |Strip(content)| >= 3 && |content| <= MaxTrainingLength && TextProcessor.MostlySpecial(content)
    ensures r.Valid? <==>
      |Strip(content)| >= 3 && |content| <= MaxTrainingLength && !TextProcessor.MostlySpecial(content)
  {
    if content == "" || |Strip(content)| == 0 then Invalid("Empty message content")
    else if |Strip(content)| < 3 then Invalid("Message too short for training")
    else if |content| > MaxTrainingLength then Invalid("Message too long")
    else if 10 * TextProcessor.WordOrSpaceCount(content) < 3 * |content| then
      Invalid("Message contains too many special characters")
    else Valid
  }

  /** The collection filter and the training validator agree: content the
      first keeps passes the second whenever it fits in 2000 characters, and
      content the second passes is kept unless it looks like a command. */
  lemma TrainingValidationMatchesContentFilter(content: string)
    ensures TextProcessor.IsValidMessageContent(content) && |content| <= MaxTrainingLength
      ==> ValidateMessageContentForTraining(content).Valid?
    ensures ValidateMessageContentForTraining(content).Valid?
      && Strip(content)[0] !in TextProcessor.CommandPrefixes
      ==> TextProcessor.IsValidMessageContent(content)
  {
  }

  // ---------------------------------------------------------------------------
  // validate_model_name
  // ---------------------------------------------------------------------------

  /** `[a-zA-Z0-9][a-zA-Z0-9._-]*[a-zA-Z0-9]` over a whole text. */
  predicate ModelNameShape(s: string) {
    && |s| >= 2
    && IsAsciiAlnum(s[0]) && IsAsciiAlnum(s[|s| - 1])
    && forall i :: 0 < i < |s| - 1 ==> IsModelNameChar(s[i])
  }

  /** Longest run of model-name characters at the start of `s`. */
  function NameRun(s: string): (n: nat)
    ensures n <= |s|
    ensures forall i :: 0 <= i < n ==> IsModelNameChar(s[i])
    ensures n == |s| || !IsModelNameChar(s[n])
  {
    if |s| > 0 && IsModelNameChar(s[0]) then 1 + NameRun(s[1..]) else 0
  }

  /** The pattern as the regex engine runs it: the greedy middle run, then
      backing off one character for the final alphanumeric, then `$`. */
  function MatchModelName(s: string): (ok: bool)
    ensures ok <==> DollarMatch(s, ModelNameShape)
  {
    if |s| == 0 || !IsAsciiAlnum(s[0]) then false
    else
      var n := NameRun(s);
      assert forall i :: 0 < i < |s| && !IsModelNameChar(s[i]) ==> n <= i;
      if n == |s| then n >= 2 && IsAsciiAlnum(s[n - 1])
      else if n + 1 == |s| && s[n] == '\n' then
        assert s[..|s| - 1][|s| - 2] == s[n - 1];
        assert !ModelNameShape(s) by { assert !IsModelNameChar(s[n]); }
        n >= 2 && IsAsciiAlnum(s[n - 1])
      else
        assert !ModelNameShape(s) by {
          assert !IsModelNameChar(s[n]);
        }
        assert EndsWithNewline(s) ==> !ModelNameShape(s[..|s| - 1]);
        false
  }

  const MaxModelNameLength := 100

  /** `validate_model_name`. The length limit counts a trailing newline the
      pattern let through. */
  function ValidateModelName(name: string): (r: Verdict)
    ensures r == Invalid("Model name cannot be empty") <==> name == ""
    ensures r == Invalid("Invalid model name format") <==> name != "" && !DollarMatch(name, ModelNameShape)
    ensures r == Invalid("Model name too long") <==> DollarMatch(name, ModelNameShape) && |name| > MaxModelNameLength
    ensures r.Valid? <==> DollarMatch(name, ModelNameShape) && |name| <= MaxModelNameLength
  {
    if name == "" then Invalid("Model name cannot be empty")
    else if !MatchModelName(name) then Invalid("Invalid model name format")
    else if |name| > MaxModelNameLength then Invalid("Model name too long")
    else Valid
  }

  /** Without a trailing newline, accepted names are exactly the ones of 2 to
      100 characters that start and end alphanumeric and use only
      alphanumerics, '.', '_' and '-'. */
  lemma ModelNameCharacterisation(name: string)
    requires !EndsWithNewline(name)
    ensures ValidateModelName(name).Valid? <==>
      && 2 <= |name| <= 100
      && IsAsciiAlnum(name[0]) && IsAsciiAlnum(name[|name| - 1])
      && (forall i :: 0 <= i < |name| ==> IsModelNameChar(name[i]))
  {
  }

  /** Exactly one trailing newline slips through the shape check. */
  lemma ModelNameWithNewline(name: string)
    requires ModelNameShape(name) && |name| < MaxModelNameLength
    ensures ValidateModelName(name + "\n") == Valid
  {
    assert (name + "\n")[..|name|] == name;
  }

  // ---------------------------------------------------------------------------
  // validate_channel_permissions
  // ---------------------------------------------------------------------------

  /** The four permissions the bot needs in a channel. */
  datatype ChannelPermissions = ChannelPermissions(
    readMessages: bool, sendMessages: bool, readMessageHistory: bool, embedLinks: bool)

  const PermissionNames: seq<string> :=
    ["Read Messages", "Send Messages", "Read Message History", "Embed Links"]

  function Granted(p: ChannelPermissions): (g: seq<bool>)
    ensures |g| == |PermissionNames|
  {
    [p.readMessages, p.sendMessages, p.readMessageHistory, p.embedLinks]
  }

  /** The names of the ungranted permissions among the first `k`, in order. */
  function MissingAmong(p: ChannelPermissions, k: nat): (m: seq<string>)
    requires k <= |PermissionNames|
  {
    if k == 0 then []
    else MissingAmong(p, k - 1) + (if Granted(p)[k - 1] then [] else [PermissionNames[k - 1]])
  }

  /** The loop collecting the missing permissions' display names. */
  method MissingPermissions(p: ChannelPermissions) returns (missing: seq<string>)
    ensures missing == MissingAmong(p, |PermissionNames|)
    ensures forall i :: 0 <= i < |PermissionNames| ==> (PermissionNames[i] in missing <==> !Granted(p)[i])
    ensures |missing| == 0 <==> forall i :: 0 <= i < |PermissionNames| ==> Granted(p)[i]
  {
    missing := [];
    var i := 0;
    while i < |PermissionNames|
      invariant 0 <= i <= |PermissionNames|
      invariant missing == MissingAmong(p, i)
    {
      if !Granted(p)[i] {
        missing := missing + [PermissionNames[i]];
      }
      i := i + 1;
    }
    MissingAmongNames(p, |PermissionNames|);
    MissingAmongEmpty(p, |PermissionNames|);
  }

  lemma {:induction false} MissingAmongEmpty(p: ChannelPermissions, k: nat)
    requires k <= |PermissionNames|
    ensures |MissingAmong(p, k)| == 0 <==> forall i :: 0 <= i < k ==> Granted(p)[i]
  {
    if k > 0 {
      MissingAmongEmpty(p, k - 1);
    }
  }

  lemma {:induction false} MissingAmongNames(p: ChannelPermissions, k: nat)
    requires k <= |PermissionNames|
    ensures forall i :: 0 <= i < |PermissionNames| ==>
      (PermissionNames[i] in MissingAmong(p, k) <==> i < k && !Granted(p)[i])
  {
    if k > 0 {
      MissingAmongNames(p, k - 1);
      forall i | 0 <= i < |PermissionNames|
        ensures PermissionNames[i] in MissingAmong(p, k) <==> i < k && !Granted(p)[i]
      {
        assert PermissionNames[i] == PermissionNames[k - 1] <==> i == k - 1;
      }
    }
  }

  /** `validate_channel_permissions`. */
  function ValidateChannelPermissions(p: ChannelPermissions): (r: Verdict)
    ensures r.Valid? <==> p.readMessages && p.sendMessages && p.readMessageHistory && p.embedLinks
    ensures r.Invalid? ==> r.message == "Missing permissions: " + Join(", ", MissingAmong(p, |PermissionNames|))
  {
    var missing := MissingAmong(p, |PermissionNames|);
    MissingAmongEmpty(p, |PermissionNames|);
    var g := Granted(p);
    assert g[0] == p.readMessages && g[1] == p.sendMessages;
    assert g[2] == p.readMessageHistory && g[3] == p.embedLinks;
    if |missing| > 0 then Invalid("Missing permissions: " + Join(", ", missing)) else Valid
  }

  // ---------------------------------------------------------------------------
  // validate_training_dataset_size
  // ---------------------------------------------------------------------------

  const DefaultMinMessages := 50
  const DefaultMaxMessages := 10000

  /** `validate_training_dataset_size`: the lower bound is checked first. */
  function ValidateTrainingDatasetSize(count: int, min: int, max: int): (r: Verdict)
    ensures r.Valid? <==> min <= count <= max
    ensures count < min ==> r == Invalid(
      "Insufficient messages for training. Found " + IntToString(count)
      + ", need at least " + IntToString(min))
    ensures min <= count && count > max ==> r == Invalid(
      "Too many messages for training. Found " + IntToString(count)
      + ", maximum is " + IntToString(max))
  {
    if count < min then
      Invalid("Insufficient messages for training. Found " + IntToString(count)
        + ", need at least " + IntToString(min))
    else if count > max then
      Invalid("Too many messages for training. Found " + IntToString(count)
        + ", maximum is " + IntToString(max))
    else Valid
  }

  // ---------------------------------------------------------------------------
  // sanitize_filename
  // ---------------------------------------------------------------------------

  const ForbiddenFilenameChars: set<char> := {'<', '>', ':', '"', '/', '\\', '|', '?', '*'}
  const FilenameEdgeChars: set<char> := {'.', ' '}
  const MaxFilenameLength := 255

  /** `re.sub(r'[<>:"/\\|?*]', '_', s)`. */
  function ReplaceForbidden(s: string): (r: string)
    ensures |r| == |s|
    ensures forall i :: 0 <= i < |s| ==> r[i] == if s[i] in ForbiddenFilenameChars then '_' else s[i]
  {
    seq(|s|, i requires 0 <= i < |s| => if s[i] in ForbiddenFilenameChars then '_' else s[i])
  }

  predicate NoForbidden(s: string) {
    forall i :: 0 <= i < |s| ==> s[i] !in ForbiddenFilenameChars
  }

  lemma NoForbiddenSlice(s: string, i: nat, j: nat)
    requires NoForbidden(s) && i <= j <= |s|
    ensures NoForbidden(s[i..j])
  {
    assert forall k :: 0 <= k < j - i ==> s[i..j][k] == s[i + k];
  }

  lemma ReplacedHasNoForbidden(name: string)
    ensures NoForbidden(ReplaceForbidden(name))
  {
  }

  /** Replace, then strip dots and spaces. */
  function SanitizedCore(name: string): (core: string)
    ensures NoForbidden(core)
    ensures |core| > 0 ==> core[0] !in FilenameEdgeChars && core[|core| - 1] !in FilenameEdgeChars
  {
    var replaced := ReplaceForbidden(name);
    ReplacedHasNoForbidden(name);
    StripCharsSlice(replaced, FilenameEdgeChars);
    NoForbiddenSlice(replaced, StripOffset(replaced, FilenameEdgeChars),
      StripOffset(replaced, FilenameEdgeChars) + |StripChars(replaced, FilenameEdgeChars)|);
    StripChars(replaced, FilenameEdgeChars)
  }

  /** `sanitize_filename` as written: replace, strip dots and spaces, fall
      back to "untitled", truncate to 255 characters. */
  function SanitizeFilename(name: string): (r: string)
    ensures 0 < |r| <= MaxFilenameLength
    ensures NoForbidden(r)
    ensures r[0] !in FilenameEdgeChars
    ensures SanitizedCore(name) == "" ==> r == "untitled"
    ensures SanitizedCore(name) != "" ==>
      |r| == TextProcessor.Min(|SanitizedCore(name)|, MaxFilenameLength) && r == SanitizedCore(name)[..|r|]
  {
    var core := SanitizedCore(name);
    var s := if core == "" then "untitled" else core;
    assert s[0] !in FilenameEdgeChars;
    TruncateName(s)
  }

  /** `name[:255]` on a name with no forbidden character. */
  function TruncateName(s: string): (r: string)
    requires NoForbidden(s)
    ensures |r| == TextProcessor.Min(|s|, MaxFilenameLength) && r == s[..|r|]
    ensures NoForbidden(r)
  {
    if |s| > MaxFilenameLength then
      NoForbiddenSlice(s, 0, MaxFilenameLength);
      s[..MaxFilenameLength]
    else s
  }

  /** The truncation can cut just after a '.' or ' ', which the strip step was
      meant to remove: a 254-character safe stem followed by ". b" comes out
      ending in '.', and sanitizing that again changes it. */
  lemma SanitizeCanEndInDot(stem: string)
    requires |stem| == 254 && NoForbidden(stem) && stem[0] !in FilenameEdgeChars
    ensures SanitizeFilename(stem + ". b") == stem + "."
    ensures SanitizeFilename(SanitizeFilename(stem + ". b")) != SanitizeFilename(stem + ". b")
  {
    var s := stem + ". b";
    assert NoForbidden(s) by {
      assert forall i :: 0 <= i < |stem| ==> s[i] == stem[i];
    }
    SafeNameIsItsOwnCore(s);
    assert s[..255] == stem + ".";
    NoForbiddenSlice(s, 0, 255);
    EdgeEndedNameChanges(stem + ".");
  }

  /** A safe name ending in '.' or ' ' is never its own sanitised form. */
  lemma EdgeEndedNameChanges(t: string)
    requires NoForbidden(t) && |t| > 0 && t[|t| - 1] in FilenameEdgeChars
    ensures SanitizeFilename(t) != t
  {
    ReplaceNoop(t);
    StripCharsDropsLast(t, FilenameEdgeChars);
    var r := SanitizeFilename(t);
    assert |SanitizedCore(t)| < |t|;
    assert r == "untitled" ==> r[|r| - 1] == 'd';
  }

  /** Stripping a text whose last character is stripped shortens it. */
  lemma StripCharsDropsLast(t: string, drop: set<char>)
    requires |t| > 0 && t[|t| - 1] in drop
    ensures |StripChars(t, drop)| < |t|
  {
    var u := TrimStart(t, drop);
    if |u| > 0 {
      assert u[|u| - 1] == t[|t| - 1];
    }
  }

  lemma ReplaceNoop(s: string)
    requires NoForbidden(s)
    ensures ReplaceForbidden(s) == s
  {
  }

  /** A name with no forbidden character and no dot or space at either end
      passes through replacement and stripping unchanged. */
  lemma SafeNameIsItsOwnCore(s: string)
    requires NoForbidden(s) && |s| > 0
    requires s[0] !in FilenameEdgeChars && s[|s| - 1] !in FilenameEdgeChars
    ensures SanitizedCore(s) == s
  {
    ReplaceNoop(s);
    StripCharsNoop(s, FilenameEdgeChars);
  }

  /** `sanitize_filename` with the strip applied after the truncation too, so
      that no result ends in '.' or ' '. */
  function SanitizeFilenameCorrected(name: string): (r: string)
    ensures 0 < |r| <= MaxFilenameLength
    ensures NoForbidden(r)
    ensures r[0] !in FilenameEdgeChars && r[|r| - 1] !in FilenameEdgeChars
    ensures HasPrefix(SanitizeFilename(name), r)
  {
    var s := SanitizeFilename(name);
    TrimStartNoop(s, FilenameEdgeChars);
    StripCharsSlice(s, FilenameEdgeChars);
    NoForbiddenSlice(s, 0, |StripChars(s, FilenameEdgeChars)|);
    StripChars(s, FilenameEdgeChars)
  }

  /** The corrected sanitizer is idempotent. */
  lemma SanitizeFilenameCorrectedIdempotent(name: string)
    ensures SanitizeFilenameCorrected(SanitizeFilenameCorrected(name)) == SanitizeFilenameCorrected(name)
  {
    var r := SanitizeFilenameCorrected(name);
    assert ReplaceForbidden(r) == r;
    StripCharsNoop(r, FilenameEdgeChars);
    StripCharsNoop(r, FilenameEdgeChars);
  }
}
