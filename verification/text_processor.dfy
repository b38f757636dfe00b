/** Cleaning and filtering of chat-message text: the regular-expression
    rewrites that replace mention, role, channel and custom-emoji tokens with
    placeholders and collapse URLs, whitespace normalisation, the content
    validity filter, sentence-aware truncation, windowed context extraction and
    mention extraction.

    Each regular expression is modelled by a matcher that returns the length of
    the match at the start of a string (0 for no match), and Python's `re.sub`,
    `re.findall` and `re.search` by left-to-right scans over those matchers. */
module TextProcessor {
  import opened Chars
  import opened Strings
  import opened Wrappers

  // ---------------------------------------------------------------------------
  // The patterns
  // ---------------------------------------------------------------------------

  datatype Pattern =
    | UserMention      // <@!?(\d+)>
    | RoleMention      // <@&(\d+)>
    | ChannelMention   // <#(\d+)>
    | CustomEmoji      // <a?:\w+:\d+>
    | Url              // http[s]?://(URL body)+
    | WhitespaceRun    // \s+

  /** `\d+>` starting at offset `j`: the end of the match, or 0. */
  function DigitsThenClose(s: string, j: nat): (e: nat)
    requires j <= |s|
    ensures e == 0 || j + 2 <= e <= |s|
    ensures e > 0 ==> s[e - 1] == '>' && forall i :: j <= i < e - 1 ==> IsDigit(s[i])
  {
    var d := Run(Digits, s[j..]);
    if d > 0 && j + d < |s| && s[j + d] == '>' then j + d + 1 else 0
  }

  /** Where the digit group `(\d+)` of a mention pattern starts. */
  function GroupStart(p: Pattern, s: string): nat
    requires p == UserMention || p == RoleMention || p == ChannelMention
  {
    match p
    case UserMention => if |s| > 2 && s[2] == '!' then 3 else 2
    case RoleMention => 3
    case ChannelMention => 2
  }

  /** `<@!?(\d+)>` */
  function MatchUser(s: string): (n: nat)
    ensures n <= |s|
    ensures n > 0 ==> |s| >= 2 && s[0] == '<' && s[1] == '@'
  {
    if |s| >= 2 && s[0] == '<' && s[1] == '@' then
      DigitsThenClose(s, if |s| > 2 && s[2] == '!' then 3 else 2)
    else 0
  }

  /** `<@&(\d+)>` */
  function MatchRole(s: string): (n: nat)
    ensures n <= |s|
    ensures n > 0 ==> |s| >= 3 && s[..3] == "<@&"
  {
    if |s| >= 3 && s[..3] == "<@&" then DigitsThenClose(s, 3) else 0
  }

  /** `<#(\d+)>` */
  function MatchChannel(s: string): (n: nat)
    ensures n <= |s|
    ensures n > 0 ==> |s| >= 2 && s[..2] == "<#"
  {
    if |s| >= 2 && s[..2] == "<#" then DigitsThenClose(s, 2) else 0
  }

  /** `<a?:\w+:\d+>` */
  function MatchEmoji(s: string): (n: nat)
    ensures n <= |s|
    ensures n > 0 ==> s[0] == '<'
  {
    if |s| >= 2 && s[0] == '<' then
      var j := if s[1] == 'a' then 2 else 1;
      if j < |s| && s[j] == ':' then
        var w := Run(WordChars, s[j + 1..]);
        if w > 0 && j + 1 + w < |s| && s[j + 1 + w] == ':' then DigitsThenClose(s, j + 2 + w) else 0
      else 0
    else 0
  }

  /** `http[s]?://` followed by a greedy run of URL characters. */
  function MatchUrl(s: string): (n: nat)
    ensures n <= |s|
    ensures n > 0 ==> s[0] == 'h'
  {
    if |s| >= 4 && s[..4] == "http" then
      var j := if |s| > 4 && s[4] == 's' then 5 else 4;
      if j + 3 <= |s| && s[j..j + 3] == "://" then
        var u := Run(UrlChars, s[j + 3..]);
        if u > 0 then j + 3 + u else 0
      else 0
    else 0
  }

  /** The length of the match of `p` at the start of `s`, 0 when there is none.
      The optional parts (`!?`, `a?`, `[s]?`) and the greedy runs never need
      backtracking: the character after each of them is outside its class. */
  function MatchLength(p: Pattern, s: string): (n: nat)
    ensures n <= |s|
  {
    match p
    case UserMention => MatchUser(s)
    case RoleMention => MatchRole(s)
    case ChannelMention => MatchChannel(s)
    case CustomEmoji => MatchEmoji(s)
    case Url => MatchUrl(s)
    case WhitespaceRun => Run(Spaces, s)
  }

  /** The digit group of a mention match runs from `GroupStart` to just before
      the closing '>'. */
  lemma MentionGroup(p: Pattern, s: string)
    requires p == UserMention || p == RoleMention || p == ChannelMention
    requires MatchLength(p, s) > 0
    ensures GroupStart(p, s) < MatchLength(p, s) - 1
    ensures AllDigits(s[GroupStart(p, s)..MatchLength(p, s) - 1])
  {
  }

  /** The first character of every match of a bracketed or URL pattern. */
  function Opening(p: Pattern): char
    requires p != WhitespaceRun
  {
    if p == Url then 'h' else '<'
  }

  lemma MatchStartsWithOpening(p: Pattern, s: string)
    requires p != WhitespaceRun && MatchLength(p, s) > 0
    ensures s[0] == Opening(p)
  {
  }

  /** `p` matches somewhere in `s` (what `re.search` looks for). */
  ghost predicate Occurs(p: Pattern, s: string) {
    exists i :: 0 <= i < |s| && MatchLength(p, s[i..]) > 0
  }

  // ---------------------------------------------------------------------------
  // re.sub, re.findall, re.search
  // ---------------------------------------------------------------------------

  /** `re.sub(p, rep, s)`: scan left to right; a match is replaced and the scan
      resumes after it, otherwise one character is copied. */
  function Substitute(p: Pattern, rep: string, s: string): string
    decreases |s|
  {
    if |s| == 0 then ""
    else
      var n := MatchLength(p, s);
      if n > 0 then rep + Substitute(p, rep, s[n..])
      else [s[0]] + Substitute(p, rep, s[1..])
  }

  lemma {:induction false} OccursStep(p: Pattern, s: string)
    requires |s| > 0
    ensures Occurs(p, s) <==> MatchLength(p, s) > 0 || Occurs(p, s[1..])
  {
    if Occurs(p, s[1..]) {
      var i :| 0 <= i < |s| - 1 && MatchLength(p, s[1..][i..]) > 0;
      assert s[1..][i..] == s[i + 1..];
    }
    if MatchLength(p, s) > 0 {
      assert s[0..] == s;
    }
    if Occurs(p, s) && MatchLength(p, s) == 0 {
      var i :| 0 <= i < |s| && MatchLength(p, s[i..]) > 0;
      assert i > 0;
      assert s[1..][i - 1..] == s[i..];
    }
  }

  /** At a match, the replacement's first character differs from the text's. */
  lemma SubstituteAtMatch(p: Pattern, rep: string, s: string)
    requires p != WhitespaceRun && |rep| > 0 && rep[0] != Opening(p)
    requires |s| > 0 && MatchLength(p, s) > 0
    ensures Substitute(p, rep, s) != s && Occurs(p, s)
  {
    MatchStartsWithOpening(p, s);
    assert Substitute(p, rep, s) == rep + Substitute(p, rep, s[MatchLength(p, s)..]);
    assert Substitute(p, rep, s)[0] != s[0];
    assert s[0..] == s;
  }

  /** Where nothing matches, one character is copied and both sides of the
      equivalence move on to the rest of the text. */
  lemma SubstituteSkipsNonMatch(p: Pattern, rep: string, s: string)
    requires |s| > 0 && MatchLength(p, s) == 0
    ensures Substitute(p, rep, s) != s <==> Substitute(p, rep, s[1..]) != s[1..]
    ensures Substitute(p, rep, s[1..]) == s[1..] ==> Substitute(p, rep, s) == s
    ensures Occurs(p, s) <==> Occurs(p, s[1..])
  {
    OccursStep(p, s);
    var tail := Substitute(p, rep, s[1..]);
    assert Substitute(p, rep, s) == [s[0]] + tail;
    assert s == [s[0]] + s[1..];
    assert ([s[0]] + tail)[1..] == tail;
  }

  /** A replacement whose first character cannot open a match changes the text
      exactly when the pattern occurs in it. */
  lemma {:induction false} SubstituteChangesIffOccurs(p: Pattern, rep: string, s: string)
    requires p != WhitespaceRun && |rep| > 0 && rep[0] != Opening(p)
    ensures Substitute(p, rep, s) != s <==> Occurs(p, s)
    decreases |s|
  {
    if |s| > 0 {
      if MatchLength(p, s) > 0 {
        SubstituteAtMatch(p, rep, s);
      } else {
        SubstituteSkipsNonMatch(p, rep, s);
        SubstituteChangesIffOccurs(p, rep, s[1..]);
      }
    }
  }

  /** `re.findall(p, s)` for the mention patterns: the digit groups of the
      successive non-overlapping matches. */
  function FindIds(p: Pattern, s: string): (ids: seq<string>)
    requires p == UserMention || p == RoleMention || p == ChannelMention
    ensures forall k :: 0 <= k < |ids| ==> |ids[k]| > 0 && AllDigits(ids[k])
    decreases |s|
  {
    if |s| == 0 then []
    else
      var n := MatchLength(p, s);
      if n > 0 then
        MentionGroup(p, s);
        [s[GroupStart(p, s)..n - 1]] + FindIds(p, s[n..])
      else FindIds(p, s[1..])
  }

  /** `contains_url`: `re.search` for the URL pattern. */
  function ContainsUrl(s: string): (r: bool)
    ensures r <==> Occurs(Url, s)
    decreases |s|
  {
    if |s| == 0 then false
    else
      OccursStep(Url, s);
      MatchLength(Url, s) > 0 || ContainsUrl(s[1..])
  }

  /** Collapsing URLs to `[URL]` alters a text exactly when it contains one. */
  lemma UrlCollapseChangesIffContainsUrl(s: string)
    ensures Substitute(Url, "[URL]", s) != s <==> ContainsUrl(s)
  {
    SubstituteChangesIffOccurs(Url, "[URL]", s);
  }

  // ---------------------------------------------------------------------------
  // Whitespace normalisation
  // ---------------------------------------------------------------------------

  /** Every whitespace character is a plain space and no two are adjacent. */
  ghost predicate SingleSpaced(s: string) {
    && (forall i :: 0 <= i < |s| && IsSpace(s[i]) ==> s[i] == ' ')
    && (forall i :: 0 <= i < |s| - 1 ==> !(IsSpace(s[i]) && IsSpace(s[i + 1])))
  }

  /** The shape `normalize_whitespace` promises: single inner spaces only and
      no whitespace at either end. */
  ghost predicate IsNormalized(s: string) {
    SingleSpaced(s) && (|s| > 0 ==> !IsSpace(s[0]) && !IsSpace(s[|s| - 1]))
  }

  lemma {:induction false} CollapseIsSingleSpaced(s: string)
    ensures SingleSpaced(Substitute(WhitespaceRun, " ", s))
    ensures |s| > 0 && !IsSpace(s[0]) ==> Substitute(WhitespaceRun, " ", s)[0] == s[0]
    ensures |s| > 0 ==> |Substitute(WhitespaceRun, " ", s)| > 0
    decreases |s|
  {
    if |s| > 0 {
      var n := MatchLength(WhitespaceRun, s);
      if n > 0 {
        CollapseIsSingleSpaced(s[n..]);
      } else {
        CollapseIsSingleSpaced(s[1..]);
      }
    }
  }

  lemma SliceKeepsSingleSpaced(s: string, a: nat, b: nat)
    requires a <= b <= |s| && SingleSpaced(s)
    ensures SingleSpaced(s[a..b])
  {
    var t := s[a..b];
    forall i | 0 <= i < |t| - 1
      ensures !(IsSpace(t[i]) && IsSpace(t[i + 1]))
    {
      assert t[i] == s[a + i] && t[i + 1] == s[a + i + 1];
    }
  }

  lemma StripIsSlice(s: string)
    ensures exists a: nat, b: nat :: a <= b <= |s| && Strip(s) == s[a..b]
  {
    StripCharsSlice(s, Whitespace);
    var a := StripOffset(s, Whitespace);
    assert Strip(s) == s[a..a + |Strip(s)|];
  }

  /** `normalize_whitespace`: every run of whitespace becomes one space, then the
      ends are stripped. */
  function NormalizeWhitespace(s: string): (r: string)
    ensures IsNormalized(r)
  {
    var collapsed := Substitute(WhitespaceRun, " ", s);
    CollapseIsSingleSpaced(s);
    StripIsSlice(collapsed);
    var a: nat, b: nat :| a <= b <= |collapsed| && Strip(collapsed) == collapsed[a..b];
    SliceKeepsSingleSpaced(collapsed, a, b);
    Strip(collapsed)
  }

  lemma {:induction false} CollapseFixesSingleSpaced(s: string)
    requires SingleSpaced(s)
    ensures Substitute(WhitespaceRun, " ", s) == s
    decreases |s|
  {
    if |s| > 0 {
      SliceKeepsSingleSpaced(s, 1, |s|);
      CollapseFixesSingleSpaced(s[1..]);
      if IsSpace(s[0]) {
        assert |s| == 1 || !IsSpace(s[1]);
        assert MatchLength(WhitespaceRun, s) == 1;
        assert s == " " + s[1..];
      } else {
        assert s == [s[0]] + s[1..];
      }
    }
  }

  /** Normalising already-normalised text changes nothing. */
  lemma NormalizedIsFixpoint(s: string)
    requires IsNormalized(s)
    ensures NormalizeWhitespace(s) == s
  {
    CollapseFixesSingleSpaced(s);
    StripCharsNoop(s, Whitespace);
  }

  /** `normalize_whitespace` is idempotent. */
  lemma NormalizeWhitespaceIdempotent(s: string)
    ensures NormalizeWhitespace(NormalizeWhitespace(s)) == NormalizeWhitespace(s)
  {
    NormalizedIsFixpoint(NormalizeWhitespace(s));
  }

  /** The non-whitespace characters of `s`, in order. */
  function Visible(s: string): (r: string)
    ensures forall i :: 0 <= i < |r| ==> !IsSpace(r[i])
  {
    if |s| == 0 then ""
    else if IsSpace(s[0]) then Visible(s[1..])
    else [s[0]] + Visible(s[1..])
  }

  lemma {:induction false} VisibleConcat(a: string, b: string)
    ensures Visible(a + b) == Visible(a) + Visible(b)
    decreases |a|
  {
    if |a| > 0 {
      assert (a + b)[1..] == a[1..] + b;
      VisibleConcat(a[1..], b);
    } else {
      assert a + b == b;
    }
  }

  lemma {:induction false} VisibleOfSpaces(s: string)
    requires forall i :: 0 <= i < |s| ==> IsSpace(s[i])
    ensures Visible(s) == ""
    decreases |s|
  {
    if |s| > 0 {
      VisibleOfSpaces(s[1..]);
    }
  }

  lemma {:induction false} CollapseKeepsVisible(s: string)
    ensures Visible(Substitute(WhitespaceRun, " ", s)) == Visible(s)
    decreases |s|
  {
    if |s| > 0 {
      var n := MatchLength(WhitespaceRun, s);
      if n > 0 {
        CollapseKeepsVisible(s[n..]);
        VisibleConcat(" ", Substitute(WhitespaceRun, " ", s[n..]));
        assert s == s[..n] + s[n..];
        VisibleConcat(s[..n], s[n..]);
        VisibleOfSpaces(s[..n]);
      } else {
        CollapseKeepsVisible(s[1..]);
      }
    }
  }

  lemma TrimStartKeepsVisible(s: string)
    ensures Visible(TrimStart(s, Whitespace)) == Visible(s)
  {
    var t := TrimStart(s, Whitespace);
    var a := |s| - |t|;
    assert s == s[..a] + t;
    VisibleConcat(s[..a], t);
    VisibleOfSpaces(s[..a]);
  }

  lemma TrimEndKeepsVisible(t: string)
    ensures Visible(TrimEnd(t, Whitespace)) == Visible(t)
  {
    var r := TrimEnd(t, Whitespace);
    assert t == r + t[|r|..];
    VisibleConcat(r, t[|r|..]);
    VisibleOfSpaces(t[|r|..]);
  }

  lemma StripKeepsVisible(s: string)
    ensures Visible(Strip(s)) == Visible(s)
  {
    TrimStartKeepsVisible(s);
    TrimEndKeepsVisible(TrimStart(s, Whitespace));
  }

  /** Normalisation only rewrites whitespace: the other characters survive, in
      order. */
  lemma NormalizeKeepsVisible(s: string)
    ensures Visible(NormalizeWhitespace(s)) == Visible(s)
  {
    CollapseKeepsVisible(s);
    StripKeepsVisible(Substitute(WhitespaceRun, " ", s));
  }

  // ---------------------------------------------------------------------------
  // clean_discord_content
  // ---------------------------------------------------------------------------

  /** `clean_discord_content`: placeholders for user mentions (with or without
      '!'), role mentions, channel references and custom emoji, in that order;
      then URLs become `[URL]`; then whitespace is normalised. */
  function CleanDiscordContent(content: string): (r: string)
    ensures content == "" ==> r == ""
    ensures IsNormalized(r)
  {
    if content == "" then ""
    else
      var users := Substitute(UserMention, "[USER]", content);
      var roles := Substitute(RoleMention, "[ROLE]", users);
      var channels := Substitute(ChannelMention, "[CHANNEL]", roles);
      var emoji := Substitute(CustomEmoji, "[EMOJI]", channels);
      var urls := Substitute(Url, "[URL]", emoji);
      NormalizeWhitespace(urls)
  }

  lemma {:induction false} SubstituteUnchangedWithoutOccurrence(p: Pattern, rep: string, s: string)
    requires !Occurs(p, s)
    ensures Substitute(p, rep, s) == s
    decreases |s|
  {
    if |s| > 0 {
      OccursStep(p, s);
      SubstituteSkipsNonMatch(p, rep, s);
      SubstituteUnchangedWithoutOccurrence(p, rep, s[1..]);
    }
  }

  /** Text without any token or URL is only whitespace-normalised. */
  lemma CleanPlainText(content: string)
    requires !Occurs(UserMention, content) && !Occurs(RoleMention, content)
    requires !Occurs(ChannelMention, content) && !Occurs(CustomEmoji, content)
    requires !Occurs(Url, content)
    ensures CleanDiscordContent(content) == NormalizeWhitespace(content)
  {
    SubstituteUnchangedWithoutOccurrence(UserMention, "[USER]", content);
    SubstituteUnchangedWithoutOccurrence(RoleMention, "[ROLE]", content);
    SubstituteUnchangedWithoutOccurrence(ChannelMention, "[CHANNEL]", content);
    SubstituteUnchangedWithoutOccurrence(CustomEmoji, "[EMOJI]", content);
    SubstituteUnchangedWithoutOccurrence(Url, "[URL]", content);
  }

  // ---------------------------------------------------------------------------
  // is_valid_message_content
  // ---------------------------------------------------------------------------

  /** `len(re.sub(r'[^\w\s]', '', s))`: how many characters are word characters
      or whitespace. */
  function WordOrSpaceCount(s: string): (n: nat)
    ensures n <= |s|
  {
    if |s| == 0 then 0
    else (if IsWordChar(s[0]) || IsSpace(s[0]) then 1 else 0) + WordOrSpaceCount(s[1..])
  }

  const CommandPrefixes: set<char> := {'!', '/', '.', '?', '$', '+', '-', '>', '<'}

  /** `count < len * 0.3` over integers: `len * 0.3` as a double is never above
      the exact `3 * len / 10`, and never below the integer under it. */
  predicate MostlySpecial(s: string) {
    10 * WordOrSpaceCount(s) < 3 * |s|
  }

  /** `is_valid_message_content`. */
  function IsValidMessageContent(content: string): (ok: bool)
    ensures ok <==>
      && |Strip(content)| >= 3
      && !MostlySpecial(content)
      && Strip(content)[0] !in CommandPrefixes
  {
    if content == "" || |Strip(content)| == 0 then false
    else if |Strip(content)| < 3 then false
    else if 10 * WordOrSpaceCount(content) < 3 * |content| then false
    else if Strip(content)[0] in CommandPrefixes then false
    else true
  }

  // ---------------------------------------------------------------------------
  // extract_conversation_context
  // ---------------------------------------------------------------------------

  /** A message dictionary as far as context extraction looks at it: the
      optional `message_id` entry and the rest of the dictionary. */
  datatype ContextMessage = ContextMessage(messageId: Option<string>, content: string)

  /** The first index whose message carries `target` as its id. */
  function FirstWithId(messages: seq<ContextMessage>, target: string): (t: Option<nat>)
    ensures t.None? <==> forall i :: 0 <= i < |messages| ==> messages[i].messageId != Some(target)
    ensures t.Some? ==> t.value < |messages| && messages[t.value].messageId == Some(target)
    ensures t.Some? ==> forall i :: 0 <= i < t.value ==> messages[i].messageId != Some(target)
  {
    if |messages| == 0 then None
    else if messages[0].messageId == Some(target) then Some(0)
    else
      match FirstWithId(messages[1..], target)
      case None => None
      case Some(t) => Some(t + 1)
  }

  function Max(a: int, b: int): int { if a >= b then a else b }
  function Min(a: int, b: int): int { if a <= b then a else b }

  /** Where a slice bound `b` lands in a sequence of length `n`: a negative
      bound counts from the end, and the result is clamped to `0 .. n`. */
  function SliceBound(n: nat, b: int): (i: nat)
    ensures i <= n
    ensures 0 <= b <= n ==> i == b
    ensures b < 0 && n + b >= 0 ==> i == n + b
  {
    if b < 0 then (if n + b < 0 then 0 else n + b) else Min(b, n)
  }

  /** Python's `xs[start:end]` for any integers: the items from the start
      bound up to, but not including, the end bound. */
  function PySlice<T>(xs: seq<T>, start: int, end: int): (r: seq<T>)
    ensures |r| == Max(0, SliceBound(|xs|, end) - SliceBound(|xs|, start))
    ensures forall i :: 0 <= i < |r| ==> r[i] == xs[SliceBound(|xs|, start) + i]
  {
    var s, e := SliceBound(|xs|, start), SliceBound(|xs|, end);
    if s < e then xs[s..e] else []
  }

  /** The context `extract_conversation_context` returns around index `t`. */
  function ContextAround<T>(xs: seq<T>, t: nat, k: int): seq<T> {
    PySlice(xs, Max(0, t - k), Min(|xs|, t + k + 1))
  }

  /** `extract_conversation_context`: the messages within `contextSize` of
      the first message with the target id. */
  method ExtractConversationContext(messages: seq<ContextMessage>, target: string, contextSize: int)
    returns (r: seq<ContextMessage>)
    ensures FirstWithId(messages, target).None? ==> r == []
    ensures FirstWithId(messages, target).Some? ==>
      r == ContextAround(messages, FirstWithId(messages, target).value, contextSize)
  {
    var i := 0;
    while i < |messages| && messages[i].messageId != Some(target)
      invariant 0 <= i <= |messages|
      invariant forall j :: 0 <= j < i ==> messages[j].messageId != Some(target)
    {
      i := i + 1;
    }
    if i == |messages| {
      r := [];
    } else {
      r := PySlice(messages, Max(0, i - contextSize), Min(|messages|, i + contextSize + 1));
    }
    FirstWithIdIsFirstHit(messages, target, i);
  }

  /** With a non-negative size the context holds the target and at most
      `2 * k + 1` messages, all within `k` of it. */
  lemma ContextAroundHoldsTarget<T>(xs: seq<T>, t: nat, k: int)
    requires t < |xs| && k >= 0
    ensures xs[t] in ContextAround(xs, t, k)
    ensures |ContextAround(xs, t, k)| <= 2 * k + 1
    ensures forall i :: 0 <= i < |ContextAround(xs, t, k)| ==>
      ContextAround(xs, t, k)[i] == xs[Max(0, t - k) + i] && t - k <= Max(0, t - k) + i <= t + k
  {
    var w := ContextAround(xs, t, k);
    assert w[t - Max(0, t - k)] == xs[t];
  }

  /** With a negative size the context never holds the target. It starts
      `-k` places after it, and an end bound below zero counts from the end
      of the list, so the slice can still be long. */
  lemma ContextAroundNegativeSize<T>(xs: seq<T>, t: nat, k: int)
    requires t < |xs| && k < 0
    ensures t + k + 1 >= 0 ==> ContextAround(xs, t, k) == []
    ensures t + k + 1 < 0 ==> |ContextAround(xs, t, k)| == Max(0, |xs| + 2 * k + 1)
    ensures forall i :: 0 <= i < |ContextAround(xs, t, k)| ==>
      t - k + i < |xs| && ContextAround(xs, t, k)[i] == xs[t - k + i]
  {
  }

  /** Ten messages, the target first, size -2: Python's `messages[2:-1]`,
      seven messages. */
  lemma NegativeSizeCountsFromEnd<T>(xs: seq<T>)
    requires |xs| == 10
    ensures ContextAround(xs, 0, -2) == xs[2..9]
    ensures |ContextAround(xs, 0, -2)| == 7
  {
    assert SliceBound(10, -1) == 9;
  }

  /** A scan that stopped at `i` found the first message with the id. */
  lemma FirstWithIdIsFirstHit(messages: seq<ContextMessage>, target: string, i: nat)
    requires i <= |messages|
    requires forall j :: 0 <= j < i ==> messages[j].messageId != Some(target)
    requires i < |messages| ==> messages[i].messageId == Some(target)
    ensures i == |messages| ==> FirstWithId(messages, target).None?
    ensures i < |messages| ==> FirstWithId(messages, target) == Some(i)
  {
  }

  // ---------------------------------------------------------------------------
  // truncate_content
  // ---------------------------------------------------------------------------

  /** Python's `s[:k]` for any integer `k`; a negative `k` counts from the end. */
  function PrefixSlice(s: string, k: int): (r: string)
    ensures |r| <= |s| && r == s[..|r|]
    ensures 0 <= k <= |s| ==> |r| == k
    ensures k < 0 ==> |r| == Max(0, |s| + k)
  {
    if k >= 0 then s[..Min(k, |s|)] else s[..Max(0, |s| + k)]
  }

  /** `s[:k]` is the general slice from the start. */
  lemma PrefixSliceIsPySlice(s: string, k: int)
    ensures PrefixSlice(s, k) == PySlice(s, 0, k)
  {
  }

  /** `s.rfind('. ')`: the index of the last ". " in `s`, or -1. */
  function RFindSentenceEnd(s: string): (i: int)
    ensures -1 <= i < |s| - 1 || i == -1
    ensures i >= 0 ==> s[i] == '.' && s[i + 1] == ' '
    ensures forall j :: i < j < |s| - 1 ==> !(s[j] == '.' && s[j + 1] == ' ')
  {
    if |s| < 2 then -1
    else if s[|s| - 2] == '.' && s[|s| - 1] == ' ' then |s| - 2
    else RFindSentenceEnd(s[..|s| - 1])
  }

  /** `truncate_content`. `last_sentence > max_length * 0.7` is compared as
      `10 * last_sentence > 7 * max_length`. */
  function TruncateContent(content: string, maxLength: int): (r: string)
    ensures |content| <= maxLength ==> r == content
    ensures |content| > maxLength >= 3 ==> |r| <= maxLength
    ensures |content| > maxLength >= 3 ==>
      var last := RFindSentenceEnd(content[..maxLength]);
      if 10 * last > 7 * maxLength then
        r == content[..last + 1] && r[last] == '.' && content[last + 1] == ' '
      else
        r == content[..maxLength - 3] + "..."
  {
    if |content| <= maxLength then content
    else
      var truncated := PrefixSlice(content, maxLength);
      var last := RFindSentenceEnd(truncated);
      if 10 * last > 7 * maxLength then PrefixSlice(truncated, last + 1)
      else PrefixSlice(truncated, maxLength - 3) + "..."
  }

  // ---------------------------------------------------------------------------
  // extract_mentions
  // ---------------------------------------------------------------------------

  datatype Mentions = Mentions(users: seq<string>, roles: seq<string>, channels: seq<string>)

  /** `extract_mentions`: the ids of user, role and channel mentions, each list
      in order of appearance; every id is a non-empty digit string. */
  function ExtractMentions(content: string): (m: Mentions)
    ensures forall k :: 0 <= k < |m.users| ==> |m.users[k]| > 0 && AllDigits(m.users[k])
    ensures forall k :: 0 <= k < |m.roles| ==> |m.roles[k]| > 0 && AllDigits(m.roles[k])
    ensures forall k :: 0 <= k < |m.channels| ==> |m.channels[k]| > 0 && AllDigits(m.channels[k])
  {
    Mentions(FindIds(UserMention, content), FindIds(RoleMention, content), FindIds(ChannelMention, content))
  }

  /** No position opens both a user mention and a role mention. */
  lemma UserAndRoleMentionsDisjoint(s: string)
    ensures !(MatchLength(UserMention, s) > 0 && MatchLength(RoleMention, s) > 0)
  {
  }

  lemma DigitsRunBeforeClose(d: string, rest: string)
    requires |d| > 0 && AllDigits(d)
    ensures Run(Digits, d + ">" + rest) == |d|
    decreases |d|
  {
    if |d| > 1 {
      assert (d + ">" + rest)[1..] == d[1..] + ">" + rest;
      DigitsRunBeforeClose(d[1..], rest);
    } else {
      assert (d + ">" + rest)[1..] == ">" + rest;
    }
  }

  /** A lone role mention is reported as a role and never as a user. */
  lemma RoleMentionIsNotAUser(d: string)
    requires |d| > 0 && AllDigits(d)
    ensures ExtractMentions("<@&" + d + ">") == Mentions([], [d], [])
  {
    var s := "<@&" + d + ">";
    DigitsRunBeforeClose(d, "");
    assert s[3..] == d + ">" + "";
    assert MatchRole(s) == |s|;
    assert s[|s|..] == "";
    assert s[3..|s| - 1] == d;
    assert FindIds(RoleMention, s) == [d] + FindIds(RoleMention, s[|s|..]);
    assert Run(Digits, s[2..]) == 0;
    assert MatchUser(s) == 0;
    assert MatchChannel(s) == 0;
    assert FindIds(UserMention, s) == FindIds(UserMention, s[1..]);
    assert FindIds(ChannelMention, s) == FindIds(ChannelMention, s[1..]);
    NoIdsWithoutOpening(UserMention, s[1..]);
    NoIdsWithoutOpening(ChannelMention, s[1..]);
  }

  /** The user pattern reads the digits of a lone user mention. */
  lemma LoneUserMentionIds(open: string, d: string)
    requires open == "<@!" || open == "<@"
    requires |d| > 0 && AllDigits(d)
    ensures FindIds(UserMention, open + d + ">") == [d]
  {
    var s := open + d + ">";
    DigitsRunBeforeClose(d, "");
    assert s[0] == '<' && s[1] == '@';
    assert s[2] == (if open == "<@!" then '!' else d[0]);
    assert GroupStart(UserMention, s) == |open|;
    assert s[|open|..] == d + ">" + "";
    assert MatchUser(s) == |s|;
    assert s[|s|..] == "";
    assert s[|open|..|s| - 1] == d;
    assert FindIds(UserMention, s) == [d] + FindIds(UserMention, s[|s|..]);
  }

  /** A text opening with "<@" but not "<@&", with no other '<', holds no
      role or channel mention. */
  lemma NoRoleOrChannelAfterUserOpening(s: string)
    requires |s| >= 3 && s[0] == '<' && s[1] == '@' && s[2] != '&'
    requires forall i :: 1 <= i < |s| ==> s[i] != '<'
    ensures FindIds(RoleMention, s) == [] && FindIds(ChannelMention, s) == []
  {
    assert s[..3][2] == s[2];
    assert s[..2][1] == s[1];
    assert MatchRole(s) == 0;
    assert MatchChannel(s) == 0;
    assert FindIds(RoleMention, s) == FindIds(RoleMention, s[1..]);
    assert FindIds(ChannelMention, s) == FindIds(ChannelMention, s[1..]);
    forall i | 0 <= i < |s| - 1
      ensures s[1..][i] != '<'
    {
      assert s[1..][i] == s[i + 1];
    }
    NoIdsWithoutOpening(RoleMention, s[1..]);
    NoIdsWithoutOpening(ChannelMention, s[1..]);
  }

  /** A lone user mention, with or without '!', is reported as that user. */
  lemma UserMentionIsAUser(d: string, bang: bool)
    requires |d| > 0 && AllDigits(d)
    ensures var s := (if bang then "<@!" else "<@") + d + ">";
      ExtractMentions(s) == Mentions([d], [], [])
  {
    var open := if bang then "<@!" else "<@";
    var s := open + d + ">";
    LoneUserMentionIds(open, d);
    forall i | 1 <= i < |s|
      ensures s[i] != '<'
    {
      if i < |open| {
        assert s[i] == open[i];
      } else if i < |open| + |d| {
        assert s[i] == d[i - |open|];
      } else {
        assert s[i] == '>';
      }
    }
    assert s[2] == if bang then '!' else d[0];
    NoRoleOrChannelAfterUserOpening(s);
  }

  /** Without a '<' there is nothing to find. */
  lemma {:induction false} NoIdsWithoutOpening(p: Pattern, s: string)
    requires p == UserMention || p == RoleMention || p == ChannelMention
    requires forall i :: 0 <= i < |s| ==> s[i] != '<'
    ensures FindIds(p, s) == []
    decreases |s|
  {
    if |s| > 0 {
      assert s[0] != '<';
      assert MatchLength(p, s) == 0;
      assert FindIds(p, s) == FindIds(p, s[1..]);
      forall i | 0 <= i < |s| - 1
        ensures s[1..][i] != '<'
      {
        assert s[1..][i] == s[i + 1];
      }
      NoIdsWithoutOpening(p, s[1..]);
    }
  }
}
