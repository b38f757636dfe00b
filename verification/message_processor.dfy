/** The analysis pipeline of `MessageProcessor` as pure transitions over three
    pieces of state: the `echo_profiles` rows keyed by (user, server), the
    `user_messages` rows, and the dictionary of running analysis tasks keyed
    by "{user}_{server}". Discord is reduced to the guild, its members and the
    history each text channel yields before the cutoff. */
module MessageProcessor {
  import opened Chars
  import opened Strings
  import opened Wrappers
  import TextProcessor
  import opened Validation
  import opened DateParser
  import TaskRegistry

  // ---------------------------------------------------------------------------
  // Profiles and the status machine
  // ---------------------------------------------------------------------------

  datatype ProfileKey = ProfileKey(user: nat, server: nat)

  datatype Status = InProgress | AnalysisCompleted | Failed

  /** The `training_status` column's text. */
  function StatusName(s: Status): string {
    match s
    case InProgress => "in_progress"
    case AnalysisCompleted => "analysis_completed"
    case Failed => "failed"
  }

  /** An `echo_profiles` row. Columns the writing statement did not list are
      NULL (`None`). */
  datatype Profile = Profile(
    cutoffDate: Date,
    status: Status,
    requesterId: nat,
    startedAt: Option<DateTime>,
    lastUpdated: DateTime,
    progress: Option<int>,
    errorMessage: Option<string>,
    completedAt: Option<DateTime>,
    modelPath: Option<string>,
    totalMessages: Option<int>,
    processedMessages: Option<int>)

  type Profiles = map<ProfileKey, Profile>

  /** `INSERT OR REPLACE` of a fresh 'in_progress' row: the cutoff is stored as
      a date, and every column the statement does not list starts over. */
  function UpsertProfile(profiles: Profiles, k: ProfileKey, cutoff: DateTime, requester: nat, now: DateTime): (r: Profiles)
    ensures r.Keys == profiles.Keys + {k}
    ensures forall k' :: k' in profiles && k' != k ==> r[k'] == profiles[k']
    ensures r[k].status == InProgress && r[k].cutoffDate == cutoff.date && r[k].requesterId == requester
    ensures r[k].startedAt == Some(now) && r[k].lastUpdated == now
    ensures r[k].progress.None? && r[k].errorMessage.None? && r[k].completedAt.None?
    ensures r[k].modelPath.None? && r[k].totalMessages.None? && r[k].processedMessages.None?
  {
    profiles[k := Profile(cutoff.date, InProgress, requester, Some(now), now, None, None, None, None, None, None)]
  }

  /** The columns `_update_analysis_progress` may write are progress,
      last_updated and error_message; all others agree. */
  predicate SameExceptProgress(a: Profile, b: Profile) {
    a.(progress := b.progress, lastUpdated := b.lastUpdated, errorMessage := b.errorMessage) == b
  }

  /** `_update_analysis_progress`: an UPDATE, so nothing happens without a
      row. A non-empty step text is written into error_message. */
  function UpdateProgress(profiles: Profiles, k: ProfileKey, progress: int, statusMessage: string, now: DateTime): (r: Profiles)
    ensures r.Keys == profiles.Keys
    ensures forall k' :: k' in profiles && k' != k ==> r[k'] == profiles[k']
    ensures k in profiles ==> SameExceptProgress(profiles[k], r[k])
    ensures k in profiles ==> r[k].progress == Some(progress) && r[k].lastUpdated == now
    ensures k in profiles && statusMessage != "" ==> r[k].errorMessage == Some(statusMessage)
    ensures k in profiles && statusMessage == "" ==> r[k].errorMessage == profiles[k].errorMessage
  {
    if k !in profiles then profiles
    else
      var p := profiles[k];
      var message := if statusMessage != "" then Some(statusMessage) else p.errorMessage;
      profiles[k := p.(progress := Some(progress), lastUpdated := now, errorMessage := message)]
  }

  /** The columns `_mark_analysis_failed` writes: status, error_message and
      last_updated. */
  predicate SameExceptFailure(a: Profile, b: Profile) {
    a.(status := b.status, errorMessage := b.errorMessage, lastUpdated := b.lastUpdated) == b
  }

  /** `_mark_analysis_failed`. */
  function MarkFailed(profiles: Profiles, k: ProfileKey, error: string, now: DateTime): (r: Profiles)
    ensures r.Keys == profiles.Keys
    ensures forall k' :: k' in profiles && k' != k ==> r[k'] == profiles[k']
    ensures k in profiles ==> SameExceptFailure(profiles[k], r[k])
    ensures k in profiles ==> r[k].status == Failed && r[k].errorMessage == Some(error) && r[k].lastUpdated == now
  {
    if k !in profiles then profiles
    else profiles[k := profiles[k].(status := Failed, errorMessage := Some(error), lastUpdated := now)]
  }

  /** How the personality-engine callback behaved, if one was set. */
  datatype CallbackOutcome = NoCallback | CallbackSucceeded | CallbackRaised(error: string)

  /** `_mark_analysis_complete`: the completion UPDATE, then the training
      callback, whose exception turns the row to 'failed'. */
  function MarkAnalysisComplete(profiles: Profiles, k: ProfileKey, datasetPath: string, count: int,
                                now: DateTime, callback: CallbackOutcome): (r: Profiles)
    ensures r.Keys == profiles.Keys
    ensures forall k' :: k' in profiles && k' != k ==> r[k'] == profiles[k']
    ensures k in profiles ==>
      && r[k].progress == Some(100) && r[k].completedAt == Some(now) && r[k].modelPath == Some(datasetPath)
      && r[k].totalMessages == Some(count) && r[k].processedMessages == Some(count)
      && r[k].lastUpdated == now
      && r[k].cutoffDate == profiles[k].cutoffDate && r[k].requesterId == profiles[k].requesterId
      && r[k].startedAt == profiles[k].startedAt
    ensures k in profiles && !callback.CallbackRaised? ==>
      r[k].status == AnalysisCompleted && r[k].errorMessage.None?
    ensures k in profiles && callback.CallbackRaised? ==>
      r[k].status == Failed && r[k].errorMessage == Some("Model training failed: " + callback.error)
  {
    if k !in profiles then profiles
    else
      var done := profiles[k := profiles[k].(
        status := AnalysisCompleted, progress := Some(100), completedAt := Some(now),
        modelPath := Some(datasetPath), totalMessages := Some(count), processedMessages := Some(count),
        lastUpdated := now, errorMessage := None)];
      match callback
      case CallbackRaised(e) => MarkFailed(done, k, "Model training failed: " + e, now)
      case _ => done
  }

  /** `is_analysis_in_progress`. */
  function IsAnalysisInProgress(profiles: Profiles, k: ProfileKey): (ok: bool)
    ensures ok <==> k in profiles && profiles[k].status == InProgress
  {
    k in profiles && StatusName(profiles[k].status) == "in_progress"
  }

  /** The dictionary `get_analysis_status` returns. */
  datatype StatusReport = StatusReport(
    status: string,
    progress: int,
    totalMessages: int,
    processedMessages: int,
    startedAt: Option<DateTime>,
    completedAt: Option<DateTime>,
    errorMessage: Option<string>)

  /** `value or 0` on a nullable integer column. */
  function OrZero(v: Option<int>): int {
    match v
    case Some(x) => x
    case None => 0
  }

  const NotStarted := StatusReport("not_started", 0, 0, 0, None, None, None)

  /** `get_analysis_status`. */
  function GetAnalysisStatus(profiles: Profiles, k: ProfileKey): (r: StatusReport)
    ensures k !in profiles ==> r == NotStarted
    ensures k in profiles ==>
      && r.status == StatusName(profiles[k].status)
      && r.progress == OrZero(profiles[k].progress)
      && r.totalMessages == OrZero(profiles[k].totalMessages)
      && r.processedMessages == OrZero(profiles[k].processedMessages)
      && r.startedAt == profiles[k].startedAt && r.completedAt == profiles[k].completedAt
      && r.errorMessage == profiles[k].errorMessage
  {
    if k !in profiles then NotStarted
    else
      var p := profiles[k];
      StatusReport(StatusName(p.status), OrZero(p.progress), OrZero(p.totalMessages),
        OrZero(p.processedMessages), p.startedAt, p.completedAt, p.errorMessage)
  }

  /** The two readers agree: the status report says "in_progress" exactly when
      `is_analysis_in_progress` holds, and "not_started" exactly when there is
      no row. */
  lemma StatusReadersAgree(profiles: Profiles, k: ProfileKey)
    ensures IsAnalysisInProgress(profiles, k) <==> GetAnalysisStatus(profiles, k).status == "in_progress"
    ensures k !in profiles <==> GetAnalysisStatus(profiles, k).status == "not_started"
  {
    if k in profiles {
      var s := StatusName(profiles[k].status);
      assert s[0] == 'i' || s[0] == 'a' || s[0] == 'f';
      assert s == "in_progress" <==> profiles[k].status == InProgress;
    }
  }

  // ---------------------------------------------------------------------------
  // Collection
  // ---------------------------------------------------------------------------

  /** A Discord message as `_get_user_messages_from_channel` reads it. */
  datatype DiscordMessage = DiscordMessage(
    id: nat, authorId: nat, authorIsBot: bool, channelId: nat, content: string, createdAt: int)

  /** A text channel: the bot's permissions there and what
      `channel.history(before=cutoff)` yields, newest first. */
  datatype TextChannel = TextChannel(botPermissions: ChannelPermissions, history: seq<DiscordMessage>)

  datatype Guild = Guild(memberIds: set<nat>, textChannels: seq<TextChannel>)

  /** A `user_messages` row (and the dictionary collection builds for it). */
  datatype MessageRecord = MessageRecord(
    messageId: string, userId: string, serverId: string, channelId: string,
    content: string, timestamp: int, isProcessed: bool)

  /** The per-message filter: by the target, not by a bot, non-empty, and
      accepted by `is_valid_message_content`. */
  predicate Wanted(m: DiscordMessage, user: nat) {
    m.authorId == user && !m.authorIsBot && m.content != "" && TextProcessor.IsValidMessageContent(m.content)
  }

  /** The yielded dictionary. The message's guild is the guild being scanned,
      so its id is `server`. */
  function ToRecord(m: DiscordMessage, server: nat): MessageRecord {
    MessageRecord(NatToString(m.id), NatToString(m.authorId), NatToString(server),
      NatToString(m.channelId), m.content, m.createdAt, false)
  }

  /** What every collected record satisfies. */
  predicate Collectible(r: MessageRecord, user: nat, server: nat) {
    && r.userId == NatToString(user) && r.serverId == NatToString(server)
    && !r.isProcessed && TextProcessor.IsValidMessageContent(r.content)
  }

  /** The record a message contributes, if it is wanted. */
  function PickWanted(user: nat, server: nat, m: DiscordMessage): Option<MessageRecord> {
    if Wanted(m, user) then Some(ToRecord(m, server)) else None
  }

  /** `_get_user_messages_from_channel`: the wanted messages, in history
      order. */
  function ChannelYield(history: seq<DiscordMessage>, user: nat, server: nat): (r: seq<MessageRecord>)
    ensures |r| <= |history|
  {
    FilterMap(history, m => PickWanted(user, server, m))
  }

  /** Every yielded record is collectible. */
  lemma ChannelYieldCollectible(history: seq<DiscordMessage>, user: nat, server: nat, j: nat)
    requires j < |ChannelYield(history, user, server)|
    ensures Collectible(ChannelYield(history, user, server)[j], user, server)
  {
    FilterMapDrawsFromInput(history, m => PickWanted(user, server, m), j);
  }

  /** The channel filter distributes over a split of the history. */
  lemma ChannelYieldConcat(a: seq<DiscordMessage>, b: seq<DiscordMessage>, user: nat, server: nat)
    ensures ChannelYield(a + b, user, server) == ChannelYield(a, user, server) + ChannelYield(b, user, server)
  {
    FilterMapConcat(a, b, m => PickWanted(user, server, m));
  }

  /** Every wanted message of the history is yielded. */
  lemma WantedIsYielded(history: seq<DiscordMessage>, user: nat, server: nat, i: nat)
    requires i < |history| && Wanted(history[i], user)
    ensures ToRecord(history[i], server) in ChannelYield(history, user, server)
  {
    FilterMapKeeps(history, m => PickWanted(user, server, m), i);
  }

  /** The limit checked after each append. */
  const CollectionCap := 10000

  /** The inner loop: append, then stop once the list holds at least
      `CollectionCap` messages. A list already at the cap still takes one
      more message before the check fires. */
  function AppendUntilCap(acc: seq<MessageRecord>, ys: seq<MessageRecord>): (r: seq<MessageRecord>)
    ensures |acc| <= |r| <= |acc| + |ys|
    ensures r == acc + ys[..|r| - |acc|]
    ensures |acc| < CollectionCap ==> |r| == TextProcessor.Min(|acc| + |ys|, CollectionCap)
    ensures |acc| >= CollectionCap ==> |r| == |acc| + TextProcessor.Min(|ys|, 1)
    decreases |ys|
  {
    if |ys| == 0 then acc
    else
      var next := acc + [ys[0]];
      if |next| >= CollectionCap then
        assert next == acc + ys[..1];
        next
      else
        var r := AppendUntilCap(next, ys[1..]);
        assert r == acc + ys[..|r| - |acc|] by {
          assert r == next + ys[1..][..|r| - |next|];
          assert ys[..|r| - |acc|] == [ys[0]] + ys[1..][..|r| - |next|];
        }
        r
  }

  predicate Permitted(ch: TextChannel) {
    ValidateChannelPermissions(ch.botPermissions).Valid?
  }

  /** What a channel contributes to the inner loop: its wanted messages, or
      nothing when a permission is missing and the channel is skipped. */
  function PermittedYield(ch: TextChannel, user: nat, server: nat): seq<MessageRecord> {
    if Permitted(ch) then ChannelYield(ch.history, user, server) else []
  }

  /** The contributions of the guild's text channels, in channel order. */
  function ChannelYields(channels: seq<TextChannel>, user: nat, server: nat): (ys: seq<seq<MessageRecord>>)
    ensures |ys| == |channels|
    ensures forall i :: 0 <= i < |channels| ==> ys[i] == PermittedYield(channels[i], user, server)
  {
    seq(|channels|, i requires 0 <= i < |channels| => PermittedYield(channels[i], user, server))
  }

  function Flatten<T>(ys: seq<seq<T>>): seq<T> {
    if |ys| == 0 then [] else ys[0] + Flatten(ys[1..])
  }

  /** Each item of a flattened sequence comes from one of the pieces. */
  lemma {:induction false} FlattenIndex<T>(ys: seq<seq<T>>, i: nat)
    requires i < |Flatten(ys)|
    ensures exists j, k :: 0 <= j < |ys| && 0 <= k < |ys[j]| && Flatten(ys)[i] == ys[j][k]
    decreases |ys|
  {
    if i < |ys[0]| {
      assert Flatten(ys)[i] == ys[0][i];
    } else {
      FlattenIndex(ys[1..], i - |ys[0]|);
      var j, k :| 0 <= j < |ys[1..]| && 0 <= k < |ys[1..][j]| && Flatten(ys[1..])[i - |ys[0]|] == ys[1..][j][k];
      assert Flatten(ys)[i] == ys[j + 1][k];
    }
  }

  /** The outer loop of `collect_user_messages` as written, over the
      channels' contributions: every channel is scanned, whatever the list's
      length already is. */
  function CollectFrom(ys: seq<seq<MessageRecord>>, acc: seq<MessageRecord>): (r: seq<MessageRecord>)
    ensures |acc| <= |r| && r[..|acc|] == acc
    decreases |ys|
  {
    if |ys| == 0 then acc
    else
      var next := AppendUntilCap(acc, ys[0]);
      var r := CollectFrom(ys[1..], next);
      assert next[..|acc|] == acc;
      assert r[..|acc|] == r[..|next|][..|acc|];
      r
  }

  /** The messages `collect_user_messages` gathers from a guild's channels. */
  function Collect(channels: seq<TextChannel>, user: nat, server: nat): seq<MessageRecord> {
    CollectFrom(ChannelYields(channels, user, server), [])
  }

  /** The wanted messages of all permitted channels, in channel order. */
  function AllYields(channels: seq<TextChannel>, user: nat, server: nat): seq<MessageRecord> {
    Flatten(ChannelYields(channels, user, server))
  }

  /** Each channel adds at most one message beyond the cap: the result never
      exceeds `max(|acc|, CollectionCap - 1)` plus the number of channels. */
  lemma {:induction false} CollectBound(ys: seq<seq<MessageRecord>>, acc: seq<MessageRecord>)
    ensures |CollectFrom(ys, acc)| <= TextProcessor.Max(|acc|, CollectionCap - 1) + |ys|
    decreases |ys|
  {
    if |ys| > 0 {
      var next := AppendUntilCap(acc, ys[0]);
      assert |next| <= TextProcessor.Max(|acc|, CollectionCap - 1) + 1;
      CollectBound(ys[1..], next);
    }
  }

  /** Below the cap nothing is lost: the result is every contribution, in
      order. */
  lemma {:induction false} CollectBelowCap(ys: seq<seq<MessageRecord>>, acc: seq<MessageRecord>)
    requires |acc| + |Flatten(ys)| < CollectionCap
    ensures CollectFrom(ys, acc) == acc + Flatten(ys)
    decreases |ys|
  {
    if |ys| > 0 {
      var next := AppendUntilCap(acc, ys[0]);
      assert next == acc + ys[0] by {
        assert ys[0][..|ys[0]|] == ys[0];
      }
      CollectBelowCap(ys[1..], next);
      assert acc + (ys[0] + Flatten(ys[1..])) == next + Flatten(ys[1..]);
    }
  }

  /** Everything collected was already there or comes from a contribution. */
  lemma {:induction false} CollectDrawsFromYields(ys: seq<seq<MessageRecord>>, acc: seq<MessageRecord>)
    ensures forall x :: x in CollectFrom(ys, acc) ==> x in acc || x in Flatten(ys)
    decreases |ys|
  {
    if |ys| > 0 {
      var next := AppendUntilCap(acc, ys[0]);
      CollectDrawsFromYields(ys[1..], next);
      forall x | x in next
        ensures x in acc || x in ys[0]
      {
        var k :| 0 <= k < |next| && next[k] == x;
        if k >= |acc| {
          assert x == ys[0][k - |acc|];
        }
      }
    }
  }

  /** The cap leaks: a permitted channel that fills the list followed by one
      more permitted channel with a wanted message gives 10,001 messages, and
      the size check that follows collection then rejects the run. */
  lemma CapLeaks(first: TextChannel, second: TextChannel, user: nat, server: nat)
    requires Permitted(first) && Permitted(second)
    requires |ChannelYield(first.history, user, server)| >= CollectionCap
    requires |ChannelYield(second.history, user, server)| >= 1
    ensures |Collect([first, second], user, server)| == CollectionCap + 1
    ensures ValidateTrainingDatasetSize(|Collect([first, second], user, server)|,
      DefaultMinMessages, DefaultMaxMessages).Invalid?
  {
    var ys := ChannelYields([first, second], user, server);
    var one := AppendUntilCap([], ys[0]);
    var two := AppendUntilCap(one, ys[1]);
    assert |one| == CollectionCap;
    assert |two| == CollectionCap + 1;
    assert ys[1..][1..] == [];
    assert CollectFrom(ys, []) == CollectFrom(ys[1..], one);
    assert CollectFrom(ys[1..], one) == CollectFrom(ys[1..][1..], two);
  }

  /** Cutting `a + y + rest` inside `y`. */
  lemma PrefixInMiddle<T>(a: seq<T>, y: seq<T>, rest: seq<T>, n: nat)
    requires |a| <= n <= |a| + |y|
    ensures (a + y + rest)[..n] == a + y[..n - |a|]
  {
  }

  /** The collection loop as evidently intended: once the list holds
      `CollectionCap` messages no further channel is scanned. */
  function CollectCappedFrom(ys: seq<seq<MessageRecord>>, acc: seq<MessageRecord>): (r: seq<MessageRecord>)
    requires |acc| <= CollectionCap
    ensures |r| == TextProcessor.Min(|acc + Flatten(ys)|, CollectionCap)
    ensures r == (acc + Flatten(ys))[..|r|]
    decreases |ys|
  {
    if |ys| == 0 then
      assert acc + [] == acc;
      acc
    else if |acc| == CollectionCap then
      assert (acc + Flatten(ys))[..|acc|] == acc;
      acc
    else
      var y, rest := ys[0], Flatten(ys[1..]);
      var next := AppendUntilCap(acc, y);
      assert acc + Flatten(ys) == acc + y + rest;
      if |next| == CollectionCap then
        PrefixInMiddle(acc, y, rest, CollectionCap);
        next
      else
        assert next == acc + y by {
          assert y[..|y|] == y;
        }
        assert acc + y + rest == next + rest;
        CollectCappedFrom(ys[1..], next)
  }

  /** Every record of the permitted channels' yields is collectible. */
  lemma AllYieldsCollectible(channels: seq<TextChannel>, user: nat, server: nat)
    ensures forall i :: 0 <= i < |AllYields(channels, user, server)| ==>
      Collectible(AllYields(channels, user, server)[i], user, server)
  {
    var ys := ChannelYields(channels, user, server);
    forall i | 0 <= i < |Flatten(ys)|
      ensures Collectible(Flatten(ys)[i], user, server)
    {
      FlattenIndex(ys, i);
      var j, k :| 0 <= j < |ys| && 0 <= k < |ys[j]| && Flatten(ys)[i] == ys[j][k];
      ChannelYieldCollectible(channels[j].history, user, server, k);
    }
  }

  /** Every collected record is collectible. */
  lemma CollectIsCollectible(channels: seq<TextChannel>, user: nat, server: nat)
    ensures forall i :: 0 <= i < |Collect(channels, user, server)| ==>
      Collectible(Collect(channels, user, server)[i], user, server)
  {
    var all := AllYields(channels, user, server);
    var r := Collect(channels, user, server);
    CollectDrawsFromYields(ChannelYields(channels, user, server), []);
    AllYieldsCollectible(channels, user, server);
    forall i | 0 <= i < |r|
      ensures Collectible(r[i], user, server)
    {
      assert r[i] in r;
      var j :| 0 <= j < |all| && all[j] == r[i];
    }
  }

  /** `collect_user_messages` as written. */
  function CollectUserMessages(guild: Option<Guild>, user: nat, server: nat): (r: Result<seq<MessageRecord>>)
    ensures guild.None? ==> r == Err("Guild " + NatToString(server) + " not found or bot not in guild")
    ensures guild.Some? && user !in guild.value.memberIds ==>
      r == Err("User " + NatToString(user) + " not found in guild")
    ensures guild.Some? && user in guild.value.memberIds ==>
      && r.Ok?
      && |r.value| <= CollectionCap - 1 + |guild.value.textChannels|
      && forall i :: 0 <= i < |r.value| ==> Collectible(r.value[i], user, server)
  {
    match guild
    case None => Err("Guild " + NatToString(server) + " not found or bot not in guild")
    case Some(g) =>
      if user !in g.memberIds then Err("User " + NatToString(user) + " not found in guild")
      else
        CollectBound(ChannelYields(g.textChannels, user, server), []);
        CollectIsCollectible(g.textChannels, user, server);
        Ok(Collect(g.textChannels, user, server))
  }

  /** `collect_user_messages` with the corrected cap: the first 10,000
      wanted messages in channel order. */
  function CollectUserMessagesCapped(guild: Option<Guild>, user: nat, server: nat): (r: Result<seq<MessageRecord>>)
    ensures guild.None? ==> r == Err("Guild " + NatToString(server) + " not found or bot not in guild")
    ensures guild.Some? && user !in guild.value.memberIds ==>
      r == Err("User " + NatToString(user) + " not found in guild")
    ensures guild.Some? && user in guild.value.memberIds ==>
      && r.Ok? && |r.value| <= CollectionCap && |r.value| <= |AllYields(guild.value.textChannels, user, server)|
      && r.value == AllYields(guild.value.textChannels, user, server)[..|r.value|]
  {
    match guild
    case None => Err("Guild " + NatToString(server) + " not found or bot not in guild")
    case Some(g) =>
      if user !in g.memberIds then Err("User " + NatToString(user) + " not found in guild")
      else
        var all := AllYields(g.textChannels, user, server);
        var r := CollectCappedFrom(ChannelYields(g.textChannels, user, server), []);
        assert [] + all == all;
        Ok(r)
  }

  // ---------------------------------------------------------------------------
  // Preprocessing
  // ---------------------------------------------------------------------------

  /** Length of the run of non-whitespace characters `t` starts with. */
  function WordLength(t: string): (n: nat)
    ensures n <= |t|
    ensures |t| > 0 && !IsSpace(t[0]) ==> n > 0
  {
    if |t| > 0 && !IsSpace(t[0]) then 1 + WordLength(t[1..]) else 0
  }

  /** `len(s.split())`: skip whitespace, count one word, skip it, repeat. */
  function WordCount(s: string): (n: nat)
    ensures n <= |s|
    ensures n == 0 <==> forall i :: 0 <= i < |s| ==> IsSpace(s[i])
    decreases |s|
  {
    var t := TrimStart(s, Whitespace);
    if |t| == 0 then 0
    else
      assert !IsSpace(t[0]) && s[|s| - |t|] == t[0];
      1 + WordCount(t[WordLength(t)..])
  }

  /** A preprocessed message: the record with cleaned content, and the
      `word_count` and `char_count` fields. */
  datatype ProcessedMessage = ProcessedMessage(record: MessageRecord, wordCount: nat, charCount: nat)

  /** What every preprocessed message satisfies: marked processed, counted,
      accepted for training and whitespace-normalised. */
  ghost predicate Clean(p: ProcessedMessage) {
    && p.record.isProcessed
    && p.charCount == |p.record.content|
    && ValidateMessageContentForTraining(p.record.content).Valid?
    && TextProcessor.IsNormalized(p.record.content)
  }

  /** One iteration of `preprocess_messages`: `None` is `continue`. */
  function ProcessOne(m: MessageRecord): (r: Option<ProcessedMessage>)
    ensures r.Some? ==> r.value.record == m.(content := r.value.record.content, isProcessed := true)
  {
    var cleaned := TextProcessor.CleanDiscordContent(m.content);
    if ValidateMessageContentForTraining(cleaned).Invalid? then None
    else
      var rec := m.(content := cleaned, isProcessed := true);
      Some(ProcessedMessage(rec, WordCount(cleaned), |cleaned|))
  }

  /** A message is kept exactly when its cleaned content passes the training
      validator; the kept message carries the cleaned content, its counts,
      and is clean. */
  lemma ProcessOneSpec(m: MessageRecord)
    ensures ProcessOne(m).Some? <==> ValidateMessageContentForTraining(TextProcessor.CleanDiscordContent(m.content)).Valid?
    ensures ProcessOne(m).Some? ==>
      && ProcessOne(m).value.record.content == TextProcessor.CleanDiscordContent(m.content)
      && ProcessOne(m).value.wordCount == WordCount(ProcessOne(m).value.record.content)
      && Clean(ProcessOne(m).value)
  {
  }

  /** Apply `f` to each item in order, keeping the `Some` results. */
  function FilterMap<A, B>(xs: seq<A>, f: A -> Option<B>): (r: seq<B>)
    ensures |r| <= |xs|
    decreases |xs|
  {
    if |xs| == 0 then []
    else
      var rest := FilterMap(xs[1..], f);
      match f(xs[0])
      case Some(y) => [y] + rest
      case None => rest
  }

  /** A filter-map distributes over concatenation: order is kept and each
      item is treated on its own. */
  lemma {:induction false} FilterMapConcat<A, B>(a: seq<A>, b: seq<A>, f: A -> Option<B>)
    ensures FilterMap(a + b, f) == FilterMap(a, f) + FilterMap(b, f)
    decreases |a|
  {
    if |a| == 0 {
      assert a + b == b;
    } else {
      assert (a + b)[0] == a[0];
      assert (a + b)[1..] == a[1..] + b;
      FilterMapConcat(a[1..], b, f);
    }
  }

  /** Every output item is `f` of some input item. */
  lemma {:induction false} FilterMapDrawsFromInput<A, B>(xs: seq<A>, f: A -> Option<B>, j: nat)
    requires j < |FilterMap(xs, f)|
    ensures exists i :: 0 <= i < |xs| && f(xs[i]) == Some(FilterMap(xs, f)[j])
    decreases |xs|
  {
    var o := f(xs[0]);
    if o.Some? && j == 0 {
      assert f(xs[0]) == Some(FilterMap(xs, f)[0]);
    } else {
      var j' := if o.Some? then j - 1 else j;
      assert FilterMap(xs, f)[j] == FilterMap(xs[1..], f)[j'];
      FilterMapDrawsFromInput(xs[1..], f, j');
      var i :| 0 <= i < |xs[1..]| && f(xs[1..][i]) == Some(FilterMap(xs[1..], f)[j']);
      assert xs[1..][i] == xs[i + 1];
    }
  }

  /** Every item `f` keeps appears in the output. */
  lemma {:induction false} FilterMapKeeps<A, B>(xs: seq<A>, f: A -> Option<B>, i: nat)
    requires i < |xs| && f(xs[i]).Some?
    ensures f(xs[i]).value in FilterMap(xs, f)
    decreases i
  {
    if i > 0 {
      assert xs[1..][i - 1] == xs[i];
      FilterMapKeeps(xs[1..], f, i - 1);
    }
  }

  /** `preprocess_messages`. */
  function Preprocess(ms: seq<MessageRecord>): (r: seq<ProcessedMessage>)
    ensures |r| <= |ms|
  {
    FilterMap(ms, ProcessOne)
  }

  /** Every output item is the processing of some input item. */
  lemma PreprocessDrawsFromInput(ms: seq<MessageRecord>, j: nat)
    requires j < |Preprocess(ms)|
    ensures exists i :: 0 <= i < |ms| && ProcessOne(ms[i]) == Some(Preprocess(ms)[j])
  {
    FilterMapDrawsFromInput(ms, ProcessOne, j);
  }

  /** The converse: every message that processing keeps is in the output. */
  lemma PreprocessKeepsEveryValid(ms: seq<MessageRecord>, i: nat)
    requires i < |ms| && ProcessOne(ms[i]).Some?
    ensures ProcessOne(ms[i]).value in Preprocess(ms)
  {
    FilterMapKeeps(ms, ProcessOne, i);
  }

  /** Preprocessing treats each message on its own and keeps the input
      order: a batch is processed as its two halves one after the other, and
      a single message yields its processing or nothing. */
  lemma PreprocessIsPerMessage(a: seq<MessageRecord>, b: seq<MessageRecord>, m: MessageRecord)
    ensures Preprocess(a + b) == Preprocess(a) + Preprocess(b)
    ensures Preprocess([m]) == (if ProcessOne(m).Some? then [ProcessOne(m).value] else [])
  {
    FilterMapConcat(a, b, ProcessOne);
  }

  /** Every output item is marked processed, counted, accepted for training
      and whitespace-normalised. */
  lemma PreprocessOutputIsClean(ms: seq<MessageRecord>, j: nat)
    requires j < |Preprocess(ms)|
    ensures Clean(Preprocess(ms)[j])
  {
    PreprocessDrawsFromInput(ms, j);
    var i :| 0 <= i < |ms| && ProcessOne(ms[i]) == Some(Preprocess(ms)[j]);
    ProcessOneSpec(ms[i]);
  }

  /** Processing one message keeps its key columns and marks it processed. */
  lemma ProcessOneKeepsKey(m: MessageRecord, user: nat, server: nat)
    requires KeyRow(m, user, server)
    ensures ProcessOne(m).Some? ==>
      ProcessOne(m).value.record.isProcessed && KeyRow(ProcessOne(m).value.record, user, server)
  {
  }

  /** A property every kept item's image has carries over to the output. */
  lemma FilterMapCarries<A, B>(xs: seq<A>, f: A -> Option<B>, q: B -> bool, j: nat)
    requires j < |FilterMap(xs, f)|
    requires forall i :: 0 <= i < |xs| && f(xs[i]).Some? ==> q(f(xs[i]).value)
    ensures q(FilterMap(xs, f)[j])
  {
    FilterMapDrawsFromInput(xs, f, j);
  }

  /** Preprocessing keeps each message's key columns and marks it
      processed. */
  lemma PreprocessKeepsKeys(ms: seq<MessageRecord>, user: nat, server: nat, j: nat)
    requires forall i :: 0 <= i < |ms| ==> KeyRow(ms[i], user, server)
    requires j < |Preprocess(ms)|
    ensures Preprocess(ms)[j].record.isProcessed && KeyRow(Preprocess(ms)[j].record, user, server)
  {
    var q := (p: ProcessedMessage) => p.record.isProcessed && KeyRow(p.record, user, server);
    forall i | 0 <= i < |ms| && ProcessOne(ms[i]).Some?
      ensures q(ProcessOne(ms[i]).value)
    {
      ProcessOneKeepsKey(ms[i], user, server);
    }
    FilterMapCarries(ms, ProcessOne, q, j);
  }

  function Records(ps: seq<ProcessedMessage>): (r: seq<MessageRecord>)
    ensures |r| == |ps| && forall i :: 0 <= i < |ps| ==> r[i] == ps[i].record
  {
    seq(|ps|, i requires 0 <= i < |ps| => ps[i].record)
  }

  // ---------------------------------------------------------------------------
  // Storage
  // ---------------------------------------------------------------------------

  predicate KeyRow(row: MessageRecord, user: nat, server: nat) {
    row.userId == NatToString(user) && row.serverId == NatToString(server)
  }

  /** `WHERE user_id = ? AND server_id = ?` */
  function RowsOf(table: seq<MessageRecord>, user: nat, server: nat): (r: seq<MessageRecord>)
    ensures |r| <= |table|
    ensures forall i :: 0 <= i < |r| ==> KeyRow(r[i], user, server)
  {
    if |table| == 0 then []
    else (if KeyRow(table[0], user, server) then [table[0]] else []) + RowsOf(table[1..], user, server)
  }

  /** What the `DELETE ... WHERE user_id = ? AND server_id = ?` leaves. */
  function OtherRows(table: seq<MessageRecord>, user: nat, server: nat): (r: seq<MessageRecord>)
    ensures |r| <= |table|
    ensures forall i :: 0 <= i < |r| ==> !KeyRow(r[i], user, server)
  {
    if |table| == 0 then []
    else (if KeyRow(table[0], user, server) then [] else [table[0]]) + OtherRows(table[1..], user, server)
  }

  /** `WHERE user_id = ? AND server_id = ? AND is_processed = 1` */
  function ProcessedRowsOf(table: seq<MessageRecord>, user: nat, server: nat): (r: seq<MessageRecord>)
    ensures |r| <= |table|
    ensures forall i :: 0 <= i < |r| ==> KeyRow(r[i], user, server) && r[i].isProcessed
  {
    if |table| == 0 then []
    else
      var head := if KeyRow(table[0], user, server) && table[0].isProcessed then [table[0]] else [];
      head + ProcessedRowsOf(table[1..], user, server)
  }

  /** The key query distributes over concatenation. */
  lemma {:induction false} RowsOfConcat(a: seq<MessageRecord>, b: seq<MessageRecord>, user: nat, server: nat)
    ensures RowsOf(a + b, user, server) == RowsOf(a, user, server) + RowsOf(b, user, server)
    decreases |a|
  {
    if |a| == 0 {
      assert a + b == b;
    } else {
      assert (a + b)[0] == a[0];
      assert (a + b)[1..] == a[1..] + b;
      RowsOfConcat(a[1..], b, user, server);
    }
  }

  /** The processed-rows query distributes over concatenation. */
  lemma {:induction false} ProcessedRowsOfConcat(a: seq<MessageRecord>, b: seq<MessageRecord>, user: nat, server: nat)
    ensures ProcessedRowsOf(a + b, user, server) == ProcessedRowsOf(a, user, server) + ProcessedRowsOf(b, user, server)
    decreases |a|
  {
    if |a| == 0 {
      assert a + b == b;
    } else {
      assert (a + b)[0] == a[0];
      assert (a + b)[1..] == a[1..] + b;
      ProcessedRowsOfConcat(a[1..], b, user, server);
    }
  }

  /** Rows of two different keys never coincide. */
  lemma KeyRowsDisjoint(row: MessageRecord, u1: nat, s1: nat, u2: nat, s2: nat)
    requires KeyRow(row, u1, s1) && KeyRow(row, u2, s2)
    ensures u1 == u2 && s1 == s2
  {
    NatToStringInjective(u1, u2);
    NatToStringInjective(s1, s2);
  }

  /** Deleting one key's rows leaves no row of that key and every row of
      any other key. */
  lemma {:induction false} OtherRowsOf(table: seq<MessageRecord>, user: nat, server: nat, u2: nat, s2: nat)
    ensures RowsOf(OtherRows(table, user, server), user, server) == []
    ensures ProcessedRowsOf(OtherRows(table, user, server), user, server) == []
    ensures (u2, s2) != (user, server) ==> RowsOf(OtherRows(table, user, server), u2, s2) == RowsOf(table, u2, s2)
    decreases |table|
  {
    if |table| > 0 {
      var head := if KeyRow(table[0], user, server) then [] else [table[0]];
      assert OtherRows(table, user, server) == head + OtherRows(table[1..], user, server);
      RowsOfConcat(head, OtherRows(table[1..], user, server), user, server);
      ProcessedRowsOfConcat(head, OtherRows(table[1..], user, server), user, server);
      RowsOfConcat(head, OtherRows(table[1..], user, server), u2, s2);
      OtherRowsOf(table[1..], user, server, u2, s2);
      if KeyRow(table[0], user, server) && KeyRow(table[0], u2, s2) {
        KeyRowsDisjoint(table[0], user, server, u2, s2);
      }
    }
  }

  /** `_store_messages`: delete the key's rows, then insert the batch. */
  function StoreMessages(table: seq<MessageRecord>, msgs: seq<MessageRecord>, user: nat, server: nat): (r: seq<MessageRecord>)
    ensures RowsOf(r, user, server) == RowsOf(msgs, user, server)
    ensures ProcessedRowsOf(r, user, server) == ProcessedRowsOf(msgs, user, server)
  {
    OtherRowsOf(table, user, server, user, server);
    RowsOfConcat(OtherRows(table, user, server), msgs, user, server);
    ProcessedRowsOfConcat(OtherRows(table, user, server), msgs, user, server);
    OtherRows(table, user, server) + msgs
  }

  /** Storing one key's batch leaves every other key's rows as they were,
      apart from rows of that key the batch itself carries. */
  lemma StoreLeavesOtherKeys(table: seq<MessageRecord>, msgs: seq<MessageRecord>, user: nat, server: nat, u2: nat, s2: nat)
    requires (u2, s2) != (user, server)
    ensures RowsOf(StoreMessages(table, msgs, user, server), u2, s2) == RowsOf(table, u2, s2) + RowsOf(msgs, u2, s2)
  {
    OtherRowsOf(table, user, server, u2, s2);
    RowsOfConcat(OtherRows(table, user, server), msgs, u2, s2);
  }

  /** A batch of unprocessed rows has no processed rows. */
  lemma {:induction false} UnprocessedHaveNoProcessedRows(msgs: seq<MessageRecord>, user: nat, server: nat)
    requires forall i :: 0 <= i < |msgs| ==> !msgs[i].isProcessed
    ensures ProcessedRowsOf(msgs, user, server) == []
    decreases |msgs|
  {
    if |msgs| > 0 {
      UnprocessedHaveNoProcessedRows(msgs[1..], user, server);
    }
  }

  /** A batch of processed rows of the key is its own processed rows. */
  lemma {:induction false} ProcessedKeyRowsAreFound(msgs: seq<MessageRecord>, user: nat, server: nat)
    requires forall i :: 0 <= i < |msgs| ==> msgs[i].isProcessed && KeyRow(msgs[i], user, server)
    ensures ProcessedRowsOf(msgs, user, server) == msgs
    decreases |msgs|
  {
    if |msgs| > 0 {
      ProcessedKeyRowsAreFound(msgs[1..], user, server);
      assert msgs == [msgs[0]] + msgs[1..];
    }
  }

  /** After a fresh store of unprocessed rows the `is_processed = 1` query
      for that key finds nothing. */
  lemma NoProcessedAfterStore(table: seq<MessageRecord>, msgs: seq<MessageRecord>, user: nat, server: nat)
    requires forall i :: 0 <= i < |msgs| ==> !msgs[i].isProcessed
    ensures ProcessedRowsOf(StoreMessages(table, msgs, user, server), user, server) == []
  {
    UnprocessedHaveNoProcessedRows(msgs, user, server);
  }

  // ---------------------------------------------------------------------------
  // Dataset construction
  // ---------------------------------------------------------------------------

  predicate SortedByTime(rows: seq<MessageRecord>) {
    forall i, j :: 0 <= i < j < |rows| ==> rows[i].timestamp <= rows[j].timestamp
  }

  /** One insertion step of the sort: `x` goes before the first row that is
      not older than it. */
  function InsertByTime(x: MessageRecord, rows: seq<MessageRecord>): (r: seq<MessageRecord>)
    ensures multiset(r) == multiset(rows) + multiset{x}
    ensures |r| == |rows| + 1
    ensures r[0] == if |rows| == 0 || x.timestamp <= rows[0].timestamp then x else rows[0]
  {
    if |rows| == 0 || x.timestamp <= rows[0].timestamp then [x] + rows
    else
      assert rows == [rows[0]] + rows[1..];
      [rows[0]] + InsertByTime(x, rows[1..])
  }

  /** Inserting into a sorted list keeps it sorted. */
  lemma {:induction false} InsertKeepsSorted(x: MessageRecord, rows: seq<MessageRecord>)
    requires SortedByTime(rows)
    ensures SortedByTime(InsertByTime(x, rows))
    decreases |rows|
  {
    if |rows| > 0 && x.timestamp > rows[0].timestamp {
      var tail := InsertByTime(x, rows[1..]);
      assert SortedByTime(rows[1..]) by {
        forall i, j | 0 <= i < j < |rows[1..]|
          ensures rows[1..][i].timestamp <= rows[1..][j].timestamp
        {
          assert rows[1..][i] == rows[i + 1] && rows[1..][j] == rows[j + 1];
        }
      }
      InsertKeepsSorted(x, rows[1..]);
      assert rows[0].timestamp <= tail[0].timestamp;
      var r := [rows[0]] + tail;
      forall i, j | 0 <= i < j < |r|
        ensures r[i].timestamp <= r[j].timestamp
      {
        if i > 0 {
          assert r[i] == tail[i - 1] && r[j] == tail[j - 1];
        } else {
          assert r[j] == tail[j - 1];
        }
      }
    }
  }

  /** `ORDER BY timestamp ASC`: a sorted permutation of the rows. */
  function SortByTime(rows: seq<MessageRecord>): (r: seq<MessageRecord>)
    ensures SortedByTime(r)
    ensures multiset(r) == multiset(rows)
    ensures |r| == |rows|
  {
    if |rows| == 0 then []
    else
      assert rows == [rows[0]] + rows[1..];
      var rest := SortByTime(rows[1..]);
      InsertKeepsSorted(rows[0], rest);
      InsertByTime(rows[0], rest)
  }

  /** One element of the JSON list. */
  datatype DatasetEntry = DatasetEntry(prompt: string, response: string, timestamp: int, channelId: string, messageIndex: nat)

  function EntryPrompt(i: nat): string {
    "You are responding in a Discord conversation. Context: Message " + NatToString(i + 1)
  }

  /** The prompts number the entries from 1, so no two share a prompt. */
  lemma EntryPromptsDistinct(i: nat, j: nat)
    requires i != j
    ensures EntryPrompt(i) != EntryPrompt(j)
  {
    var p := "You are responding in a Discord conversation. Context: Message ";
    if EntryPrompt(i) == EntryPrompt(j) {
      assert NatToString(i + 1) == EntryPrompt(i)[|p|..] == EntryPrompt(j)[|p|..] == NatToString(j + 1);
      NatToStringInjective(i + 1, j + 1);
    }
  }

  function BuildEntries(rows: seq<MessageRecord>): (d: seq<DatasetEntry>)
    ensures |d| == |rows|
    ensures forall i :: 0 <= i < |rows| ==>
      d[i] == DatasetEntry(EntryPrompt(i), rows[i].content, rows[i].timestamp, rows[i].channelId, i)
  {
    seq(|rows|, i requires 0 <= i < |rows| =>
      DatasetEntry(EntryPrompt(i), rows[i].content, rows[i].timestamp, rows[i].channelId, i))
  }

  /** The entries for a set of rows: numbered from 0, oldest first. */
  function DatasetEntries(rows: seq<MessageRecord>): (d: seq<DatasetEntry>)
    ensures |d| == |rows|
    ensures forall i :: 0 <= i < |d| ==> d[i].messageIndex == i && d[i].prompt == EntryPrompt(i)
    ensures forall i, j :: 0 <= i < j < |d| ==> d[i].timestamp <= d[j].timestamp
    ensures exists s :: SortedByTime(s) && multiset(s) == multiset(rows) && d == BuildEntries(s)
  {
    var sorted := SortByTime(rows);
    var d := BuildEntries(sorted);
    forall i, j | 0 <= i < j < |d|
      ensures d[i].timestamp <= d[j].timestamp
    {
      assert d[i].timestamp == sorted[i].timestamp && d[j].timestamp == sorted[j].timestamp;
    }
    d
  }

  /** The dataset file's path and contents. */
  datatype DatasetFile = DatasetFile(path: string, entries: seq<DatasetEntry>)

  /** `os.path.join(dataset_dir, f"user_{u}_server_{s}_{stamp}.json")`. */
  function DatasetPath(datasetDir: string, user: nat, server: nat, now: DateTime): string
    requires IsValidDateTime(now)
  {
    datasetDir + "/user_" + NatToString(user) + "_server_" + NatToString(server) + "_" + CompactStamp(now) + ".json"
  }

  /** `prepare_training_dataset`: the processed rows of the key, oldest first,
      one entry each. */
  function PrepareTrainingDataset(table: seq<MessageRecord>, user: nat, server: nat, now: DateTime, datasetDir: string): (r: Result<DatasetFile>)
    requires IsValidDateTime(now)
    ensures r.Err? <==> ProcessedRowsOf(table, user, server) == []
    ensures r.Err? ==> r.error == "No processed messages found"
    ensures r.Ok? ==>
      && r.value.path == DatasetPath(datasetDir, user, server, now)
      && |r.value.entries| == |ProcessedRowsOf(table, user, server)|
      && (forall i :: 0 <= i < |r.value.entries| ==>
            r.value.entries[i].messageIndex == i && r.value.entries[i].prompt == EntryPrompt(i))
      && (forall i, j :: 0 <= i < j < |r.value.entries| ==>
            r.value.entries[i].timestamp <= r.value.entries[j].timestamp)
      && (exists s :: SortedByTime(s) && multiset(s) == multiset(ProcessedRowsOf(table, user, server))
                      && r.value.entries == BuildEntries(s))
  {
    var rows := ProcessedRowsOf(table, user, server);
    if |rows| == 0 then Err("No processed messages found")
    else Ok(DatasetFile(DatasetPath(datasetDir, user, server, now), DatasetEntries(rows)))
  }

  /** Every dataset entry answers with one stored processed message. */
  lemma DatasetResponsesComeFromRows(table: seq<MessageRecord>, user: nat, server: nat, now: DateTime, datasetDir: string, i: nat)
    requires IsValidDateTime(now)
    requires PrepareTrainingDataset(table, user, server, now, datasetDir).Ok?
    requires i < |PrepareTrainingDataset(table, user, server, now, datasetDir).value.entries|
    ensures exists row :: (
      && row in ProcessedRowsOf(table, user, server)
      && row.content == PrepareTrainingDataset(table, user, server, now, datasetDir).value.entries[i].response
      && row.timestamp == PrepareTrainingDataset(table, user, server, now, datasetDir).value.entries[i].timestamp
      && row.channelId == PrepareTrainingDataset(table, user, server, now, datasetDir).value.entries[i].channelId)
  {
    var rows := ProcessedRowsOf(table, user, server);
    var sorted := SortByTime(rows);
    assert DatasetEntries(rows)[i] == BuildEntries(sorted)[i];
    assert sorted[i] in multiset(sorted);
    assert sorted[i] in rows;
  }

  /** Every row of a sequence is the response of some entry built from it. */
  lemma BuildEntriesCover(rows: seq<MessageRecord>, row: MessageRecord)
    requires row in rows
    ensures var e := BuildEntries(rows);
      exists i :: 0 <= i < |e| && e[i].response == row.content && e[i].timestamp == row.timestamp
                  && e[i].channelId == row.channelId
  {
    var i :| 0 <= i < |rows| && rows[i] == row;
    assert BuildEntries(rows)[i].response == row.content;
  }

  /** The other direction: every stored processed message of the pair is
      the response of some dataset entry. */
  lemma DatasetCoversEveryRow(table: seq<MessageRecord>, user: nat, server: nat, now: DateTime, datasetDir: string,
                              row: MessageRecord)
    requires IsValidDateTime(now)
    requires row in ProcessedRowsOf(table, user, server)
    ensures PrepareTrainingDataset(table, user, server, now, datasetDir).Ok?
    ensures var e := PrepareTrainingDataset(table, user, server, now, datasetDir).value.entries;
      exists i :: 0 <= i < |e| && e[i].response == row.content && e[i].timestamp == row.timestamp
                  && e[i].channelId == row.channelId
  {
    var rows := ProcessedRowsOf(table, user, server);
    var sorted := SortByTime(rows);
    assert PrepareTrainingDataset(table, user, server, now, datasetDir).value.entries == BuildEntries(sorted);
    assert row in multiset(rows);
    BuildEntriesCover(sorted, row);
  }



  // ---------------------------------------------------------------------------
  // The pipeline
  // ---------------------------------------------------------------------------

  /** Everything the analysis touches. */
  datatype AnalysisState = AnalysisState(profiles: Profiles, table: seq<MessageRecord>, tasks: TaskRegistry.Registry)

  function RunKey(k: ProfileKey): string {
    TaskRegistry.TaskKey(k.user, k.server)
  }

  /** `start_analysis`: upsert the row, then cancel and replace the key's
      task with the new run `h`. */
  function StartAnalysis(st: AnalysisState, k: ProfileKey, cutoff: DateTime, requester: nat, now: DateTime,
                         h: TaskRegistry.Handle): (r: AnalysisState)
    ensures IsAnalysisInProgress(r.profiles, k)
    ensures GetAnalysisStatus(r.profiles, k) == StatusReport("in_progress", 0, 0, 0, Some(now), None, None)
    ensures r.table == st.table
    ensures RunKey(k) in r.tasks.tasks && r.tasks.tasks[RunKey(k)] == h
    ensures RunKey(k) in st.tasks.tasks ==> st.tasks.tasks[RunKey(k)] in r.tasks.cancelled
  {
    AnalysisState(UpsertProfile(st.profiles, k, cutoff, requester, now), st.table,
      TaskRegistry.Register(st.tasks, RunKey(k), h))
  }

  datatype Completed = Completed(datasetPath: string, messageCount: nat)

  /** What the `try` block leaves behind: the rows written so far and either
      the completion data or the message of the exception raised. */
  datatype Attempt = Attempt(profiles: Profiles, table: seq<MessageRecord>, outcome: Result<Completed>)

  const NoMessagesError := "No messages found for this user before the cutoff date"

  /** The storing and dataset steps of `_run_analysis` as written, reached
      once the collected list passed the size check. The preprocessed list
      is computed and then dropped, as in the source. */
  function StoreAndPrepare(p1: Profiles, table: seq<MessageRecord>, k: ProfileKey, msgs: seq<MessageRecord>,
                           now: DateTime, datasetDir: string): (a: Attempt)
    requires IsValidDateTime(now)
    ensures a.profiles.Keys == p1.Keys
  {
    var p2 := UpdateProgress(p1, k, 30, "Storing messages...", now);
    var t2 := StoreMessages(table, msgs, k.user, k.server);
    var p3 := UpdateProgress(p2, k, 60, "Preprocessing messages...", now);
    var p4 := UpdateProgress(p3, k, 80, "Preparing training dataset...", now);
    match PrepareTrainingDataset(t2, k.user, k.server, now, datasetDir)
    case Err(e) => Attempt(p4, t2, Err(e))
    case Ok(file) =>
      var p5 := UpdateProgress(p4, k, 100, "Analysis completed", now);
      Attempt(p5, t2, Ok(Completed(file.path, |msgs|)))
  }

  /** Storing unprocessed rows and then asking for processed ones finds
      nothing: these steps always raise. */
  lemma StoreAndPrepareFails(p1: Profiles, table: seq<MessageRecord>, k: ProfileKey, msgs: seq<MessageRecord>,
                             now: DateTime, datasetDir: string)
    requires IsValidDateTime(now)
    requires forall i :: 0 <= i < |msgs| ==> !msgs[i].isProcessed
    ensures StoreAndPrepare(p1, table, k, msgs, now, datasetDir).outcome == Err("No processed messages found")
  {
    NoProcessedAfterStore(table, msgs, k.user, k.server);
  }

  /** The `try` block of `_run_analysis`, given what collection returned. */
  function AnalysisSteps(profiles: Profiles, table: seq<MessageRecord>, k: ProfileKey,
                         collected: Result<seq<MessageRecord>>, now: DateTime, datasetDir: string): (a: Attempt)
    requires IsValidDateTime(now)
    ensures a.profiles.Keys == profiles.Keys
  {
    var p1 := UpdateProgress(profiles, k, 10, "Collecting messages...", now);
    match collected
    case Err(e) => Attempt(p1, table, Err(e))
    case Ok(msgs) =>
      if |msgs| == 0 then Attempt(p1, table, Err(NoMessagesError))
      else match ValidateTrainingDatasetSize(|msgs|, DefaultMinMessages, DefaultMaxMessages)
        case Invalid(e) => Attempt(p1, table, Err(e))
        case Valid => StoreAndPrepare(p1, table, k, msgs, now, datasetDir)
  }

  /** Given a collection of unprocessed rows, the steps as written raise,
      with the collection's error, the empty-collection message, the size
      check's message or the dataset query's. */
  lemma AnalysisStepsFail(profiles: Profiles, table: seq<MessageRecord>, k: ProfileKey,
                          collected: Result<seq<MessageRecord>>, now: DateTime, datasetDir: string)
    requires IsValidDateTime(now)
    requires collected.Ok? ==> forall i :: 0 <= i < |collected.value| ==> !collected.value[i].isProcessed
    ensures var a := AnalysisSteps(profiles, table, k, collected, now, datasetDir);
      && a.outcome.Err?
      && (collected.Err? ==> a.outcome.error == collected.error)
      && (collected.Ok? && |collected.value| == 0 ==> a.outcome.error == NoMessagesError)
      && (collected.Ok? && |collected.value| > 0 ==>
            var v := ValidateTrainingDatasetSize(|collected.value|, DefaultMinMessages, DefaultMaxMessages);
            && (v.Invalid? ==> a.outcome.error == v.message)
            && (v.Valid? ==> a.outcome.error == "No processed messages found"))
  {
    if collected.Ok? && |collected.value| > 0 {
      var p1 := UpdateProgress(profiles, k, 10, "Collecting messages...", now);
      StoreAndPrepareFails(p1, table, k, collected.value, now, datasetDir);
    }
  }

  /** The `except` branch or the completion step, by outcome. */
  function Conclude(a: Attempt, k: ProfileKey, now: DateTime, callback: CallbackOutcome): (r: Profiles)
    ensures r.Keys == a.profiles.Keys
    ensures k in a.profiles && a.outcome.Err? ==>
      r[k].status == Failed && r[k].errorMessage == Some(a.outcome.error)
  {
    match a.outcome
    case Ok(c) => MarkAnalysisComplete(a.profiles, k, c.datasetPath, c.messageCount, now, callback)
    case Err(e) => MarkFailed(a.profiles, k, e, now)
  }

  /** `_run_analysis` as written, run to the end; the `finally` deletes the
      key whichever task it holds. */
  function RunAnalysis(st: AnalysisState, k: ProfileKey, guild: Option<Guild>, now: DateTime,
                       datasetDir: string, callback: CallbackOutcome): (r: AnalysisState)
    requires IsValidDateTime(now)
    ensures RunKey(k) !in r.tasks.tasks
    ensures r.profiles.Keys == st.profiles.Keys
  {
    RunOn(st, k, CollectUserMessages(guild, k.user, k.server), now, datasetDir, callback)
  }

  /** `_run_analysis` as written, given what collection returned. */
  function RunOn(st: AnalysisState, k: ProfileKey, collected: Result<seq<MessageRecord>>, now: DateTime,
                 datasetDir: string, callback: CallbackOutcome): (r: AnalysisState)
    requires IsValidDateTime(now)
    ensures RunKey(k) !in r.tasks.tasks
    ensures r.profiles.Keys == st.profiles.Keys
  {
    var a := AnalysisSteps(st.profiles, st.table, k, collected, now, datasetDir);
    AnalysisState(Conclude(a, k, now, callback), a.table, TaskRegistry.Release(st.tasks, RunKey(k)))
  }

  /** Over unprocessed collected rows, the run as written ends 'failed' with
      the message of the step that raised. */
  lemma RunOnFails(st: AnalysisState, k: ProfileKey, collected: Result<seq<MessageRecord>>, now: DateTime,
                   datasetDir: string, callback: CallbackOutcome)
    requires IsValidDateTime(now)
    requires k in st.profiles
    requires collected.Ok? ==> forall i :: 0 <= i < |collected.value| ==> !collected.value[i].isProcessed
    ensures var r := RunOn(st, k, collected, now, datasetDir, callback);
      && r.profiles[k].status == Failed
      && (collected.Err? ==> r.profiles[k].errorMessage == Some(collected.error))
      && (collected.Ok? && |collected.value| == 0 ==> r.profiles[k].errorMessage == Some(NoMessagesError))
      && (collected.Ok? && |collected.value| > 0 ==>
            var v := ValidateTrainingDatasetSize(|collected.value|, DefaultMinMessages, DefaultMaxMessages);
            && (v.Invalid? ==> r.profiles[k].errorMessage == Some(v.message))
            && (v.Valid? ==> r.profiles[k].errorMessage == Some("No processed messages found")))
  {
    AnalysisStepsFail(st.profiles, st.table, k, collected, now, datasetDir);
  }

  /** A run cancelled by its replacement only executes its `finally`. */
  function CancelledRunExit(st: AnalysisState, k: ProfileKey): (r: AnalysisState)
    ensures RunKey(k) !in r.tasks.tasks
    ensures r.profiles == st.profiles && r.table == st.table
  {
    st.(tasks := TaskRegistry.Release(st.tasks, RunKey(k)))
  }

  /** The analysis as written never completes: whenever the row exists the run
      ends 'failed'. An empty collection and a size outside [50, 10000] fail
      with their own messages; any collection that gets past them is stored
      unprocessed, so the dataset query finds nothing. */
  lemma RunAnalysisAlwaysFails(st: AnalysisState, k: ProfileKey, guild: Option<Guild>, now: DateTime,
                               datasetDir: string, callback: CallbackOutcome)
    requires IsValidDateTime(now)
    requires k in st.profiles
    ensures var r := RunAnalysis(st, k, guild, now, datasetDir, callback);
      && r.profiles[k].status == Failed
      && !IsAnalysisInProgress(r.profiles, k)
    ensures var c := CollectUserMessages(guild, k.user, k.server);
      var r := RunAnalysis(st, k, guild, now, datasetDir, callback);
      && (c.Err? ==> r.profiles[k].errorMessage == Some(c.error))
      && (c.Ok? && |c.value| == 0 ==> r.profiles[k].errorMessage == Some(NoMessagesError))
      && (c.Ok? && |c.value| > 0 ==>
            var v := ValidateTrainingDatasetSize(|c.value|, DefaultMinMessages, DefaultMaxMessages);
            && (v.Invalid? ==> r.profiles[k].errorMessage == Some(v.message))
            && (v.Valid? ==> r.profiles[k].errorMessage == Some("No processed messages found")))
  {
    var c := CollectUserMessages(guild, k.user, k.server);
    assert c.Ok? ==> forall i :: 0 <= i < |c.value| ==> !c.value[i].isProcessed;
    RunOnFails(st, k, c, now, datasetDir, callback);
  }

  /** A superseded run's exit removes its replacement's entry: the profile
      still says 'in_progress' while the registry says no run is active. */
  lemma SupersededRunForgetsReplacement(st: AnalysisState, k: ProfileKey, cutoff: DateTime, requester: nat,
                                        now: DateTime, older: TaskRegistry.Handle, newer: TaskRegistry.Handle,
                                        done: set<TaskRegistry.Handle>)
    requires newer !in done
    ensures var s1 := StartAnalysis(st, k, cutoff, requester, now, older);
      var s2 := StartAnalysis(s1, k, cutoff, requester, now, newer);
      var s3 := CancelledRunExit(s2, k);
      && older in s2.tasks.cancelled
      && TaskRegistry.InProgress(s2.tasks, RunKey(k), done)
      && !TaskRegistry.InProgress(s3.tasks, RunKey(k), done)
      && IsAnalysisInProgress(s3.profiles, k)
  {
  }

  /** The storing and dataset steps as evidently intended: the preprocessed
      rows are stored, marked processed, before the dataset query. */
  function StoreAndPrepareCorrected(p1: Profiles, table: seq<MessageRecord>, k: ProfileKey, msgs: seq<MessageRecord>,
                                    now: DateTime, datasetDir: string): (a: Attempt)
    requires IsValidDateTime(now)
    ensures a.profiles.Keys == p1.Keys
  {
    var p2 := UpdateProgress(p1, k, 30, "Storing messages...", now);
    var t2 := StoreMessages(table, msgs, k.user, k.server);
    var p3 := UpdateProgress(p2, k, 60, "Preprocessing messages...", now);
    var t3 := StoreMessages(t2, Records(Preprocess(msgs)), k.user, k.server);
    var p4 := UpdateProgress(p3, k, 80, "Preparing training dataset...", now);
    match PrepareTrainingDataset(t3, k.user, k.server, now, datasetDir)
    case Err(e) => Attempt(p4, t3, Err(e))
    case Ok(file) =>
      var p5 := UpdateProgress(p4, k, 100, "Analysis completed", now);
      Attempt(p5, t3, Ok(Completed(file.path, |msgs|)))
  }

  /** The analysis as evidently intended: the corrected cap, the preprocessed
      rows stored before the dataset query, and a `finally` that only removes
      its own entry. */
  function AnalysisStepsCorrected(profiles: Profiles, table: seq<MessageRecord>, k: ProfileKey,
                                  collected: Result<seq<MessageRecord>>, now: DateTime, datasetDir: string): (a: Attempt)
    requires IsValidDateTime(now)
    ensures a.profiles.Keys == profiles.Keys
  {
    var p1 := UpdateProgress(profiles, k, 10, "Collecting messages...", now);
    match collected
    case Err(e) => Attempt(p1, table, Err(e))
    case Ok(msgs) =>
      if |msgs| == 0 then Attempt(p1, table, Err(NoMessagesError))
      else match ValidateTrainingDatasetSize(|msgs|, DefaultMinMessages, DefaultMaxMessages)
        case Invalid(e) => Attempt(p1, table, Err(e))
        case Valid => StoreAndPrepareCorrected(p1, table, k, msgs, now, datasetDir)
  }

  function RunAnalysisCorrected(st: AnalysisState, k: ProfileKey, h: TaskRegistry.Handle, guild: Option<Guild>,
                                now: DateTime, datasetDir: string, callback: CallbackOutcome): (r: AnalysisState)
    requires IsValidDateTime(now)
    ensures r.profiles.Keys == st.profiles.Keys
  {
    var a := AnalysisStepsCorrected(st.profiles, st.table, k, CollectUserMessagesCapped(guild, k.user, k.server), now, datasetDir);
    AnalysisState(Conclude(a, k, now, callback), a.table, TaskRegistry.ReleaseOwn(st.tasks, RunKey(k), h))
  }

  /** The corrected collection yields rows of the requested key only. */
  lemma CappedCollectionIsKeyed(guild: Option<Guild>, user: nat, server: nat)
    requires CollectUserMessagesCapped(guild, user, server).Ok?
    ensures forall i :: 0 <= i < |CollectUserMessagesCapped(guild, user, server).value| ==>
      KeyRow(CollectUserMessagesCapped(guild, user, server).value[i], user, server)
  {
    var msgs := CollectUserMessagesCapped(guild, user, server).value;
    var all := AllYields(guild.value.textChannels, user, server);
    AllYieldsCollectible(guild.value.textChannels, user, server);
    assert forall i :: 0 <= i < |msgs| ==> msgs[i] == all[i];
  }

  /** Storing the preprocessed rows makes them exactly what the dataset query
      finds. */
  lemma StoredPreprocessedAreFound(table: seq<MessageRecord>, msgs: seq<MessageRecord>, user: nat, server: nat)
    requires forall i :: 0 <= i < |msgs| ==> KeyRow(msgs[i], user, server)
    ensures var recs := Records(Preprocess(msgs));
      ProcessedRowsOf(StoreMessages(table, recs, user, server), user, server) == recs
  {
    var ps := Preprocess(msgs);
    var recs := Records(ps);
    forall j | 0 <= j < |recs|
      ensures recs[j].isProcessed && KeyRow(recs[j], user, server)
    {
      PreprocessKeepsKeys(msgs, user, server, j);
    }
    ProcessedKeyRowsAreFound(recs, user, server);
  }

  /** Once some collected rows survive preprocessing, the corrected storing
      and dataset steps complete with the collected count. */
  lemma CorrectedStoreCompletes(p1: Profiles, table: seq<MessageRecord>, k: ProfileKey, msgs: seq<MessageRecord>,
                                now: DateTime, datasetDir: string)
    requires IsValidDateTime(now)
    requires forall i :: 0 <= i < |msgs| ==> KeyRow(msgs[i], k.user, k.server)
    requires Preprocess(msgs) != []
    ensures StoreAndPrepareCorrected(p1, table, k, msgs, now, datasetDir).outcome
      == Ok(Completed(DatasetPath(datasetDir, k.user, k.server, now), |msgs|))
  {
    var t2 := StoreMessages(table, msgs, k.user, k.server);
    StoredPreprocessedAreFound(t2, msgs, k.user, k.server);
    assert |Records(Preprocess(msgs))| > 0;
  }

  /** A collection of acceptable size goes on to be stored. */
  lemma SizedCollectionIsStored(profiles: Profiles, table: seq<MessageRecord>, k: ProfileKey,
                                msgs: seq<MessageRecord>, now: DateTime, datasetDir: string)
    requires IsValidDateTime(now)
    requires DefaultMinMessages <= |msgs| <= DefaultMaxMessages
    ensures AnalysisStepsCorrected(profiles, table, k, Ok(msgs), now, datasetDir)
      == StoreAndPrepareCorrected(UpdateProgress(profiles, k, 10, "Collecting messages...", now), table, k, msgs, now, datasetDir)
  {
  }

  /** The corrected steps reach the completion branch. */
  lemma CorrectedStepsComplete(profiles: Profiles, table: seq<MessageRecord>, k: ProfileKey,
                               msgs: seq<MessageRecord>, now: DateTime, datasetDir: string)
    requires IsValidDateTime(now)
    requires k in profiles
    requires DefaultMinMessages <= |msgs| <= DefaultMaxMessages
    requires forall i :: 0 <= i < |msgs| ==> KeyRow(msgs[i], k.user, k.server)
    requires Preprocess(msgs) != []
    ensures var a := AnalysisStepsCorrected(profiles, table, k, Ok(msgs), now, datasetDir);
      && k in a.profiles
      && a.outcome == Ok(Completed(DatasetPath(datasetDir, k.user, k.server, now), |msgs|))
  {
    var p1 := UpdateProgress(profiles, k, 10, "Collecting messages...", now);
    SizedCollectionIsStored(profiles, table, k, msgs, now, datasetDir);
    CorrectedStoreCompletes(p1, table, k, msgs, now, datasetDir);
  }

  /** With the corrections a run over at least 50 collected messages, some
      of which survive preprocessing, completes and records its count; the
      capped collection can no longer trip the upper size bound. */
  lemma CorrectedRunCompletes(st: AnalysisState, k: ProfileKey, h: TaskRegistry.Handle, guild: Option<Guild>,
                              now: DateTime, datasetDir: string, callback: CallbackOutcome)
    requires IsValidDateTime(now)
    requires k in st.profiles
    requires CollectUserMessagesCapped(guild, k.user, k.server).Ok?
    requires |CollectUserMessagesCapped(guild, k.user, k.server).value| >= DefaultMinMessages
    requires Preprocess(CollectUserMessagesCapped(guild, k.user, k.server).value) != []
    requires !callback.CallbackRaised?
    ensures var r := RunAnalysisCorrected(st, k, h, guild, now, datasetDir, callback);
      && r.profiles[k].status == AnalysisCompleted
      && r.profiles[k].totalMessages == Some(|CollectUserMessagesCapped(guild, k.user, k.server).value|)
      && r.profiles[k].progress == Some(100)
  {
    var msgs := CollectUserMessagesCapped(guild, k.user, k.server).value;
    CappedCollectionIsKeyed(guild, k.user, k.server);
    CorrectedStepsComplete(st.profiles, st.table, k, msgs, now, datasetDir);
  }
}
