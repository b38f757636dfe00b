/** The bookkeeping of `OllamaClient`: model names, the Modelfile text, the
    set of models believed loaded, the per-user training-task registry, the
    chat messages sent for a reply, and the sweep for stale echo models. Every
    call to the Ollama server is an input: what `list()` returned, whether a
    `chat`, `create`, `pull` or `delete` call went through. */
module OllamaClient {
  import opened Chars
  import opened Strings
  import opened Wrappers
  import TextProcessor
  import opened Validation
  import opened DateParser
  import opened TaskRegistry

  /** The client's mutable attributes. */
  datatype ClientState = ClientState(baseModel: string, loaded: set<string>, training: Registry)

  const DefaultBaseModel := "dolphin3:latest"

  /** `__init__`: nothing loaded, nothing training. */
  function NewClient(baseModel: string): (c: ClientState)
    ensures c.loaded == {} && c.training.tasks == map[]
  {
    ClientState(baseModel, {}, EmptyRegistry)
  }

  // ---------------------------------------------------------------------------
  // Model names
  // ---------------------------------------------------------------------------

  const EchoPrefix := "echo_user_"

  /** `f"echo_user_{user_id}_server_{server_id}_{timestamp}"` with the
      timestamp `strftime('%Y%m%d_%H%M%S')`. */
  function ModelName(user: nat, server: nat, now: DateTime): (name: string)
    requires IsValidDateTime(now)
    ensures HasPrefix(name, EchoPrefix)
    ensures HasSuffix(name, CompactStamp(now))
  {
    var name := EchoPrefix + NatToString(user) + "_server_" + NatToString(server) + "_" + CompactStamp(now);
    assert name[..|EchoPrefix|] == EchoPrefix;
    assert name[|name| - |CompactStamp(now)|..] == CompactStamp(now);
    name
  }

  predicate ModelNameChars(s: string) {
    forall i :: 0 <= i < |s| ==> IsModelNameChar(s[i])
  }

  lemma ModelNameCharsConcat(a: string, b: string)
    requires ModelNameChars(a) && ModelNameChars(b)
    ensures ModelNameChars(a + b)
  {
    assert forall i :: 0 <= i < |a + b| ==> (a + b)[i] == if i < |a| then a[i] else b[i - |a|];
  }

  lemma DigitsAreModelNameChars(s: string)
    requires AllDigits(s)
    ensures ModelNameChars(s)
  {
  }

  /** Digits, one '_', digits: the shape of the timestamp. */
  lemma JoinedDigitsAreModelNameText(d: string, tm: string)
    requires AllDigits(d) && AllDigits(tm) && |tm| > 0
    ensures ModelNameChars(d + "_" + tm)
    ensures IsDigit((d + "_" + tm)[|d + "_" + tm| - 1])
  {
    DigitsAreModelNameChars(d);
    DigitsAreModelNameChars(tm);
    ModelNameCharsConcat(d, "_");
    ModelNameCharsConcat(d + "_", tm);
  }

  /** The text of a generated name, for any id digits and any stamp text of
      name characters ending in a digit. */
  lemma GeneratedNameText(u: string, s: string, t: string)
    requires AllDigits(u) && AllDigits(s) && ModelNameChars(t) && |t| > 0 && IsDigit(t[|t| - 1])
    ensures var name := EchoPrefix + u + "_server_" + s + "_" + t;
      && ModelNameChars(name)
      && |name| == 19 + |u| + |s| + |t|
      && IsAsciiAlnum(name[0]) && IsAsciiAlnum(name[|name| - 1])
  {
    DigitsAreModelNameChars(u);
    DigitsAreModelNameChars(s);
    assert ModelNameChars(EchoPrefix) && ModelNameChars("_server_") && ModelNameChars("_");
    ModelNameCharsConcat(EchoPrefix, u);
    ModelNameCharsConcat(EchoPrefix + u, "_server_");
    ModelNameCharsConcat(EchoPrefix + u + "_server_", s);
    ModelNameCharsConcat(EchoPrefix + u + "_server_" + s, "_");
    ModelNameCharsConcat(EchoPrefix + u + "_server_" + s + "_", t);
    var name := EchoPrefix + u + "_server_" + s + "_" + t;
    assert name[0] == 'e';
    assert name[|name| - 1] == t[|t| - 1];
  }

  /** The names the client generates pass its own validator whenever the ids
      have at most 20 digits, as every Discord snowflake does. */
  lemma GeneratedModelNameIsValid(user: nat, server: nat, now: DateTime)
    requires IsValidDateTime(now)
    requires user < Pow10(20) && server < Pow10(20)
    ensures ValidateModelName(ModelName(user, server, now)) == Valid
  {
    var u, s, t := NatToString(user), NatToString(server), CompactStamp(now);
    NatToStringLength(user, 20);
    NatToStringLength(server, 20);
    assert Pow10(4) == 10000;
    NatToStringLength(now.date.year, 4);
    JoinedDigitsAreModelNameText(StampDate(now), StampTime(now));
    GeneratedNameText(u, s, t);
    var name := ModelName(user, server, now);
    ModelNameCharacterisation(name);
  }

  // ---------------------------------------------------------------------------
  // Training configuration and the Modelfile
  // ---------------------------------------------------------------------------

  /** The integer settings of a training configuration. */
  datatype TrainingConfig = TrainingConfig(epochs: int, batchSize: int, maxSeqLength: int)

  /** `training_config` when the caller passes none. */
  function EffectiveConfig(given: Option<TrainingConfig>): (c: TrainingConfig)
    ensures given.None? ==> c.epochs == 10 && c.batchSize == 4 && c.maxSeqLength == 512
    ensures given.Some? ==> c == given.value
  {
    given.GetOr(TrainingConfig(10, 4, 512))
  }

  /** One dataset entry as `_create_modelfile` reads it; a missing key reads
      as "". */
  datatype Example = Example(prompt: string, response: string)

  const ModelfileExampleLimit := 100

  /** The fixed text after the `FROM` line and before the examples. */
  const ModelfileBody :=
    "\n"
    + "# Model parameters\n"
    + "PARAMETER temperature 0.8\n"
    + "PARAMETER top_p 0.9\n"
    + "PARAMETER top_k 40\n"
    + "PARAMETER num_ctx 2048\n"
    + "\n"
    + "# System prompt for echo personality\n"
    + "SYSTEM \"\"\"You are an AI assistant that mimics the communication style and personality of a specific Discord user based on their historical messages. You should:\n"
    + "\n"
    + "1. Match their typical response length and tone\n"
    + "2. Use similar vocabulary and expressions\n"
    + "3. Maintain their level of formality/informality\n"
    + "4. Reflect their interests and topics they commonly discuss\n"
    + "5. Respond in a way that feels natural and consistent with their personality\n"
    + "\n"
    + "Be conversational and engaging, but stay true to the personality you're emulating.\"\"\"\n"
    + "\n"

  /** The block appended for example `i` (zero-based). The escaped prompt
      and response are computed in the source but never inserted. */
  function ExampleBlock(i: nat): string {
    "\n# Training example " + NatToString(i + 1) + "\n"
    + "TEMPLATE \"\"\"{{ if .System }}{{ .System }}\n"
    + "\n"
    + "{{ end }}{{ if .Prompt }}User: {{ .Prompt }}\n"
    + "Assistant: {{ end }}{{ .Response }}\"\"\"\n"
  }

  predicate Qualifies(e: Example) {
    e.prompt != "" && e.response != ""
  }

  /** The blocks for `examples`, the first of which has index `offset`. */
  function ExampleBlocks(examples: seq<Example>, offset: nat): string
    decreases |examples|
  {
    if |examples| == 0 then ""
    else (if Qualifies(examples[0]) then ExampleBlock(offset) else "") + ExampleBlocks(examples[1..], offset + 1)
  }

  /** `_create_modelfile`'s text: the header, then one block per qualifying
      entry among the first 100. */
  function ModelfileText(baseModel: string, dataset: seq<Example>): (text: string)
    ensures HasPrefix(text, "FROM " + baseModel + "\n")
  {
    var from := "FROM " + baseModel + "\n";
    var text := from + (ModelfileBody + ExampleBlocks(dataset[..TextProcessor.Min(|dataset|, ModelfileExampleLimit)], 0));
    assert text[..|from|] == from;
    text
  }

  /** The blocks depend on the entries only through which of them qualify. */
  lemma {:induction false} ExampleBlocksSeeOnlyQualification(a: seq<Example>, b: seq<Example>, offset: nat)
    requires |a| == |b|
    requires forall i :: 0 <= i < |a| ==> Qualifies(a[i]) == Qualifies(b[i])
    ensures ExampleBlocks(a, offset) == ExampleBlocks(b, offset)
    decreases |a|
  {
    if |a| > 0 {
      assert Qualifies(a[0]) == Qualifies(b[0]);
      assert forall i :: 0 <= i < |a| - 1 ==> a[1..][i] == a[i + 1] && b[1..][i] == b[i + 1];
      ExampleBlocksSeeOnlyQualification(a[1..], b[1..], offset + 1);
    }
  }

  /** Two datasets whose first 100 entries qualify alike give the same
      Modelfile, whatever their prompts and responses say and whatever
      follows entry 100. */
  lemma ModelfileSeesOnlyQualification(baseModel: string, a: seq<Example>, b: seq<Example>)
    requires TextProcessor.Min(|a|, ModelfileExampleLimit) == TextProcessor.Min(|b|, ModelfileExampleLimit)
    requires forall i :: 0 <= i < TextProcessor.Min(|a|, ModelfileExampleLimit) ==> Qualifies(a[i]) == Qualifies(b[i])
    ensures ModelfileText(baseModel, a) == ModelfileText(baseModel, b)
  {
    var n := TextProcessor.Min(|a|, ModelfileExampleLimit);
    ExampleBlocksSeeOnlyQualification(a[..n], b[..n], 0);
  }

  /** With no qualifying entry the Modelfile is just the header. */
  lemma {:induction false} NoQualifyingExampleNoBlocks(examples: seq<Example>, offset: nat)
    requires forall i :: 0 <= i < |examples| ==> !Qualifies(examples[i])
    ensures ExampleBlocks(examples, offset) == ""
    decreases |examples|
  {
    if |examples| > 0 {
      assert forall i :: 0 <= i < |examples| - 1 ==> examples[1..][i] == examples[i + 1];
      NoQualifyingExampleNoBlocks(examples[1..], offset + 1);
    }
  }

  /** The indices of qualifying entries, shifted by `offset`. */
  function QualifyingIndices(examples: seq<Example>, offset: nat): (idx: seq<nat>)
    ensures |idx| <= |examples|
    ensures forall k :: 0 <= k < |idx| ==> offset <= idx[k] < offset + |examples| && Qualifies(examples[idx[k] - offset])
    decreases |examples|
  {
    if |examples| == 0 then []
    else (if Qualifies(examples[0]) then [offset] else []) + QualifyingIndices(examples[1..], offset + 1)
  }

  function BlocksFor(idx: seq<nat>): string {
    if |idx| == 0 then "" else ExampleBlock(idx[0]) + BlocksFor(idx[1..])
  }

  lemma {:induction false} BlocksForConcat(a: seq<nat>, b: seq<nat>)
    ensures BlocksFor(a + b) == BlocksFor(a) + BlocksFor(b)
    decreases |a|
  {
    if |a| == 0 {
      assert a + b == b;
    } else {
      assert (a + b)[1..] == a[1..] + b;
      BlocksForConcat(a[1..], b);
    }
  }

  /** The appended text is exactly one block per qualifying index, in order. */
  lemma {:induction false} ExampleBlocksAreQualifyingBlocks(examples: seq<Example>, offset: nat)
    ensures ExampleBlocks(examples, offset) == BlocksFor(QualifyingIndices(examples, offset))
    decreases |examples|
  {
    if |examples| > 0 {
      ExampleBlocksAreQualifyingBlocks(examples[1..], offset + 1);
      var head: seq<nat> := if Qualifies(examples[0]) then [offset] else [];
      BlocksForConcat(head, QualifyingIndices(examples[1..], offset + 1));
    }
  }

  // ---------------------------------------------------------------------------
  // create_fine_tuned_model and the training registry
  // ---------------------------------------------------------------------------

  /** `(success, model_name, error_message)` */
  datatype CreateResult = CreateResult(success: bool, modelName: Option<string>, error: Option<string>)

  /** `create_fine_tuned_model`. `datasetExists` is `os.path.exists`;
      `dataset` is what reading and decoding the file gave, or the text of the
      exception; `h` is the training task started. The third component is the
      Modelfile written, when one was. */
  function CreateFineTunedModel(c: ClientState, user: nat, server: nat, datasetPath: string, datasetExists: bool,
                                dataset: Result<seq<Example>>, now: DateTime, h: Handle): (r: (ClientState, CreateResult, Option<string>))
    requires IsValidDateTime(now)
    ensures !datasetExists ==> r.0 == c && r.1 == CreateResult(false, None, Some("Dataset file not found: " + datasetPath))
    ensures datasetExists && dataset.Err? ==>
      r.0 == c && r.1 == CreateResult(false, None, Some("Error creating fine-tuned model: " + dataset.error))
    ensures datasetExists && dataset.Ok? ==>
      && r.1 == CreateResult(true, Some(ModelName(user, server, now)), None)
      && r.2 == Some(ModelfileText(c.baseModel, dataset.value))
      && r.0 == c.(training := Register(c.training, TaskKey(user, server), h))
  {
    if !datasetExists then (c, CreateResult(false, None, Some("Dataset file not found: " + datasetPath)), None)
    else match dataset
      case Err(e) => (c, CreateResult(false, None, Some("Error creating fine-tuned model: " + e)), None)
      case Ok(entries) =>
        var name := ModelName(user, server, now);
        var c' := c.(training := Register(c.training, TaskKey(user, server), h));
        (c', CreateResult(true, Some(name), None), Some(ModelfileText(c.baseModel, entries)))
  }

  /** `_run_model_training`: `created` says whether reading the Modelfile and
      `client.create` went through. The `finally` deletes the key whichever
      task it holds. */
  function RunModelTraining(c: ClientState, modelName: string, taskKey: string, created: bool): (r: (ClientState, bool))
    ensures r.1 == created
    ensures created ==> r.0.loaded == c.loaded + {modelName}
    ensures !created ==> r.0.loaded == c.loaded
    ensures r.0.training == Release(c.training, taskKey)
    ensures r.0.baseModel == c.baseModel
  {
    var loaded := if created then c.loaded + {modelName} else c.loaded;
    (ClientState(c.baseModel, loaded, Release(c.training, taskKey)), created)
  }

  /** `is_training_in_progress`, with the finished tasks as a set. */
  function IsTrainingInProgress(c: ClientState, user: nat, server: nat, done: set<Handle>): (ok: bool)
    ensures ok <==> TaskKey(user, server) in c.training.tasks && c.training.tasks[TaskKey(user, server)] !in done
  {
    InProgress(c.training, TaskKey(user, server), done)
  }

  /** `cancel_training`. */
  function CancelTraining(c: ClientState, user: nat, server: nat): (r: (ClientState, bool))
    ensures r.1 <==> TaskKey(user, server) in c.training.tasks
    ensures TaskKey(user, server) !in r.0.training.tasks
    ensures r.0.loaded == c.loaded
  {
    var (reg, found) := Cancel(c.training, TaskKey(user, server));
    (c.(training := reg), found)
  }

  /** Starting training while another run for the same user is going
      cancels it; when the cancelled run's `finally` executes, the new run
      stops being reported as in progress. */
  lemma SupersededTrainingForgetsReplacement(c: ClientState, user: nat, server: nat, datasetPath: string,
                                            dataset: seq<Example>, now: DateTime, older: Handle, newer: Handle,
                                            oldName: string, done: set<Handle>)
    requires IsValidDateTime(now) && newer !in done
    ensures var c1 := CreateFineTunedModel(c, user, server, datasetPath, true, Ok(dataset), now, older).0;
      var c2 := CreateFineTunedModel(c1, user, server, datasetPath, true, Ok(dataset), now, newer).0;
      var c3 := RunModelTraining(c2, oldName, TaskKey(user, server), false).0;
      && older in c2.training.cancelled
      && IsTrainingInProgress(c2, user, server, done)
      && !IsTrainingInProgress(c3, user, server, done)
  {
  }

  /** `_run_model_training` with the `finally` as evidently intended: only
      its own entry is removed. */
  function RunModelTrainingCorrected(c: ClientState, modelName: string, taskKey: string, h: Handle, created: bool): (r: (ClientState, bool))
    ensures r.1 == created
    ensures created ==> r.0.loaded == c.loaded + {modelName}
    ensures !created ==> r.0.loaded == c.loaded
    ensures r.0.training == ReleaseOwn(c.training, taskKey, h)
  {
    var loaded := if created then c.loaded + {modelName} else c.loaded;
    (ClientState(c.baseModel, loaded, ReleaseOwn(c.training, taskKey, h)), created)
  }

  /** With the owner check, the superseded run's exit leaves the new run
      reported as in progress. */
  lemma CorrectedTrainingKeepsReplacement(c: ClientState, user: nat, server: nat, datasetPath: string,
                                          dataset: seq<Example>, now: DateTime, older: Handle, newer: Handle,
                                          oldName: string, done: set<Handle>)
    requires IsValidDateTime(now) && newer !in done && older != newer
    ensures var c1 := CreateFineTunedModel(c, user, server, datasetPath, true, Ok(dataset), now, older).0;
      var c2 := CreateFineTunedModel(c1, user, server, datasetPath, true, Ok(dataset), now, newer).0;
      var c3 := RunModelTrainingCorrected(c2, oldName, TaskKey(user, server), older, false).0;
      IsTrainingInProgress(c3, user, server, done)
  {
  }

  // ---------------------------------------------------------------------------
  // Server calls and the loaded-model set
  // ---------------------------------------------------------------------------

  /** `check_ollama_availability`: `listError` is the exception text of
      `client.list()`, if it raised. */
  function CheckOllamaAvailability(listError: Option<string>): (r: (bool, Option<string>))
    ensures r.0 <==> listError.None?
    ensures r.0 ==> r.1.None?
    ensures !r.0 ==> r.1 == Some("Ollama service unavailable: " + listError.value)
  {
    match listError
    case None => (true, None)
    case Some(e) => (false, Some("Ollama service unavailable: " + e))
  }

  /** `pull_model`: the name is validated before the server is asked. */
  function PullModel(name: string, pullSucceeds: bool): (ok: bool)
    ensures ok <==> ValidateModelName(name).Valid? && pullSucceeds
  {
    match ValidateModelName(name)
    case Invalid(_) => false
    case Valid => pullSucceeds
  }

  /** `ensure_base_model_available`: `listed` is the server's model list, or
      `None` when listing raised. A failed pull is not noticed. */
  function EnsureBaseModelAvailable(c: ClientState, listed: Option<set<string>>, pullSucceeds: bool): (ok: bool)
    ensures ok <==> listed.Some?
  {
    match listed
    case None => false
    case Some(names) =>
      var _ := if c.baseModel !in names then PullModel(c.baseModel, pullSucceeds) else true;
      true
  }

  /** `load_model`: `listed` as above; `chatSucceeds` says whether the
      warm-up chat went through. */
  function LoadModel(c: ClientState, name: string, listed: Option<set<string>>, chatSucceeds: bool): (r: (ClientState, bool))
    ensures r.1 <==> ValidateModelName(name).Valid? && listed.Some? && name in listed.value && chatSucceeds
    ensures r.1 ==> r.0 == c.(loaded := c.loaded + {name})
    ensures !r.1 ==> r.0 == c
  {
    if ValidateModelName(name).Invalid? then (c, false)
    else match listed
      case None => (c, false)
      case Some(names) =>
        if name !in names || !chatSucceeds then (c, false)
        else (c.(loaded := c.loaded + {name}), true)
  }

  /** `unload_model`. */
  function UnloadModel(c: ClientState, name: string): (r: (ClientState, bool))
    ensures r.1 && name !in r.0.loaded && r.0.loaded == c.loaded - {name} && r.0.training == c.training
  {
    (c.(loaded := c.loaded - {name}), true)
  }

  /** `delete_model`: `deleted` says whether `client.delete` went through. */
  function DeleteModel(c: ClientState, name: string, deleted: bool): (r: (ClientState, bool))
    ensures r.1 == deleted
    ensures deleted ==> r.0.loaded == c.loaded - {name}
    ensures !deleted ==> r.0 == c
  {
    if deleted then (c.(loaded := c.loaded - {name}), true) else (c, false)
  }

  /** A context entry; a missing key is `None`. */
  datatype ContextEntry = ContextEntry(role: Option<string>, content: Option<string>)

  datatype ChatMessage = ChatMessage(role: string, content: string)

  const ContextWindow := 5

  function ToChat(e: ContextEntry): ChatMessage {
    ChatMessage(e.role.GetOr("user"), e.content.GetOr(""))
  }

  /** The `messages` list of `generate_response`: the last five context
      entries (all of them when there are fewer), then the prompt as a user
      message. */
  function BuildChatMessages(context: seq<ContextEntry>, prompt: string): (r: seq<ChatMessage>)
    ensures |r| == TextProcessor.Min(|context|, ContextWindow) + 1
    ensures r[|r| - 1] == ChatMessage("user", prompt)
    ensures forall i :: 0 <= i < |r| - 1 ==> r[i] == ToChat(context[|context| - (|r| - 1) + i])
  {
    var tail := if |context| <= ContextWindow then context else context[|context| - ContextWindow..];
    seq(|tail|, i requires 0 <= i < |tail| => ToChat(tail[i])) + [ChatMessage("user", prompt)]
  }

  /** Only the last five context entries matter: earlier history never
      reaches the model, each sent entry is the matching context entry with
      its defaults filled in, and a context of five or fewer goes out whole
      and in order. */
  lemma ChatMessagesUseLastFive(older: seq<ContextEntry>, recent: seq<ContextEntry>, prompt: string)
    ensures |recent| >= ContextWindow ==> BuildChatMessages(older + recent, prompt) == BuildChatMessages(recent, prompt)
    ensures |recent| >= ContextWindow ==> forall i :: 0 <= i < ContextWindow ==>
      BuildChatMessages(recent, prompt)[i] == ToChat(recent[|recent| - ContextWindow + i])
    ensures |recent| <= ContextWindow ==> forall i :: 0 <= i < |recent| ==>
      BuildChatMessages(recent, prompt)[i] == ToChat(recent[i])
  {
    if |recent| >= ContextWindow {
      var all := older + recent;
      assert all[|all| - ContextWindow..] == recent[|recent| - ContextWindow..];
    }
  }

  /** What `generate_response` did: the state after a possible load, the
      messages sent (if it got that far) and the stripped reply. */
  datatype Generation = Generation(client: ClientState, sent: Option<seq<ChatMessage>>, reply: Option<string>)

  /** `generate_response`. `listed` and `loadChatSucceeds` feed the load
      attempt made only when the model is not in the loaded set; `answer` is
      the reply's content, or `None` when the chat call raised. */
  function GenerateResponse(c: ClientState, name: string, prompt: string, context: seq<ContextEntry>,
                            listed: Option<set<string>>, loadChatSucceeds: bool, answer: Option<string>): (g: Generation)
    ensures name in c.loaded ==> g.client == c && g.sent == Some(BuildChatMessages(context, prompt))
    ensures name !in c.loaded ==> g.client == LoadModel(c, name, listed, loadChatSucceeds).0
    ensures name !in c.loaded && !LoadModel(c, name, listed, loadChatSucceeds).1 ==> g.sent.None? && g.reply.None?
    ensures g.sent.Some? ==> name in g.client.loaded && g.sent == Some(BuildChatMessages(context, prompt))
    ensures g.reply.Some? ==> g.sent.Some? && answer.Some? && g.reply.value == Strip(answer.value)
    ensures name !in c.loaded && LoadModel(c, name, listed, loadChatSucceeds).1 ==> g.sent.Some?
    ensures g.sent.Some? && answer.Some? ==> g.reply == Some(Strip(answer.value))
    ensures answer.None? ==> g.reply.None?
  {
    var (c', ready) := if name in c.loaded then (c, true) else LoadModel(c, name, listed, loadChatSucceeds);
    if !ready then Generation(c', None, None)
    else
      var messages := BuildChatMessages(context, prompt);
      match answer
      case None => Generation(c', Some(messages), None)
      case Some(text) => Generation(c', Some(messages), Some(Strip(text)))
  }

  // ---------------------------------------------------------------------------
  // cleanup_old_models
  // ---------------------------------------------------------------------------

  /** The generic sweep: every listed name `stale` selects is deleted, and
      counted when the deletion went through (`deletable`). */
  function Sweep(c: ClientState, models: seq<string>, stale: string -> bool, deletable: set<string>): (r: (ClientState, nat))
    ensures r.1 <= |models|
    ensures r.0.loaded == c.loaded - (set m | m in models && stale(m) && m in deletable)
    ensures r.0.training == c.training && r.0.baseModel == c.baseModel
    decreases |models|
  {
    if |models| == 0 then (c, 0)
    else
      var name := models[0];
      var (c1, n1) := if stale(name) then DeleteModel(c, name, name in deletable) else (c, false);
      var (c2, n) := Sweep(c1, models[1..], stale, deletable);
      assert forall m :: m in models <==> m == name || m in models[1..];
      (c2, n + if n1 then 1 else 0)
  }
  /** Splitting off the head of a list with no repeats splits the set of
      names a sweep deletes. */
  lemma SelectedSplit(models: seq<string>, stale: string -> bool, deletable: set<string>)
    requires |models| > 0 && models[0] !in models[1..]
    ensures var all := set m | m in models && stale(m) && m in deletable;
      var later := set m | m in models[1..] && stale(m) && m in deletable;
      |all| == |later| + (if stale(models[0]) && models[0] in deletable then 1 else 0)
  {
    var all := set m | m in models && stale(m) && m in deletable;
    var later := set m | m in models[1..] && stale(m) && m in deletable;
    assert forall m :: m in models <==> m == models[0] || m in models[1..];
    if stale(models[0]) && models[0] in deletable {
      assert all == later + {models[0]};
    } else {
      assert all == later;
    }
  }

  /** The count the sweep returns is the number of models it deleted: the
      listed names that are stale and that the server deletes. Model names
      listed by the server are distinct. */
  lemma {:induction false} SweepCountsDeleted(c: ClientState, models: seq<string>, stale: string -> bool, deletable: set<string>)
    requires forall i, j :: 0 <= i < j < |models| ==> models[i] != models[j]
    ensures Sweep(c, models, stale, deletable).1 == |set m | m in models && stale(m) && m in deletable|
    decreases |models|
  {
    if |models| > 0 {
      var name := models[0];
      var rest := models[1..];
      var c1 := if stale(name) then DeleteModel(c, name, name in deletable).0 else c;
      assert Sweep(c, models, stale, deletable).1
        == Sweep(c1, rest, stale, deletable).1 + (if stale(name) && name in deletable then 1 else 0);
      forall i, j | 0 <= i < j < |rest| ensures rest[i] != rest[j] {
        assert rest[i] == models[i + 1] && rest[j] == models[j + 1];
      }
      SweepCountsDeleted(c1, rest, stale, deletable);
      assert name !in rest by {
        forall k | 0 <= k < |rest| ensures rest[k] != name {
          assert rest[k] == models[k + 1];
        }
      }
      SelectedSplit(models, stale, deletable);
    }
  }



  /** A sweep whose test selects nothing deletes nothing. */
  lemma {:induction false} SweepWithoutStaleDeletesNothing(c: ClientState, models: seq<string>, stale: string -> bool, deletable: set<string>)
    requires forall i :: 0 <= i < |models| ==> !stale(models[i])
    ensures Sweep(c, models, stale, deletable) == (c, 0)
    decreases |models|
  {
    if |models| > 0 {
      assert forall i :: 0 <= i < |models| - 1 ==> models[1..][i] == models[i + 1];
      SweepWithoutStaleDeletesNothing(c, models[1..], stale, deletable);
    }
  }

  /** An echo model whose `stamp` text parses with `%Y%m%d_%H%M%S` to a time
      more than `daysOld` whole days before `now`; a failed parse skips the
      model. */
  predicate StaleByStamp(name: string, stamp: string, now: DateTime, daysOld: int)
    requires IsValidDateTime(now)
  {
    && HasPrefix(name, EchoPrefix)
    && match ParseCompactStamp(stamp)
       case Some(t) => DaysBetween(t, now) > daysOld
       case None => false
  }

  /** The age test as written: the stamp is the last '_'-separated segment. */
  predicate IsStaleAsWritten(name: string, now: DateTime, daysOld: int)
    requires IsValidDateTime(now)
  {
    StaleByStamp(name, LastSegment(name, '_'), now, daysOld)
  }

  /** `cleanup_old_models` as written. `models` is what `list_models`
      returned (empty when listing failed). */
  function CleanupOldModels(c: ClientState, models: seq<string>, now: DateTime, daysOld: int, deletable: set<string>): (r: (ClientState, nat))
    requires IsValidDateTime(now)
    ensures r.1 <= |models|
  {
    Sweep(c, models, name => IsStaleAsWritten(name, now, daysOld), deletable)
  }

  /** The last segment never holds the '_' the format demands, so no name is
      ever stale: the sweep deletes nothing, however old the models are. */
  lemma CleanupNeverDeletes(c: ClientState, models: seq<string>, now: DateTime, daysOld: int, deletable: set<string>)
    requires IsValidDateTime(now)
    ensures CleanupOldModels(c, models, now, daysOld, deletable) == (c, 0)
  {
    forall i | 0 <= i < |models|
      ensures !IsStaleAsWritten(models[i], now, daysOld)
    {
      assert ParseCompactStamp(LastSegment(models[i], '_')).None?;
    }
    SweepWithoutStaleDeletesNothing(c, models, name => IsStaleAsWritten(name, now, daysOld), deletable);
  }

  /** In particular a model this client named, created at `made`, survives
      any cleanup. */
  lemma GeneratedNamesAreNeverStale(user: nat, server: nat, made: DateTime, now: DateTime, daysOld: int)
    requires IsValidDateTime(made) && IsValidDateTime(now)
    ensures !IsStaleAsWritten(ModelName(user, server, made), now, daysOld)
  {
    assert ParseCompactStamp(LastSegment(ModelName(user, server, made), '_')).None?;
  }

  /** `"_".join(name.split("_")[-2:])`: the last two segments. */
  function LastTwoSegments(s: string): string {
    var last := LastSegment(s, '_');
    if |last| == |s| then s
    else LastSegment(s[..|s| - |last| - 1], '_') + "_" + last
  }

  /** The last two segments of a name ending in two '_'-free pieces. */
  lemma LastTwoSegmentsOfJoin(front: string, d: string, tm: string)
    requires '_' !in d && '_' !in tm
    ensures LastTwoSegments(front + "_" + d + "_" + tm) == d + "_" + tm
  {
    var left := front + ['_'] + d;
    var name := left + ['_'] + tm;
    assert name == front + "_" + d + "_" + tm;
    LastSegmentAfter(left, tm, '_');
    assert |LastSegment(name, '_')| != |name|;
    assert name[..|name| - |tm| - 1] == left;
    LastSegmentAfter(front, d, '_');
  }

  /** The stamp is recovered from a generated name. */
  lemma LastTwoSegmentsOfModelName(user: nat, server: nat, now: DateTime)
    requires IsValidDateTime(now)
    ensures LastTwoSegments(ModelName(user, server, now)) == CompactStamp(now)
  {
    var d, tm := StampDate(now), StampTime(now);
    assert '_' !in d && '_' !in tm by {
      assert forall i :: 0 <= i < |d| ==> IsDigit(d[i]);
      assert forall i :: 0 <= i < |tm| ==> IsDigit(tm[i]);
    }
    var front := EchoPrefix + NatToString(user) + "_server_" + NatToString(server);
    assert ModelName(user, server, now) == front + "_" + d + "_" + tm;
    LastTwoSegmentsOfJoin(front, d, tm);
  }

  /** The age test as evidently intended: parse the last two segments. */
  predicate IsStaleCorrected(name: string, now: DateTime, daysOld: int)
    requires IsValidDateTime(now)
  {
    StaleByStamp(name, LastTwoSegments(name), now, daysOld)
  }

  /** With the corrected test a generated name (four-digit year) is stale
      exactly when its model is more than `daysOld` days old. */
  lemma CorrectedStalenessOfGeneratedName(user: nat, server: nat, made: DateTime, now: DateTime, daysOld: int)
    requires IsValidDateTime(made) && IsValidDateTime(now) && made.date.year >= 1000
    ensures IsStaleCorrected(ModelName(user, server, made), now, daysOld) <==> DaysBetween(made, now) > daysOld
  {
    LastTwoSegmentsOfModelName(user, server, made);
    CompactStampRoundTrip(made);
  }

  /** `cleanup_old_models` with the corrected age test. */
  function CleanupOldModelsCorrected(c: ClientState, models: seq<string>, now: DateTime, daysOld: int, deletable: set<string>): (r: (ClientState, nat))
    requires IsValidDateTime(now)
    ensures r.0.loaded == c.loaded - (set m | m in models && IsStaleCorrected(m, now, daysOld) && m in deletable)
  {
    Sweep(c, models, name => IsStaleCorrected(name, now, daysOld), deletable)
  }

  /** The corrected sweep unloads an old generated model it could delete. */
  lemma CorrectedCleanupRemovesOldModel(c: ClientState, models: seq<string>, user: nat, server: nat,
                                        made: DateTime, now: DateTime, daysOld: int, deletable: set<string>)
    requires IsValidDateTime(made) && IsValidDateTime(now) && made.date.year >= 1000
    requires ModelName(user, server, made) in models && ModelName(user, server, made) in deletable
    requires DaysBetween(made, now) > daysOld
    ensures ModelName(user, server, made) !in CleanupOldModelsCorrected(c, models, now, daysOld, deletable).0.loaded
  {
    CorrectedStalenessOfGeneratedName(user, server, made, now, daysOld);
  }
}
