/** The adapter objects: `Gpt4AllPlus` (src/gpt4allplus.ts) and `GPT4All`
    (src/gpt4all.ts), their construction, `open`, `close` and `prompt`.

    The child process is abstract: a spawn is recorded with its command and
    arguments, processes are numbered in spawn order, and the process's
    'close' event and stdout chunks arrive as method calls. An `await` in the
    source becomes a state the object waits in until the event it awaits is
    delivered. */
module Sessions {
  import opened Common
  import opened JsText
  import opened Launch
  import opened Framing

  /** Process `p` is among those numbered from `lo` up to, not including, `hi`. */
  ghost predicate InRange(p: nat, lo: nat, hi: nat)
  {
    lo <= p < hi
  }

  /** The process numbers from `lo` up to, not including, `hi`. */
  ghost function Pids(lo: nat, hi: nat): set<nat>
  {
    set p: nat | lo <= p < hi && InRange(p, lo, hi)
  }

  /** The `#bot` slot of an adapter and what happened to the processes it
      held: spawns, kills, exits, stdin writes, and the listeners still
      waiting on the current process. */
  class BotHost {
    /** `#bot`: the number of the current process, or null. */
    var bot: Option<nat>
    /** Every `spawn` call, in order; process `i` is `spawns[i]`. */
    var spawns: seq<SpawnCall>
    /** Processes whose 'close' event has been emitted. */
    var exited: set<nat>
    /** Every `kill`, by process number. */
    var kills: seq<nat>
    /** 'close' listeners registered by `close` on the current process. */
    var closeListeners: nat
    /** Every `stdin.write`. */
    var stdinWrites: seq<string>
    /** The processes whose `open` still waits for the ready marker on their
        stdout: each `open` listens on the process it has just spawned. */
    var readyWaits: set<nat>

    ghost predicate Valid()
      reads this
    {
      && (bot.Some? ==> bot.value < |spawns|)
      && (forall p :: p in exited ==> p < |spawns|)
      && (forall p :: p in readyWaits ==> p < |spawns|)
      && (closeListeners > 0 ==> bot.Some?)
    }

    constructor ()
      ensures Valid() && bot.None? && spawns == [] && exited == {} && kills == []
      ensures closeListeners == 0 && stdinWrites == [] && readyWaits == {}
    {
      bot := None;
      spawns := [];
      exited := {};
      kills := [];
      closeListeners := 0;
      stdinWrites := [];
      readyWaits := {};
    }

    /** `close()`: with no process the promise resolves at once and nothing
        changes; otherwise a 'close' listener is added and the process is
        killed, and the promise resolves only when the process closes. */
    method Close() returns (resolvedNow: bool)
      requires Valid()
      modifies this
      ensures Valid()
      ensures resolvedNow <==> old(bot).None?
      ensures old(bot).None? ==> unchanged(this)
      ensures old(bot).Some? ==>
        bot == old(bot) && kills == old(kills) + [old(bot).value] && closeListeners == old(closeListeners) + 1
      ensures spawns == old(spawns) && exited == old(exited) && stdinWrites == old(stdinWrites)
        && readyWaits == old(readyWaits)
    {
      if bot.None? {
        resolvedNow := true;
      } else {
        closeListeners := closeListeners + 1;
        kills := kills + [bot.value];
        resolvedNow := false;
      }
    }

    /** Process `pid` emits 'close'. When it is the current process and
        `close` listeners wait on it, they run: `#bot` becomes null and every
        pending `close` promise resolves. A process that exits on its own
        leaves `#bot` pointing at it. */
    method ProcessClosed(pid: nat) returns (resolved: nat)
      requires Valid() && pid < |spawns| && pid !in exited
      modifies this
      ensures Valid()
      ensures exited == old(exited) + {pid}
      ensures resolved == (if old(bot) == Some(pid) then old(closeListeners) else 0)
      ensures resolved > 0 ==> bot.None? && closeListeners == 0
      ensures resolved == 0 ==> bot == old(bot) && closeListeners == old(closeListeners)
      ensures spawns == old(spawns) && kills == old(kills) && stdinWrites == old(stdinWrites)
        && readyWaits == old(readyWaits)
    {
      exited := exited + {pid};
      if bot == Some(pid) && closeListeners > 0 {
        resolved := closeListeners;
        bot := None;
        closeListeners := 0;
      } else {
        resolved := 0;
      }
    }

    /** `#bot = spawn(...)` followed by the ready wait of `open` on the new
        process. */
    method Spawn(call: SpawnCall)
      requires Valid()
      modifies this
      ensures Valid()
      ensures spawns == old(spawns) + [call] && bot == Some(|old(spawns)|)
      ensures closeListeners == 0 && readyWaits == old(readyWaits) + {|old(spawns)|}
      ensures exited == old(exited) && kills == old(kills) && stdinWrites == old(stdinWrites)
    {
      bot := Some(|spawns|);
      readyWaits := readyWaits + {|spawns|};
      spawns := spawns + [call];
      closeListeners := 0;
    }

    /** A stdout chunk of process `pid`, which has not closed, reaches the
        ready listener the `open` that spawned it attached; that `open`
        resolves on the first such chunk containing `>`. */
    method OnStdout(pid: nat, text: string) returns (readyNow: bool)
      requires Valid() && pid < |spawns| && pid !in exited
      modifies this
      ensures Valid()
      ensures readyNow <==> pid in old(readyWaits) && Contains(text, ">")
      ensures readyWaits == if readyNow then old(readyWaits) - {pid} else old(readyWaits)
      ensures bot == old(bot) && spawns == old(spawns) && exited == old(exited) && kills == old(kills)
        && closeListeners == old(closeListeners) && stdinWrites == old(stdinWrites)
    {
      readyNow := pid in readyWaits && Contains(text, ">");
      if readyNow {
        readyWaits := readyWaits - {pid};
      }
    }

    /** `#bot.stdin.write(text)`. */
    method Write(text: string)
      requires Valid()
      modifies this
      ensures Valid()
      ensures stdinWrites == old(stdinWrites) + [text]
      ensures bot == old(bot) && spawns == old(spawns) && exited == old(exited) && kills == old(kills)
        && closeListeners == old(closeListeners) && readyWaits == old(readyWaits)
    {
      stdinWrites := stdinWrites + [text];
    }
  }

  // ---------------------------------------------------------------------------
  // What `open` does once no process is left.

  /** An `open` call's inputs: the system message, the chat log's name, the
      `--load_log` value worked out before any `await`, and the file-system
      answers about the template file. */
  datatype OpenRequest = OpenRequest(
    systemMessage: string, chatLogName: string, logArgument: string,
    templateExists: bool, writeSucceeds: bool)

  /** How an `open` call proceeds: it spawned, it waits for the old process to
      close, or it rejected on the template write. */
  datatype OpenStatus = Launched(call: SpawnCall) | WaitingForClose | OpenRejected

  /** The value after `--load_log`: the log's path if that file exists. */
  function LogArgument(chatLogDirectory: string, chatLogName: string, chatLogExists: bool): (r: string)
    ensures r != "" <==> chatLogExists
    ensures chatLogExists ==> EndsWith(r, "/" + chatLogName + ".txt")
  {
    if chatLogExists then ChatLogPath(chatLogDirectory, chatLogName) else ""
  }

  /** The spawns among `statuses`, in order. */
  function LaunchedCalls(statuses: seq<OpenStatus>): seq<SpawnCall>
  {
    if |statuses| == 0 then []
    else
      var last := statuses[|statuses| - 1];
      LaunchedCalls(statuses[..|statuses| - 1]) + (if last.Launched? then [last.call] else [])
  }

  /** The plus variant's `open` after any old process has closed: the
      template decision, then the spawn of the full vector. The template pair
      (argument 5 of the spawn) is there exactly when the file existed or a
      non-blank message was written to it. */
  function PlusLaunch(exe: string, modelPath: string, temperature: string, config: seq<Entry>, req: OpenRequest): (s: OpenStatus)
    ensures !s.WaitingForClose?
    ensures s.OpenRejected? <==> req.templateExists && !req.writeSucceeds
    ensures s.Launched? ==> s.call.command == exe && |s.call.args| >= 9
    ensures s.Launched? ==>
      (s.call.args[5] == "--load_template" <==> req.templateExists || (Trim(req.systemMessage) != "" && req.writeSucceeds))
  {
    match PlanTemplate(req.systemMessage, req.templateExists, req.writeSucceeds)
    case WriteRejected => OpenRejected
    case Prepared(_, withTemplate) =>
      var base := PlusBaseArgv(exe, modelPath, temperature, withTemplate, req.logArgument);
      FlagsAfterBase(base, config);
      Launched(ToSpawnCall(base + DecoderFlags(config)))
  }

  /** The waiting `open` calls of the plus variant going on in order: one
      status per call, each that call's own launch. */
  function PlusLaunches(exe: string, modelPath: string, temperature: string, config: seq<Entry>, queue: seq<OpenRequest>): (r: seq<OpenStatus>)
    ensures |r| == |queue|
  {
    if |queue| == 0 then []
    else
      var init := PlusLaunches(exe, modelPath, temperature, config, queue[..|queue| - 1]);
      init + [PlusLaunch(exe, modelPath, temperature, config, queue[|queue| - 1])]
  }

  /** Status `k` is the launch of waiting call `k`, whatever came before. */
  lemma {:induction false} PlusLaunchesInOrder(exe: string, modelPath: string, temperature: string, config: seq<Entry>,
                                               queue: seq<OpenRequest>, k: nat)
    requires k < |queue|
    ensures PlusLaunches(exe, modelPath, temperature, config, queue)[k] == PlusLaunch(exe, modelPath, temperature, config, queue[k])
    decreases |queue|
  {
    var init := queue[..|queue| - 1];
    if k < |queue| - 1 {
      PlusLaunchesInOrder(exe, modelPath, temperature, config, init, k);
      assert init[k] == queue[k];
    }
  }

  lemma PlusLaunchesSnoc(exe: string, modelPath: string, temperature: string, config: seq<Entry>,
                         queue: seq<OpenRequest>, i: nat)
    requires i < |queue|
    ensures PlusLaunches(exe, modelPath, temperature, config, queue[..i + 1])
      == PlusLaunches(exe, modelPath, temperature, config, queue[..i]) + [PlusLaunch(exe, modelPath, temperature, config, queue[i])]
  {
    assert queue[..i + 1][..i] == queue[..i];
  }

  /** The template contents the plus variant's `open` writes. */
  function TemplateWrites(req: OpenRequest): (r: seq<string>)
    ensures |r| <= 1
    ensures r != [] <==> req.writeSucceeds && (req.templateExists || Trim(req.systemMessage) != "")
    ensures r != [] ==> r[0] == SystemTemplate(req.systemMessage)
  {
    match PlanTemplate(req.systemMessage, req.templateExists, req.writeSucceeds)
    case Prepared(Some(t), _) => [t]
    case _ => []
  }

  /** Every template write of the waiting `open` calls, in order. */
  function QueueTemplateWrites(queue: seq<OpenRequest>): (r: seq<string>)
    ensures |r| <= |queue|
  {
    if |queue| == 0 then []
    else QueueTemplateWrites(queue[..|queue| - 1]) + TemplateWrites(queue[|queue| - 1])
  }

  /** `chatName` after the waiting `open` calls: the log name of the last one
      that spawned, or `name` when none did. */
  function ChatNameAfter(name: string, queue: seq<OpenRequest>): string
  {
    if |queue| == 0 then name
    else
      var last := queue[|queue| - 1];
      if last.templateExists && !last.writeSucceeds then ChatNameAfter(name, queue[..|queue| - 1])
      else last.chatLogName
  }

  lemma QueueSnoc(name: string, queue: seq<OpenRequest>, i: nat)
    requires i < |queue|
    ensures QueueTemplateWrites(queue[..i + 1]) == QueueTemplateWrites(queue[..i]) + TemplateWrites(queue[i])
    ensures ChatNameAfter(name, queue[..i + 1]) ==
      (if queue[i].templateExists && !queue[i].writeSucceeds then ChatNameAfter(name, queue[..i]) else queue[i].chatLogName)
  {
    assert queue[..i + 1][..i] == queue[..i];
  }

  /** Where resuming the waiting `open` calls `queue` has left the host and
      the adapter: one status per request, the spawned calls appended, `#bot`
      the last process spawned, and the template writes and chat name of the
      requests that went on. */
  ghost predicate ResumedAfter(executablePath: string, modelPath: string, temperature: string, decoderConfig: seq<Entry>,
                               queue: seq<OpenRequest>, statuses: seq<OpenStatus>,
                               spawns0: seq<SpawnCall>, spawns: seq<SpawnCall>, bot: Option<nat>,
                               ready0: set<nat>, ready: set<nat>, writes0: seq<string>, writes: seq<string>,
                               name0: string, name: string)
  {
    && statuses == PlusLaunches(executablePath, modelPath, temperature, decoderConfig, queue)
    && spawns == spawns0 + LaunchedCalls(statuses)
    && bot == (if LaunchedCalls(statuses) == [] then None else Some(|spawns| - 1))
    && ready == ready0 + Pids(|spawns0|, |spawns|)
    && writes == writes0 + QueueTemplateWrites(queue)
    && name == ChatNameAfter(name0, queue)
  }

  /** One more waiting `open` going on, as `Gpt4AllPlus.Launch` describes it,
      extends `ResumedAfter` by that request. */
  lemma ResumedStep(executablePath: string, modelPath: string, temperature: string, decoderConfig: seq<Entry>,
                    queue: seq<OpenRequest>, i: nat, statuses: seq<OpenStatus>, s: OpenStatus,
                    spawns0: seq<SpawnCall>, spawns1: seq<SpawnCall>, spawns: seq<SpawnCall>, bot1: Option<nat>, bot: Option<nat>,
                    ready0: set<nat>, ready1: set<nat>, ready: set<nat>, writes0: seq<string>, writes1: seq<string>, writes: seq<string>,
                    name0: string, name1: string, name: string)
    requires i < |queue|
    requires ResumedAfter(executablePath, modelPath, temperature, decoderConfig, queue[..i], statuses,
                          spawns0, spawns1, bot1, ready0, ready1, writes0, writes1, name0, name1)
    requires s == PlusLaunch(executablePath, modelPath, temperature, decoderConfig, queue[i])
    requires spawns == spawns1 + LaunchedCalls([s]) && writes == writes1 + TemplateWrites(queue[i])
    requires s.Launched? ==> bot == Some(|spawns1|) && ready == ready1 + {|spawns1|} && name == queue[i].chatLogName
    requires s.OpenRejected? ==> bot == bot1 && ready == ready1 && name == name1
    ensures ResumedAfter(executablePath, modelPath, temperature, decoderConfig, queue[..i + 1], statuses + [s],
                         spawns0, spawns, bot, ready0, ready, writes0, writes, name0, name)
  {
    PlusLaunchesSnoc(executablePath, modelPath, temperature, decoderConfig, queue, i);
    SpawnStep(statuses, s, spawns0, spawns1, spawns, bot1, bot);
    ReadyStep(|spawns0|, |spawns1|, |spawns|, s.Launched?, ready0, ready1, ready);
    RequestStep(queue, i, s.OpenRejected?, writes0, writes1, writes, name0, name1, name);
  }

  /** The template-write and chat-name bookkeeping of `ResumedStep`. */
  lemma RequestStep(queue: seq<OpenRequest>, i: nat, rejected: bool,
                    writes0: seq<string>, writes1: seq<string>, writes: seq<string>, name0: string, name1: string, name: string)
    requires i < |queue| && rejected == (queue[i].templateExists && !queue[i].writeSucceeds)
    requires writes1 == writes0 + QueueTemplateWrites(queue[..i]) && writes == writes1 + TemplateWrites(queue[i])
    requires name1 == ChatNameAfter(name0, queue[..i])
    requires name == (if rejected then name1 else queue[i].chatLogName)
    ensures writes == writes0 + QueueTemplateWrites(queue[..i + 1])
    ensures name == ChatNameAfter(name0, queue[..i + 1])
  {
    QueueSnoc(name0, queue, i);
    assert writes0 + QueueTemplateWrites(queue[..i]) + TemplateWrites(queue[i])
        == writes0 + (QueueTemplateWrites(queue[..i]) + TemplateWrites(queue[i]));
  }

  /** The spawn bookkeeping of `ResumedStep`. */
  lemma SpawnStep(statuses: seq<OpenStatus>, s: OpenStatus, spawns0: seq<SpawnCall>, spawns1: seq<SpawnCall>, spawns: seq<SpawnCall>,
                  bot1: Option<nat>, bot: Option<nat>)
    requires spawns1 == spawns0 + LaunchedCalls(statuses)
    requires bot1 == (if LaunchedCalls(statuses) == [] then None else Some(|spawns1| - 1))
    requires spawns == spawns1 + LaunchedCalls([s])
    requires s.Launched? ==> bot == Some(|spawns1|)
    requires !s.Launched? ==> bot == bot1
    ensures |spawns| == |spawns1| + (if s.Launched? then 1 else 0)
    ensures spawns == spawns0 + LaunchedCalls(statuses + [s])
    ensures bot == (if LaunchedCalls(statuses + [s]) == [] then None else Some(|spawns| - 1))
  {
    LaunchedCallsSnoc(statuses, s);
    assert LaunchedCalls([s]) == (if s.Launched? then [s.call] else []) by { assert [s][..0] == []; }
    if s.Launched? {
      assert LaunchedCalls(statuses + [s]) == LaunchedCalls(statuses) + [s.call];
      assert |spawns| == |spawns1| + 1 && bot == Some(|spawns| - 1);
    } else {
      assert LaunchedCalls(statuses + [s]) == LaunchedCalls(statuses);
      assert spawns == spawns1 && bot == bot1;
    }
  }

  /** The ready-wait bookkeeping of `ResumedStep`: a spawn adds its own
      process number. */
  lemma ReadyStep(n0: nat, n1: nat, n: nat, launched: bool, ready0: set<nat>, ready1: set<nat>, ready: set<nat>)
    requires n0 <= n1 && ready1 == ready0 + Pids(n0, n1)
    requires launched ==> n == n1 + 1 && ready == ready1 + {n1}
    requires !launched ==> n == n1 && ready == ready1
    ensures ready == ready0 + Pids(n0, n)
  {
  }

  /** The basic variant's spawn. */
  function BasicLaunch(exe: string, modelPath: string, config: seq<Entry>): (c: SpawnCall)
    ensures c.command == exe && c.args == ["--model", modelPath] + DecoderFlags(config)
  {
    FlagsAfterBase(BasicBaseArgv(exe, modelPath), config);
    ToSpawnCall(BasicBaseArgv(exe, modelPath) + DecoderFlags(config))
  }

  /** `n` copies of the same spawn. */
  function Repeat(call: SpawnCall, n: nat): (r: seq<SpawnCall>)
    ensures |r| == n && forall k :: 0 <= k < n ==> r[k] == call
  {
    if n == 0 then [] else Repeat(call, n - 1) + [call]
  }

  lemma LaunchedCallsSnoc(statuses: seq<OpenStatus>, s: OpenStatus)
    ensures LaunchedCalls(statuses + [s]) == LaunchedCalls(statuses) + LaunchedCalls([s])
  {
    assert (statuses + [s])[..|statuses|] == statuses;
    assert [s][..0] == [];
  }

  // ---------------------------------------------------------------------------

  /** `Gpt4AllPlus`. */
  class Gpt4AllPlus {
    const host: BotHost
    var executablePath: string
    var modelPath: string
    var modelName: string
    var decoderConfig: seq<Entry>
    /** `String(this.modelTemperature)`. */
    var modelTemperature: string
    var chatLogDirectory: string
    var chatName: string
    /** `open` calls waiting for the old process to close, oldest first. */
    var pendingOpens: seq<OpenRequest>
    /** Every write of the prompt template file. */
    var templateWrites: seq<string>

    ghost predicate Valid()
      reads this, host
    {
      host.Valid() && (pendingOpens != [] ==> host.bot.Some? && host.closeListeners >= |pendingOpens|)
    }

    /** The settings only the constructor and the `modelName` setter change. */
    ghost function Settings(): (string, string, string, seq<Entry>, string, string)
      reads this
    {
      (executablePath, modelPath, modelName, decoderConfig, modelTemperature, chatLogDirectory)
    }

    /** The constructor, with `None` for an omitted argument: the default
        parent directory is `file://<home>/.nomic`, the default paths are
        built on it, and the platform's binary name is put into the
        executable path. */
    constructor (model: string, parentDir: Option<string>, executablePath: Option<string>, modelPath: Option<string>,
                 decoderConfig: seq<Entry>, home: string, platform: Platform)
      ensures Valid() && fresh(host)
      ensures var dir := if parentDir.Some? then parentDir.value else "file://" + home + "/.nomic";
        && this.executablePath == PlatformExecutable(platform, if executablePath.Some? then executablePath.value else DefaultExecutablePath(dir))
        && this.modelPath == (if modelPath.Some? then modelPath.value else DefaultModelPath(dir, model))
      ensures modelName == model && this.decoderConfig == decoderConfig
      ensures modelTemperature == "0.9" && chatLogDirectory == "./chats" && chatName == ""
      ensures pendingOpens == [] && templateWrites == []
      ensures host.bot.None? && host.spawns == [] && host.exited == {} && host.kills == []
      ensures host.closeListeners == 0 && host.stdinWrites == [] && host.readyWaits == {}
    {
      var dir := if parentDir.Some? then parentDir.value else "file://" + home + "/.nomic";
      var exe := if executablePath.Some? then executablePath.value else DefaultExecutablePath(dir);
      this.executablePath := PlatformExecutable(platform, exe);
      this.modelPath := if modelPath.Some? then modelPath.value else DefaultModelPath(dir, model);
      modelName := model;
      this.decoderConfig := decoderConfig;
      modelTemperature := "0.9";
      chatLogDirectory := "./chats";
      chatName := "";
      pendingOpens := [];
      templateWrites := [];
      host := new BotHost();
    }

    /** The `modelName` setter: the name changes and the model path is
        rewritten; the getter then returns the new name. */
    method SetModelName(name: string)
      modifies this
      ensures modelName == name && modelPath == RenamedModelPath(old(modelPath), name)
      ensures executablePath == old(executablePath) && decoderConfig == old(decoderConfig)
        && modelTemperature == old(modelTemperature) && chatLogDirectory == old(chatLogDirectory)
        && chatName == old(chatName) && pendingOpens == old(pendingOpens) && templateWrites == old(templateWrites)
    {
      modelPath := RenamedModelPath(modelPath, name);
      modelName := name;
    }

    /** `close()`: as `BotHost.Close`. */
    method Close() returns (resolvedNow: bool)
      requires Valid()
      modifies host
      ensures Valid()
      ensures resolvedNow <==> old(host.bot).None?
      ensures old(host.bot).None? ==> unchanged(host)
      ensures old(host.bot).Some? ==>
        host.bot == old(host.bot) && host.kills == old(host.kills) + [old(host.bot).value]
        && host.closeListeners == old(host.closeListeners) + 1
      ensures host.spawns == old(host.spawns) && host.exited == old(host.exited)
        && host.stdinWrites == old(host.stdinWrites) && host.readyWaits == old(host.readyWaits)
    {
      resolvedNow := host.Close();
    }

    /** The part of `open` after any old process has closed. */
    method Launch(req: OpenRequest) returns (status: OpenStatus)
      requires host.Valid()
      modifies this, host
      ensures host.Valid()
      ensures status == PlusLaunch(executablePath, modelPath, modelTemperature, decoderConfig, req)
      ensures host.spawns == old(host.spawns) + LaunchedCalls([status])
      ensures templateWrites == old(templateWrites) + TemplateWrites(req)
      ensures status.Launched? ==>
        host.bot == Some(|old(host.spawns)|) && host.closeListeners == 0
        && host.readyWaits == old(host.readyWaits) + {|old(host.spawns)|} && chatName == req.chatLogName
      ensures status.OpenRejected? ==>
        host.bot == old(host.bot) && host.closeListeners == old(host.closeListeners) && chatName == old(chatName)
        && host.readyWaits == old(host.readyWaits)
      ensures host.exited == old(host.exited) && host.kills == old(host.kills) && host.stdinWrites == old(host.stdinWrites)
      ensures Settings() == old(Settings()) && pendingOpens == old(pendingOpens)
    {
      var plan := PlanTemplate(req.systemMessage, req.templateExists, req.writeSucceeds);
      if plan.WriteRejected? {
        status := OpenRejected;
        assert LaunchedCalls([status]) == [] by { assert [status][..0] == []; }
      } else {
        if plan.written.Some? {
          templateWrites := templateWrites + [plan.written.value];
        }
        var call := SpawnChat(plan.withTemplate, req.logArgument);
        chatName := req.chatLogName;
        status := Launched(call);
        assert LaunchedCalls([status]) == [call] by { assert [status][..0] == []; }
      }
    }

    /** The `spawn` of `open`: the base vector, the decoder flags after it, and
        the new process held in `#bot`. */
    method SpawnChat(withTemplate: bool, logArgument: string) returns (call: SpawnCall)
      requires host.Valid()
      modifies host
      ensures host.Valid()
      ensures call == ToSpawnCall(PlusBaseArgv(executablePath, modelPath, modelTemperature, withTemplate, logArgument)
                                  + DecoderFlags(decoderConfig))
      ensures host.spawns == old(host.spawns) + [call] && host.bot == Some(|old(host.spawns)|)
      ensures host.closeListeners == 0 && host.readyWaits == old(host.readyWaits) + {|old(host.spawns)|}
      ensures host.exited == old(host.exited) && host.kills == old(host.kills) && host.stdinWrites == old(host.stdinWrites)
    {
      var base := PlusBaseArgv(executablePath, modelPath, modelTemperature, withTemplate, logArgument);
      var argv := PushDecoderFlags(base, decoderConfig);
      call := ToSpawnCall(argv);
      host.Spawn(call);
    }

    /** `open(systemMessage, chatLogName)`: with a process still held it
        closes that first and waits; otherwise it spawns now. */
    method Open(systemMessage: string, chatLogName: string, chatLogExists: bool, templateExists: bool, writeSucceeds: bool)
      returns (status: OpenStatus)
      requires Valid()
      modifies this, host
      ensures Valid()
      ensures Settings() == old(Settings())
      ensures var req := OpenRequest(systemMessage, chatLogName, LogArgument(chatLogDirectory, chatLogName, chatLogExists),
                                     templateExists, writeSucceeds);
        && (old(host.bot).Some? ==>
              && status == WaitingForClose && pendingOpens == old(pendingOpens) + [req]
              && host.bot == old(host.bot) && host.spawns == old(host.spawns)
              && host.kills == old(host.kills) + [old(host.bot).value]
              && host.closeListeners == old(host.closeListeners) + 1
              && host.exited == old(host.exited) && host.stdinWrites == old(host.stdinWrites)
              && host.readyWaits == old(host.readyWaits)
              && templateWrites == old(templateWrites) && chatName == old(chatName))
        && (old(host.bot).None? ==>
              && status == PlusLaunch(executablePath, modelPath, modelTemperature, decoderConfig, req)
              && pendingOpens == old(pendingOpens)
              && host.spawns == old(host.spawns) + LaunchedCalls([status])
              && templateWrites == old(templateWrites) + TemplateWrites(req)
              && host.exited == old(host.exited) && host.kills == old(host.kills) && host.stdinWrites == old(host.stdinWrites)
              && (status.Launched? ==>
                    host.bot == Some(|old(host.spawns)|) && chatName == chatLogName
                    && host.readyWaits == old(host.readyWaits) + {|old(host.spawns)|} && host.closeListeners == 0)
              && (status.OpenRejected? ==>
                    host.bot == old(host.bot) && chatName == old(chatName)
                    && host.readyWaits == old(host.readyWaits) && host.closeListeners == old(host.closeListeners)))
    {
      var req := OpenRequest(systemMessage, chatLogName, LogArgument(chatLogDirectory, chatLogName, chatLogExists),
                             templateExists, writeSucceeds);
      if host.bot.Some? {
        var _ := host.Close();
        pendingOpens := pendingOpens + [req];
        status := WaitingForClose;
      } else {
        status := Launch(req);
      }
    }

    /** Process `pid` emits 'close'. When that resolves the `close` promises,
        every waiting `open` goes on, oldest first, each spawning a process of
        its own; `#bot` ends up holding the last one spawned. */
    method OnProcessClose(pid: nat) returns (closesResolved: nat, statuses: seq<OpenStatus>)
      requires Valid() && pid < |host.spawns| && pid !in host.exited
      modifies this, host
      ensures Valid()
      ensures Settings() == old(Settings())
      ensures host.exited == old(host.exited) + {pid}
      ensures host.kills == old(host.kills) && host.stdinWrites == old(host.stdinWrites)
      ensures closesResolved == (if old(host.bot) == Some(pid) then old(host.closeListeners) else 0)
      ensures closesResolved == 0 ==>
        && statuses == [] && pendingOpens == old(pendingOpens) && host.spawns == old(host.spawns)
        && host.bot == old(host.bot) && host.closeListeners == old(host.closeListeners)
        && host.readyWaits == old(host.readyWaits)
        && templateWrites == old(templateWrites) && chatName == old(chatName)
      ensures closesResolved > 0 ==>
        && pendingOpens == []
        && statuses == PlusLaunches(executablePath, modelPath, modelTemperature, decoderConfig, old(pendingOpens))
        && host.spawns == old(host.spawns) + LaunchedCalls(statuses)
        && host.bot == (if LaunchedCalls(statuses) == [] then None else Some(|host.spawns| - 1))
        && host.closeListeners == 0
        && host.readyWaits == old(host.readyWaits) + Pids(|old(host.spawns)|, |host.spawns|)
        && templateWrites == old(templateWrites) + QueueTemplateWrites(old(pendingOpens))
        && chatName == ChatNameAfter(old(chatName), old(pendingOpens))
    {
      closesResolved := host.ProcessClosed(pid);
      statuses := [];
      if closesResolved > 0 {
        statuses := ResumeOpens();
      }
    }

    /** The waiting `open` calls going on in order once `close` resolved:
        the queue is emptied and each request spawns as `open` would. */
    method ResumeOpens() returns (statuses: seq<OpenStatus>)
      requires host.Valid() && host.bot.None?
      modifies this, host
      ensures host.Valid() && pendingOpens == []
      ensures statuses == PlusLaunches(executablePath, modelPath, modelTemperature, decoderConfig, old(pendingOpens))
      ensures host.spawns == old(host.spawns) + LaunchedCalls(statuses)
      ensures host.bot == (if LaunchedCalls(statuses) == [] then None else Some(|host.spawns| - 1))
      ensures host.closeListeners == 0
      ensures host.readyWaits == old(host.readyWaits) + Pids(|old(host.spawns)|, |host.spawns|)
      ensures host.exited == old(host.exited) && host.kills == old(host.kills) && host.stdinWrites == old(host.stdinWrites)
      ensures templateWrites == old(templateWrites) + QueueTemplateWrites(old(pendingOpens))
      ensures chatName == ChatNameAfter(old(chatName), old(pendingOpens))
      ensures Settings() == old(Settings())
    {
      var queue := pendingOpens;
      pendingOpens := [];
      statuses := LaunchAll(queue);
    }

    /** The loop over the waiting requests, each launching as `Launch` states. */
    method LaunchAll(queue: seq<OpenRequest>) returns (statuses: seq<OpenStatus>)
      requires host.Valid() && host.bot.None?
      modifies this, host
      ensures host.Valid() && host.closeListeners == 0
      ensures ResumedAfter(executablePath, modelPath, modelTemperature, decoderConfig, queue, statuses,
                           old(host.spawns), host.spawns, host.bot, old(host.readyWaits), host.readyWaits,
                           old(templateWrites), templateWrites, old(chatName), chatName)
      ensures host.exited == old(host.exited) && host.kills == old(host.kills) && host.stdinWrites == old(host.stdinWrites)
      ensures Settings() == old(Settings()) && pendingOpens == old(pendingOpens)
    {
      statuses := [];
      var i := 0;
      while i < |queue|
        invariant 0 <= i <= |queue|
        invariant host.Valid() && pendingOpens == old(pendingOpens)
        invariant host.exited == old(host.exited) && host.kills == old(host.kills) && host.stdinWrites == old(host.stdinWrites)
        invariant Settings() == old(Settings())
        invariant host.closeListeners == 0
        invariant ResumedAfter(executablePath, modelPath, modelTemperature, decoderConfig, queue[..i], statuses,
                               old(host.spawns), host.spawns, host.bot, old(host.readyWaits), host.readyWaits,
                               old(templateWrites), templateWrites, old(chatName), chatName)
      {
        statuses := ResumeNext(queue, i, statuses, old(host.spawns), old(host.readyWaits), old(templateWrites), old(chatName));
        i := i + 1;
      }
      assert queue[..i] == queue;
    }

    /** The `i`-th waiting `open` going on after those before it. */
    method ResumeNext(queue: seq<OpenRequest>, i: nat, statuses: seq<OpenStatus>,
                      ghost spawns0: seq<SpawnCall>, ghost ready0: set<nat>, ghost writes0: seq<string>, ghost name0: string)
      returns (next: seq<OpenStatus>)
      requires i < |queue| && host.Valid() && host.closeListeners == 0
      requires ResumedAfter(executablePath, modelPath, modelTemperature, decoderConfig, queue[..i], statuses,
                            spawns0, host.spawns, host.bot, ready0, host.readyWaits, writes0, templateWrites, name0, chatName)
      modifies this, host
      ensures host.Valid()
      ensures ResumedAfter(executablePath, modelPath, modelTemperature, decoderConfig, queue[..i + 1], next,
                           spawns0, host.spawns, host.bot, ready0, host.readyWaits, writes0, templateWrites, name0, chatName)
      ensures host.exited == old(host.exited) && host.kills == old(host.kills) && host.stdinWrites == old(host.stdinWrites)
      ensures host.closeListeners == 0
      ensures Settings() == old(Settings()) && pendingOpens == old(pendingOpens)
    {
      ghost var spawns1, bot1, ready1, writes1, name1 := host.spawns, host.bot, host.readyWaits, templateWrites, chatName;
      var s := Launch(queue[i]);
      ResumedStep(executablePath, modelPath, modelTemperature, decoderConfig, queue, i, statuses, s,
                  spawns0, spawns1, host.spawns, bot1, host.bot, ready0, ready1, host.readyWaits,
                  writes0, writes1, templateWrites, name0, name1, chatName);
      next := statuses + [s];
    }

    /** A stdout chunk of process `pid` outside any exchange: it can resolve
        the `open` that spawned that process, once. */
    method OnStdout(pid: nat, text: string) returns (readyNow: bool)
      requires Valid() && pid < |host.spawns| && pid !in host.exited
      modifies host
      ensures Valid()
      ensures readyNow <==> pid in old(host.readyWaits) && Contains(text, ">")
      ensures host.readyWaits == if readyNow then old(host.readyWaits) - {pid} else old(host.readyWaits)
      ensures host.bot == old(host.bot) && host.spawns == old(host.spawns) && host.exited == old(host.exited)
        && host.kills == old(host.kills) && host.closeListeners == old(host.closeListeners)
        && host.stdinWrites == old(host.stdinWrites)
    {
      readyNow := host.OnStdout(pid, text);
    }

    /** `prompt(text)`: without a process it throws "Bot is not initialised"
        and writes nothing; otherwise it writes the line to stdin and starts a
        4000 ms-quiescence exchange. */
    method Prompt(text: string) returns (error: Option<string>, exchange: PendingExchange?)
      requires Valid()
      modifies host
      ensures Valid()
      ensures old(host.bot).None? ==> error == Some("Bot is not initialised") && exchange == null && unchanged(host)
      ensures old(host.bot).Some? ==>
        && error.None? && exchange != null && fresh(exchange)
        && exchange.variant == Plus && exchange.Valid() && exchange.events == []
        && host.stdinWrites == old(host.stdinWrites) + [text + "\n"]
        && host.bot == old(host.bot) && host.spawns == old(host.spawns) && host.exited == old(host.exited)
        && host.kills == old(host.kills) && host.closeListeners == old(host.closeListeners)
        && host.readyWaits == old(host.readyWaits)
    {
      if host.bot.None? {
        error := Some("Bot is not initialised");
        exchange := null;
      } else {
        host.Write(text + "\n");
        error := None;
        exchange := new PendingExchange(Plus);
      }
    }
  }

  /** `GPT4All`. */
  class Gpt4All {
    const host: BotHost
    var executablePath: string
    var modelPath: string
    var decoderConfig: seq<Entry>
    /** The number of `open` calls waiting for the old process to close. */
    var pendingOpens: nat

    ghost predicate Valid()
      reads this, host
    {
      host.Valid() && (pendingOpens > 0 ==> host.bot.Some? && host.closeListeners >= pendingOpens)
    }

    /** The constructor, with `None` for an omitted argument: the defaults are
        `<home>/.nomic/gpt4all` and `<home>/.nomic/models/<model>.bin`. */
    constructor (model: string, executablePath: Option<string>, modelPath: Option<string>, decoderConfig: seq<Entry>, home: string)
      ensures Valid() && fresh(host)
      ensures this.executablePath == (if executablePath.Some? then executablePath.value else home + "/.nomic/gpt4all")
      ensures this.modelPath == (if modelPath.Some? then modelPath.value else home + "/.nomic/models/" + model + ".bin")
      ensures this.decoderConfig == decoderConfig && pendingOpens == 0
      ensures host.bot.None? && host.spawns == [] && host.exited == {} && host.kills == []
      ensures host.closeListeners == 0 && host.stdinWrites == [] && host.readyWaits == {}
    {
      this.executablePath := if executablePath.Some? then executablePath.value else home + "/.nomic/gpt4all";
      this.modelPath := if modelPath.Some? then modelPath.value else home + "/.nomic/models/" + model + ".bin";
      this.decoderConfig := decoderConfig;
      pendingOpens := 0;
      host := new BotHost();
    }

    /** `close()`: as `BotHost.Close`. */
    method Close() returns (resolvedNow: bool)
      requires Valid()
      modifies host
      ensures Valid()
      ensures resolvedNow <==> old(host.bot).None?
      ensures old(host.bot).None? ==> unchanged(host)
      ensures old(host.bot).Some? ==>
        host.bot == old(host.bot) && host.kills == old(host.kills) + [old(host.bot).value]
        && host.closeListeners == old(host.closeListeners) + 1
      ensures host.spawns == old(host.spawns) && host.exited == old(host.exited)
        && host.stdinWrites == old(host.stdinWrites) && host.readyWaits == old(host.readyWaits)
    {
      resolvedNow := host.Close();
    }

    /** `open()`: with a process still held it closes that first and waits;
        otherwise it spawns `[exe, "--model", modelPath]` plus the decoder
        pairs. */
    method Open() returns (status: OpenStatus)
      requires Valid()
      modifies this, host
      ensures Valid()
      ensures old(host.bot).Some? ==>
        && status == WaitingForClose && pendingOpens == old(pendingOpens) + 1
        && host.bot == old(host.bot) && host.spawns == old(host.spawns)
        && host.kills == old(host.kills) + [old(host.bot).value]
        && host.closeListeners == old(host.closeListeners) + 1
        && host.exited == old(host.exited) && host.stdinWrites == old(host.stdinWrites)
        && host.readyWaits == old(host.readyWaits)
      ensures old(host.bot).None? ==>
        && status == Launched(BasicLaunch(executablePath, modelPath, decoderConfig)) && pendingOpens == old(pendingOpens)
        && host.spawns == old(host.spawns) + [status.call] && host.bot == Some(|old(host.spawns)|)
        && host.readyWaits == old(host.readyWaits) + {|old(host.spawns)|} && host.closeListeners == 0
        && host.exited == old(host.exited) && host.kills == old(host.kills) && host.stdinWrites == old(host.stdinWrites)
      ensures executablePath == old(executablePath) && modelPath == old(modelPath) && decoderConfig == old(decoderConfig)
    {
      if host.bot.Some? {
        var _ := host.Close();
        pendingOpens := pendingOpens + 1;
        status := WaitingForClose;
      } else {
        var argv := PushDecoderFlags(BasicBaseArgv(executablePath, modelPath), decoderConfig);
        host.Spawn(ToSpawnCall(argv));
        status := Launched(ToSpawnCall(argv));
      }
    }

    /** Process `pid` emits 'close': as in the plus variant, every waiting
        `open` then spawns, and `#bot` holds the last process. */
    method OnProcessClose(pid: nat) returns (closesResolved: nat, launched: nat)
      requires Valid() && pid < |host.spawns| && pid !in host.exited
      modifies this, host
      ensures Valid()
      ensures host.exited == old(host.exited) + {pid}
      ensures host.kills == old(host.kills) && host.stdinWrites == old(host.stdinWrites)
      ensures closesResolved == (if old(host.bot) == Some(pid) then old(host.closeListeners) else 0)
      ensures closesResolved == 0 ==>
        && launched == 0 && pendingOpens == old(pendingOpens) && host.spawns == old(host.spawns)
        && host.bot == old(host.bot) && host.closeListeners == old(host.closeListeners)
        && host.readyWaits == old(host.readyWaits)
      ensures closesResolved > 0 ==>
        && pendingOpens == 0 && launched == old(pendingOpens)
        && host.spawns == old(host.spawns) + Repeat(BasicLaunch(executablePath, modelPath, decoderConfig), launched)
        && host.bot == (if launched == 0 then None else Some(|host.spawns| - 1))
        && host.closeListeners == 0
        && host.readyWaits == old(host.readyWaits) + Pids(|old(host.spawns)|, |host.spawns|)
      ensures executablePath == old(executablePath) && modelPath == old(modelPath) && decoderConfig == old(decoderConfig)
    {
      closesResolved := host.ProcessClosed(pid);
      launched := 0;
      if closesResolved > 0 {
        var count := pendingOpens;
        pendingOpens := 0;
        var call := BasicLaunch(executablePath, modelPath, decoderConfig);
        while launched < count
          invariant 0 <= launched <= count
          invariant host.Valid() && pendingOpens == 0
          invariant host.spawns == old(host.spawns) + Repeat(call, launched)
          invariant host.bot == (if launched == 0 then None else Some(|host.spawns| - 1))
          invariant host.closeListeners == 0
          invariant host.readyWaits == old(host.readyWaits) + Pids(|old(host.spawns)|, |host.spawns|)
          invariant host.exited == old(host.exited) + {pid}
          invariant host.kills == old(host.kills) && host.stdinWrites == old(host.stdinWrites)
          invariant executablePath == old(executablePath) && modelPath == old(modelPath) && decoderConfig == old(decoderConfig)
        {
          host.Spawn(call);
          launched := launched + 1;
        }
      }
    }

    /** A stdout chunk of process `pid` outside any exchange: it can resolve
        the `open` that spawned that process, once. */
    method OnStdout(pid: nat, text: string) returns (readyNow: bool)
      requires Valid() && pid < |host.spawns| && pid !in host.exited
      modifies host
      ensures Valid()
      ensures readyNow <==> pid in old(host.readyWaits) && Contains(text, ">")
      ensures host.readyWaits == if readyNow then old(host.readyWaits) - {pid} else old(host.readyWaits)
      ensures host.bot == old(host.bot) && host.spawns == old(host.spawns) && host.exited == old(host.exited)
        && host.kills == old(host.kills) && host.closeListeners == old(host.closeListeners)
        && host.stdinWrites == old(host.stdinWrites)
    {
      readyNow := host.OnStdout(pid, text);
    }

    /** `prompt(text)`: without a process it throws "Bot is not initialised"
        and writes nothing; otherwise it writes the line to stdin and starts a
        marker-or-16000 ms exchange. */
    method Prompt(text: string) returns (error: Option<string>, exchange: PendingExchange?)
      requires Valid()
      modifies host
      ensures Valid()
      ensures old(host.bot).None? ==> error == Some("Bot is not initialised") && exchange == null && unchanged(host)
      ensures old(host.bot).Some? ==>
        && error.None? && exchange != null && fresh(exchange)
        && exchange.variant == Basic && exchange.Valid() && exchange.events == []
        && host.stdinWrites == old(host.stdinWrites) + [text + "\n"]
        && host.bot == old(host.bot) && host.spawns == old(host.spawns) && host.exited == old(host.exited)
        && host.kills == old(host.kills) && host.closeListeners == old(host.closeListeners)
        && host.readyWaits == old(host.readyWaits)
    {
      if host.bot.None? {
        error := Some("Bot is not initialised");
        exchange := null;
      } else {
        host.Write(text + "\n");
        error := None;
        exchange := new PendingExchange(Basic);
      }
    }
  }
}
