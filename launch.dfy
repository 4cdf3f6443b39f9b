/** Launch configuration: the paths an adapter is constructed with, the
    `modelName` setter's path rewrite, the prompt-template decision of the plus
    variant's `open`, and the argument vector handed to `spawn`
    (src/gpt4allplus.ts:40-78, 241-322; src/gpt4all.ts:24-34, 57-74).

    File-system answers (does a file exist, did a write succeed) and the host's
    home directory and platform are parameters. */
module Launch {
  import opened Common
  import opened JsText

  // ---------------------------------------------------------------------------
  // Decoder settings: `Object.entries(decoderConfig)` as a list in entry order.

  /** A decoder setting's value. Numbers are kept in the form `String(value)`
      renders them, since that is floating-point formatting. */
  datatype DecoderValue = Text(s: string) | Flag(b: bool) | Number(rendered: string)

  datatype Entry = Entry(key: string, value: DecoderValue)

  /** `String(value)`. */
  function Render(v: DecoderValue): string
  {
    match v
    case Text(s) => s
    case Flag(b) => if b then "true" else "false"
    case Number(r) => r
  }

  /** The `--key value` pairs pushed for the decoder settings: one pair per
      entry, in entry order. */
  function DecoderFlags(config: seq<Entry>): (r: seq<string>)
    decreases |config|
    ensures |r| == 2 * |config|
    ensures forall i :: 0 <= i < |config| ==>
      r[2 * i] == "--" + config[i].key && r[2 * i + 1] == Render(config[i].value)
  {
    if |config| == 0 then []
    else
      var last := config[|config| - 1];
      DecoderFlags(config[..|config| - 1]) + ["--" + last.key, Render(last.value)]
  }

  /** The `for … of Object.entries(decoderConfig)` loop: `spawnArgs.push` of
      each pair onto the base vector. */
  method PushDecoderFlags(base: seq<string>, config: seq<Entry>) returns (argv: seq<string>)
    ensures argv == base + DecoderFlags(config)
  {
    argv := base;
    var i := 0;
    while i < |config|
      invariant 0 <= i <= |config|
      invariant argv == base + DecoderFlags(config[..i])
    {
      assert config[..i + 1][..i] == config[..i];
      argv := argv + ["--" + config[i].key, Render(config[i].value)];
      i := i + 1;
    }
    assert config[..i] == config;
  }

  // ---------------------------------------------------------------------------
  // The argument vector.

  const TokenAmount: string := "10000"
  const TemplatePath: string := "./promptTemplate.txt"

  /** `${chatLogDirectory}/${chatLogName}.txt`. */
  function ChatLogPath(directory: string, chatLogName: string): string
  {
    directory + "/" + chatLogName + ".txt"
  }

  /** The plus variant's vector before the decoder flags: `modelNoTemplate()`
      or `modelWithTemplate()`. The value after `--load_log` is the chat log's
      path when that file exists and the empty string otherwise. Each option's
      value follows it: the model path, the temperature, the template path
      exactly when the template is chosen, the token amount and the log
      argument, which comes last. */
  function PlusBaseArgv(exe: string, modelPath: string, temperature: string, withTemplate: bool, logArgument: string): (r: seq<string>)
    ensures |r| == (if withTemplate then 12 else 10) && r[0] == exe
    ensures r[1] == "--model" && r[2] == modelPath && r[3] == "--no-animation" && r[4] == "--temp" && r[5] == temperature
    ensures r[6] == "--load_template" <==> withTemplate
    ensures withTemplate ==> r[7] == TemplatePath
    ensures r[|r| - 4] == "-n" && r[|r| - 3] == TokenAmount && r[|r| - 2] == "--load_log" && r[|r| - 1] == logArgument
  {
    [exe, "--model", modelPath, "--no-animation", "--temp", temperature]
    + (if withTemplate then ["--load_template", TemplatePath] else [])
    + ["-n", TokenAmount, "--load_log", logArgument]
  }

  /** The basic variant's vector before the decoder flags. */
  function BasicBaseArgv(exe: string, modelPath: string): (r: seq<string>)
    ensures |r| == 3 && r[0] == exe && r[1] == "--model" && r[2] == modelPath
  {
    [exe, "--model", modelPath]
  }

  /** A call of `spawn(command, args)`. */
  datatype SpawnCall = SpawnCall(command: string, args: seq<string>)

  /** `spawn(spawnArgs[0], spawnArgs.slice(1))`. */
  function ToSpawnCall(argv: seq<string>): (c: SpawnCall)
    requires |argv| > 0
    ensures [c.command] + c.args == argv
  {
    SpawnCall(argv[0], argv[1..])
  }

  /** Pushing the decoder pairs keeps the base vector in front and puts every
      pair after it in entry order; `spawn` gets the base's first element as
      the command. */
  lemma FlagsAfterBase(base: seq<string>, config: seq<Entry>)
    requires |base| > 0
    ensures var argv := base + DecoderFlags(config);
      && |argv| == |base| + 2 * |config|
      && argv[..|base|] == base
      && ToSpawnCall(argv) == SpawnCall(base[0], base[1..] + DecoderFlags(config))
      && (forall i :: 0 <= i < |config| ==>
            argv[|base| + 2 * i] == "--" + config[i].key && argv[|base| + 2 * i + 1] == Render(config[i].value))
  {
    var argv := base + DecoderFlags(config);
    assert argv[1..] == base[1..] + DecoderFlags(config);
    forall i | 0 <= i < |config|
      ensures argv[|base| + 2 * i] == "--" + config[i].key && argv[|base| + 2 * i + 1] == Render(config[i].value)
    {
      assert argv[|base| + 2 * i] == DecoderFlags(config)[2 * i];
      assert argv[|base| + 2 * i + 1] == DecoderFlags(config)[2 * i + 1];
    }
  }

  // ---------------------------------------------------------------------------
  // The prompt template of the plus variant's `open`.

  /** The template file's contents for a system message. */
  function SystemTemplate(systemMessage: string): string
  {
    "### Instruction:\n" + systemMessage + "\n### Prompt:\n%1\n### Response:"
  }

  /** What `open` does about the template file, given whether the file exists
      and whether writing it succeeds: the contents written (if any) and
      whether the template pair goes into the vector, or a rejected `open`. */
  datatype TemplateStep =
    | Prepared(written: Option<string>, withTemplate: bool)
    | WriteRejected  // the write in the `else if` branch is not guarded and rejects `open`

  /** The `if`/`else if` on the system message and the file's existence. A
      failed write in the first branch is logged and the vector stays without
      the template. */
  function PlanTemplate(systemMessage: string, templateExists: bool, writeSucceeds: bool): (r: TemplateStep)
    ensures r.WriteRejected? <==> templateExists && !writeSucceeds
    ensures r.Prepared? ==> (r.withTemplate <==> templateExists || (Trim(systemMessage) != "" && writeSucceeds))
    ensures r.Prepared? ==> (r.written.Some? <==> r.withTemplate)
    ensures r.Prepared? && r.written.Some? ==> r.written.value == SystemTemplate(systemMessage)
  {
    if Trim(systemMessage) != "" && !templateExists then
      if writeSucceeds then Prepared(Some(SystemTemplate(systemMessage)), true)
      else Prepared(None, false)
    else if templateExists then
      if writeSucceeds then Prepared(Some(SystemTemplate(systemMessage)), true)
      else WriteRejected
    else Prepared(None, false)
  }

  /** A blank system message does not keep an existing template out: the file
      is overwritten with an empty instruction and still loaded. */
  lemma BlankMessageOverwritesTemplate(systemMessage: string)
    requires Trim(systemMessage) == ""
    ensures PlanTemplate(systemMessage, true, true) == Prepared(Some(SystemTemplate(systemMessage)), true)
    ensures PlanTemplate(systemMessage, false, true) == Prepared(None, false)
  {
  }

  // ---------------------------------------------------------------------------
  // Paths.

  datatype Platform = Win32 | Darwin | Linux | OtherPlatform(name: string)

  /** The chat binary's name on the platforms the plus variant knows. */
  function ChatBinary(p: Platform): Option<string>
  {
    match p
    case Win32 => Some("chat-windows-latest-avx2.exe")
    case Darwin => Some("chat-macos-latest-avx2")
    case Linux => Some("chat-ubuntu-latest-avx2")
    case OtherPlatform(_) => None
  }

  /** The constructor's `switch (platform())`: the first "gpt4all" in the path
      becomes the platform's binary name; other platforms keep the path. */
  function PlatformExecutable(p: Platform, executablePath: string): (r: string)
    ensures ChatBinary(p).None? ==> r == executablePath
    ensures !Contains(executablePath, "gpt4all") ==> r == executablePath
  {
    match ChatBinary(p)
    case None => executablePath
    case Some(binary) => ReplaceFirst(executablePath, "gpt4all", binary)
  }

  /** The directory the default paths are built on: the piece after the first
      "file://" when the parent directory contains one. */
  function DefaultBase(parentDir: string): (r: string)
    ensures !Contains(parentDir, "file://") ==> r == parentDir
  {
    if Contains(parentDir, "file://") then Split(parentDir, "file://")[1] else parentDir
  }

  function DefaultExecutablePath(parentDir: string): string
  {
    DefaultBase(parentDir) + "/gpt4all"
  }

  function DefaultModelPath(parentDir: string, model: string): string
  {
    DefaultBase(parentDir) + "/models/" + model + ".bin"
  }

  /** The default parent directory `file://${homedir()}/.nomic` yields the
      plain home-relative directory; a parent without "file://" is used as is. */
  lemma DefaultBaseOfUrl(dir: string)
    requires !Contains(dir, "file://")
    ensures DefaultBase("file://" + dir) == dir
    ensures DefaultBase(dir) == dir
  {
    var url := "file://" + dir;
    assert OccursAt(url, "file://", 0);
    IndexOfIs(url, "file://", 0);
    assert url[7..] == dir;
    SplitSingleton(dir, "file://");
  }

  /** Substitution in the default executable path: with no "gpt4all" in the
      directory, the final path component becomes the platform's binary. */
  lemma DefaultExecutableSubstituted(p: Platform, dir: string)
    requires !Contains(dir, "gpt4all")
    ensures ChatBinary(p).Some? ==> PlatformExecutable(p, dir + "/gpt4all") == dir + "/" + ChatBinary(p).value
    ensures ChatBinary(p).None? ==> PlatformExecutable(p, dir + "/gpt4all") == dir + "/gpt4all"
  {
    var s := dir + "/gpt4all";
    forall j | 0 <= j < |dir| ensures !OccursAt(s, "gpt4all", j) {
      NoOccurrenceAcross(dir, "/gpt4all", "gpt4all", j);
    }
    assert OccursAt(s, "gpt4all", |dir| + 1);
    forall j | |dir| <= j < |dir| + 1 ensures !OccursAt(s, "gpt4all", j) {
      assert s[j] == '/';
    }
    if ChatBinary(p).Some? {
      ReplaceFirstAt(s, "gpt4all", ChatBinary(p).value, |dir| + 1);
      assert s[..|dir| + 1] == dir + "/";
      assert s[|dir| + 8..] == "";
    }
  }

  /** The `modelName` setter's rewrite of the model path: keep the text before
      the first ".bin", take as old name the piece after the first "/models/"
      (the text "undefined" when there is none, since that is what `replace`
      receives), replace its first occurrence by the new name and add ".bin". */
  function RenamedModelPath(modelPath: string, newName: string): (r: string)
    ensures EndsWith(r, ".bin")
  {
    var stem := Split(modelPath, ".bin")[0];
    var parts := Split(stem, "/models/");
    var oldName := if |parts| > 1 then parts[1] else "undefined";
    ReplaceFirst(stem, oldName, newName) + ".bin"
  }

  /** On a path of the default shape `dir/models/<old>.bin`, the setter swaps
      the model name and keeps the directory, provided the directory has no
      "/models/" of its own, the old name contains no '/', and neither ".bin"
      nor the old name occurs earlier in the path. */
  lemma RenameDefaultShape(dir: string, oldName: string, newName: string)
    requires IndexOf(dir + "/models/", "/models/") == Some(|dir|)
    requires '/' !in oldName
    requires !Contains(dir + "/models/" + oldName, ".bin")
    requires !Contains(dir + "/models/", oldName)
    ensures RenamedModelPath(dir + "/models/" + oldName + ".bin", newName) == dir + "/models/" + newName + ".bin"
  {
    var stem := dir + "/models/" + oldName;
    var path := stem + ".bin";
    StemBeforeBin(stem);
    assert Split(path, ".bin")[0] == stem;
    OldNameAfterModels(dir, oldName);
    FirstOccurrenceOfName(dir, oldName);
    ReplaceFirstAt(stem, oldName, newName, |dir| + 8);
    assert stem[..|dir| + 8] == dir + "/models/";
    assert stem[|dir| + 8 + |oldName|..] == "";
  }

  /** Cutting at the first ".bin" of `stem + ".bin"` gives back `stem` when
      `stem` has no ".bin": no occurrence can straddle the boundary, because
      ".bin" has its only '.' first. */
  lemma StemBeforeBin(stem: string)
    requires !Contains(stem, ".bin")
    ensures Split(stem + ".bin", ".bin")[0] == stem
  {
    var path := stem + ".bin";
    forall j | 0 <= j < |stem| ensures !OccursAt(path, ".bin", j) {
      NoOccurrenceAcross(stem, ".bin", ".bin", j);
    }
    IndexOfIs(path, ".bin", |stem|);
    assert path[..|stem|] == stem;
  }

  /** The piece after the first "/models/" of `dir/models/<old>` is `old`. */
  lemma OldNameAfterModels(dir: string, oldName: string)
    requires IndexOf(dir + "/models/", "/models/") == Some(|dir|)
    requires '/' !in oldName
    ensures var parts := Split(dir + "/models/" + oldName, "/models/");
      |parts| > 1 && parts[1] == oldName
  {
    var head := dir + "/models/";
    var stem := head + oldName;
    forall j | 0 <= j < |dir| ensures !OccursAt(stem, "/models/", j) {
      OccursAtPrefix(stem, "/models/", |head|, j);
      assert stem[..|head|] == head;
    }
    assert OccursAt(stem, "/models/", |dir|) by {
      OccursAtPrefix(stem, "/models/", |head|, |dir|);
      assert stem[..|head|] == head;
    }
    IndexOfIs(stem, "/models/", |dir|);
    assert stem[|dir| + 8..] == oldName;
    if Contains(oldName, "/models/") {
      ContainsFirstChar(oldName, "/models/");
    }
    SplitSingleton(oldName, "/models/");
  }

  /** The first occurrence of `old` in `dir/models/<old>` is the last
      component: it cannot lie in `dir/models/`, and one crossing into the
      last component would contain the '/' before it. */
  lemma FirstOccurrenceOfName(dir: string, oldName: string)
    requires '/' !in oldName
    requires !Contains(dir + "/models/", oldName)
    ensures var stem := dir + "/models/" + oldName;
      OccursAt(stem, oldName, |dir| + 8) && forall j :: 0 <= j < |dir| + 8 ==> !OccursAt(stem, oldName, j)
  {
    var head := dir + "/models/";
    var stem := head + oldName;
    forall j | 0 <= j < |head| ensures !OccursAt(stem, oldName, j) {
      if j + |oldName| <= |head| {
        OccursAtPrefix(stem, oldName, |head|, j);
        assert stem[..|head|] == head;
      } else if j + |oldName| <= |stem| {
        assert stem[j..j + |oldName|][|head| - 1 - j] == '/';
      }
    }
    assert stem[|head|..] == oldName;
  }

  /** Only the first "gpt4all" is replaced: in "/gpt4all" + `rest` the
      directory gets the binary name and `rest` is kept whole, even when it
      holds "gpt4all" again (as the final component "/gpt4all" does). */
  lemma FirstGpt4allReplaced(rest: string)
    ensures PlatformExecutable(Linux, "/gpt4all" + rest) == "/chat-ubuntu-latest-avx2" + rest
  {
    var binary := "chat-ubuntu-latest-avx2";
    assert ChatBinary(Linux) == Some(binary);
    ReplaceAfterRoot(rest, binary);
  }

  lemma ReplaceAfterRoot(rest: string, binary: string)
    ensures ReplaceFirst("/gpt4all" + rest, "gpt4all", binary) == "/" + binary + rest
  {
    var s := "/gpt4all" + rest;
    assert s[1..8] == "gpt4all";
    assert !OccursAt(s, "gpt4all", 0) by { assert s[0..7][0] == '/'; }
    ReplaceFirstAt(s, "gpt4all", binary, 1);
    assert s[..1] == "/" && s[8..] == rest;
  }

  /** Without "/models/" the old name is "undefined": a path elsewhere keeps
      its model file although the name changes. */
  lemma RenameOutsideModelsKeepsPath()
    ensures RenamedModelPath("m.bin", "x") == "m.bin"
  {
    var path := "m.bin";
    assert OccursAt(path, ".bin", 1);
    assert !OccursAt(path, ".bin", 0) by { assert path[0] != ".bin"[0]; }
    IndexOfIs(path, ".bin", 1);
    assert Split(path, ".bin")[0] == "m";
    assert !Contains("m", "/models/") by {
      if Contains("m", "/models/") { ContainsFirstChar("m", "/models/"); }
    }
    SplitSingleton("m", "/models/");
    assert !Contains("m", "undefined") by {
      if Contains("m", "undefined") { ContainsFirstChar("m", "undefined"); }
    }
  }
}
