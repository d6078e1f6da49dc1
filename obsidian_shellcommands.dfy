/** The configuration of the Obsidian "Shell commands" plugin that md2ms installs
    (src/obsidian_shellcommands/mod.rs): the commands that export the manuscript
    and count its words, and the synchronisation that puts them into the
    plugin's command list. Loading and saving the JSON file are left to the
    caller; the random command ids are passed in. */
module ObsidianShellcommands {
  import opened Wrappers
  import opened Json
  import opened Paths
  import opened ObsidianPaths

  // ---------------------------------------------------------------------------
  // The configuration records. The empty records of the source (`Shells`,
  // `Events`, `VariableDefaultValues`, `DefaultShells`,
  // `EnvironmentVariablePathAugmentations`, `BuiltinVariables`) carry no data
  // and are not represented.

  datatype PlatformSpecificCommands = PlatformSpecificCommands(defaultCommand: string)
  datatype InputContents = InputContents(stdin: Value)
  /** `Stdout` and `Stderr`, which have the same fields. */
  datatype OutputHandler = OutputHandler(handler: string, convertAnsiCode: bool)
  datatype OutputHandlers = OutputHandlers(stdout: OutputHandler, stderr: OutputHandler)
  datatype OutputWrappers = OutputWrappers(stdout: Value, stderr: Value)

  datatype ShellCommand = ShellCommand(
    id: string,
    platformSpecificCommands: PlatformSpecificCommands,
    alias: string,
    icon: string,
    confirmExecution: bool,
    ignoreErrorCodes: seq<Value>,
    inputContents: InputContents,
    outputHandlers: OutputHandlers,
    outputWrappers: OutputWrappers,
    outputChannelOrder: string,
    outputHandlingMode: string,
    executionNotificationMode: string,
    debounce: Value,
    commandPaletteAvailability: string,
    preactions: seq<Value>)

  datatype ReExecuteLastShellCommand = ReExecuteLastShellCommand(enabled: bool, prefix: string)
  datatype CommandPalette = CommandPalette(reExecuteLastShellCommand: ReExecuteLastShellCommand)
  datatype CustomVariablesNotifyChangesVia = CustomVariablesNotifyChangesVia(obsidianUri: bool, outputAssignment: bool)

  /** The plugin's `data.json`; the durations are `i64` in the source. */
  datatype Root = Root(
    settingsVersion: string,
    debug: bool,
    obsidianCommandPalettePrefix: string,
    previewVariablesInCommandPalette: bool,
    showAutocompleteMenu: bool,
    workingDirectory: string,
    showInstallationWarnings: bool,
    errorMessageDuration: int,
    notificationMessageDuration: int,
    executionNotificationMode: string,
    outputChannelClipboardAlsoOutputsToNotification: bool,
    outputChannelNotificationDecoratesOutput: bool,
    outputChannelOrder: string,
    outputHandlingMode: string,
    enableEvents: bool,
    approveModalsByPressingEnterKey: bool,
    commandPalette: CommandPalette,
    maxVisibleLinesInShellCommandFields: bool,
    shellCommands: seq<ShellCommand>,
    prompts: seq<Value>,
    customVariables: seq<Value>,
    customVariablesNotifyChangesVia: CustomVariablesNotifyChangesVia,
    customShells: seq<Value>,
    outputWrappers: seq<Value>)

  /** `Root::new`: the settings of a fresh plugin installation, with no commands. */
  function RootNew(): (r: Root)
    ensures r.settingsVersion == "0.23.0" && r.shellCommands == []
    ensures r.errorMessageDuration == 20 && r.notificationMessageDuration == 10
  {
    Root("0.23.0", false, "Execute: ", true, true, "", true, 20, 10, "disabled", true, true, "", "",
         true, true, CommandPalette(ReExecuteLastShellCommand(false, "")), false, [], [], [],
         CustomVariablesNotifyChangesVia(false, false), [], [])
  }

  /** `ShellCommand::new`: a command with the given id and everything else empty;
      the argument list of the source is ignored and not represented. */
  function ShellCommandNew(id: string): (c: ShellCommand)
    ensures c.id == id && c.alias == [] && c.icon == [] && c.platformSpecificCommands.defaultCommand == []
    ensures c.ignoreErrorCodes == [] && c.preactions == [] && !c.confirmExecution
    ensures c.outputHandlers.stdout.handler == [] && c.outputHandlers.stderr.handler == []
    ensures c.outputChannelOrder == [] && c.outputHandlingMode == [] && c.executionNotificationMode == []
    ensures c.commandPaletteAvailability == []
  {
    ShellCommand(id, PlatformSpecificCommands(""), "", "", false, [], InputContents(Null),
                 OutputHandlers(OutputHandler("", false), OutputHandler("", false)),
                 OutputWrappers(Null, Null), "", "", "", Null, "", [])
  }

  // ---------------------------------------------------------------------------
  // The commands md2ms installs.

  const CLASSIC_ALIAS: string := "Export to Standard Manuscript Format (Classic)"
  const MODERN_ALIAS: string := "Export to Standard Manuscript Format (Modern)"
  const WORD_COUNT_ALIAS: string := "Word Count"
  const EXPORT_ALIAS: string := "Export to Standard Manuscript Format"

  /** `COMMANDS`: the aliases `sync` replaces, in the order it visits them. */
  const COMMANDS: seq<string> := [CLASSIC_ALIAS, MODERN_ALIAS, WORD_COUNT_ALIAS]

  /** The word-count command line; it is not a format string, so its braces are
      doubled in the saved command. */
  const WORD_COUNT_COMMAND: string := "md2ms compile --word-count {{folder_path:absolute}}"

  const NOTIFY: OutputHandler := OutputHandler("notification", true)

  /** `get_cmd_word_count`: counts the words of the folder, reporting in a
      notification. */
  function WordCountCommand(id: string): (c: ShellCommand)
    ensures c.id == id && c.alias == WORD_COUNT_ALIAS && c.icon == "lucide-book"
    ensures c.platformSpecificCommands.defaultCommand == WORD_COUNT_COMMAND
    ensures c.outputHandlers.stdout.handler == "notification" == c.outputHandlers.stderr.handler
    ensures c.commandPaletteAvailability == "enabled"
  {
    ShellCommandNew(id).(alias := WORD_COUNT_ALIAS, icon := "lucide-book",
                         platformSpecificCommands := PlatformSpecificCommands(WORD_COUNT_COMMAND),
                         outputHandlers := OutputHandlers(NOTIFY, NOTIFY),
                         commandPaletteAvailability := "enabled",
                         outputChannelOrder := "stdout-first",
                         outputHandlingMode := "buffered",
                         executionNotificationMode := "disabled")
  }

  /** The PII file of the vault folder: `PII.md` pushed onto the folder pushed
      onto the vault path. */
  function PiiPath(vaultPath: string, vaultFolder: string): string
  {
    Join(Join(vaultPath, vaultFolder), "PII.md")
  }

  /** The command line of `get_cmd_export_base`; the format string's `{{` and
      `}}` have become single braces. */
  function ExportBaseCommandLine(exportPath: string, pii: string): string
  {
    "md2ms compile {folder_path:absolute} --output-dir \"" + exportPath + "\" --pii \"" + pii + "\""
  }

  /** `get_cmd_export_base`: compiles the folder into the export directory with
      the vault's PII file; it has no alias yet. */
  function ExportBaseCommand(id: string, exportPath: string, pii: string): (c: ShellCommand)
    ensures c.id == id && c.alias == [] && c.icon == "lucide-book"
    ensures c.platformSpecificCommands.defaultCommand == ExportBaseCommandLine(exportPath, pii)
    ensures c.outputHandlers.stdout.handler == "notification" == c.outputHandlers.stderr.handler
  {
    ShellCommandNew(id).(icon := "lucide-book",
                         platformSpecificCommands := PlatformSpecificCommands(ExportBaseCommandLine(exportPath, pii)),
                         outputHandlers := OutputHandlers(NOTIFY, NOTIFY),
                         commandPaletteAvailability := "enabled")
  }

  /** `get_cmd_export_to_standard_manuscript_format`: the export command in the
      modern format. */
  function ExportCommand(id: string, exportPath: string, pii: string): (c: ShellCommand)
    ensures c.id == id && c.alias == EXPORT_ALIAS && c.alias !in COMMANDS
    ensures c.platformSpecificCommands.defaultCommand
            == "md2ms compile {folder_path:absolute} --output-dir \"" + exportPath + "\" --pii \"" + pii
               + "\" --modern"
  {
    var base := ExportBaseCommand(id, exportPath, pii);
    base.(alias := EXPORT_ALIAS,
          platformSpecificCommands := PlatformSpecificCommands(base.platformSpecificCommands.defaultCommand + " --modern"))
  }

  // ---------------------------------------------------------------------------
  // sync

  /** The commands whose alias is not `a`, in order (`retain`). */
  function WithoutAlias(cmds: seq<ShellCommand>, a: string): (r: seq<ShellCommand>)
    ensures |r| <= |cmds|
    ensures forall c <- r :: c.alias != a
  {
    if cmds == [] then []
    else
      var last := cmds[|cmds| - 1];
      WithoutAlias(cmds[..|cmds| - 1], a) + (if last.alias == a then [] else [last])
  }

  /** The commands whose alias is none of `aliases`, in order. */
  function WithoutAliases(cmds: seq<ShellCommand>, aliases: seq<string>): (r: seq<ShellCommand>)
    ensures forall c <- r :: c.alias !in aliases
  {
    if cmds == [] then []
    else
      var last := cmds[|cmds| - 1];
      WithoutAliases(cmds[..|cmds| - 1], aliases) + (if last.alias in aliases then [] else [last])
  }

  /** Some command has alias `a` (`iter().any`). */
  predicate HasAlias(cmds: seq<ShellCommand>, a: string)
  {
    exists c <- cmds :: c.alias == a
  }

  /** The number of commands with alias `a`. */
  function CountAlias(cmds: seq<ShellCommand>, a: string): nat
  {
    if cmds == [] then 0
    else CountAlias(cmds[..|cmds| - 1], a) + (if cmds[|cmds| - 1].alias == a then 1 else 0)
  }

  /** The commands `sync` does not manage, in order. */
  function Unmanaged(cmds: seq<ShellCommand>): seq<ShellCommand>
  {
    WithoutAliases(cmds, COMMANDS)
  }

  /** One pass of `sync`: drop the commands with the managed alias, then append
      the built command unless one with its alias is already there. */
  function SyncStep(cmds: seq<ShellCommand>, alias: string, c: ShellCommand): seq<ShellCommand>
  {
    var kept := WithoutAlias(cmds, alias);
    if HasAlias(kept, c.alias) then kept else kept + [c]
  }

  /** The command the `k`-th pass builds: the word count for `Word Count`, the
      export command otherwise. */
  function Built(k: nat, id: string, exportPath: string, pii: string): ShellCommand
    requires k < |COMMANDS|
  {
    if COMMANDS[k] == WORD_COUNT_ALIAS then WordCountCommand(id) else ExportCommand(id, exportPath, pii)
  }

  /** The command list after the first `n` passes of `sync`, the `k`-th pass
      using id `ids[k]`. */
  function SyncUpTo(cmds: seq<ShellCommand>, ids: seq<string>, n: nat, exportPath: string, pii: string)
    : seq<ShellCommand>
    requires n <= |COMMANDS| == |ids|
  {
    if n == 0 then cmds
    else SyncStep(SyncUpTo(cmds, ids, n - 1, exportPath, pii), COMMANDS[n - 1],
                  Built(n - 1, ids[n - 1], exportPath, pii))
  }

  /** The command list after `sync`. */
  function SyncAll(cmds: seq<ShellCommand>, ids: seq<string>, exportPath: string, pii: string)
    : seq<ShellCommand>
    requires |ids| == |COMMANDS|
  {
    SyncUpTo(cmds, ids, |COMMANDS|, exportPath, pii)
  }

  const DATA_FILE: string := "plugins/obsidian-shellcommands/data.json"

  /** `ObsidianShellcommands`: the plugin data, and where it lives. */
  class ObsidianShellcommands {
    var data: Root
    /** `obsidian.config_path` and `obsidian.vault_path`. */
    const configPath: string
    const vaultPath: string
    const exportPath: string
    const vaultFolder: string
    const overwrite: bool

    /** `ObsidianShellcommands::new`: `load` reads and parses a data file, or
        fails; a fresh configuration is used when it fails. */
    constructor(configPath: string, vaultPath: string, exportPath: string, vaultFolder: string,
                overwrite: bool, load: string -> Option<Root>)
      ensures this.configPath == configPath && this.vaultPath == vaultPath
      ensures this.exportPath == exportPath && this.vaultFolder == vaultFolder
      ensures this.overwrite == overwrite
      ensures var loaded := load(ConfigFile(configPath, DATA_FILE));
              data == if loaded.Some? then loaded.value else RootNew()
    {
      this.configPath := configPath;
      this.vaultPath := vaultPath;
      this.exportPath := exportPath;
      this.vaultFolder := vaultFolder;
      this.overwrite := overwrite;
      var path := configPath;
      if !EndsWithObsidian(path) {
        path := Join(path, OBSIDIAN_DIR);
      }
      path := Join(path, DATA_FILE);
      var root := RootNew();
      var loaded := load(path);
      if loaded.Some? {
        root := loaded.value;
      }
      data := root;
    }

    /** `get_cmd_word_count`, given the generated id. */
    method GetCmdWordCount(id: string) returns (c: ShellCommand)
      ensures c == WordCountCommand(id)
    {
      c := ShellCommandNew(id);
      c := c.(alias := WORD_COUNT_ALIAS);
      c := c.(icon := "lucide-book");
      c := c.(platformSpecificCommands := PlatformSpecificCommands(WORD_COUNT_COMMAND));
      c := c.(outputHandlers := c.outputHandlers.(stdout := c.outputHandlers.stdout.(handler := "notification")));
      c := c.(outputHandlers := c.outputHandlers.(stdout := c.outputHandlers.stdout.(convertAnsiCode := true)));
      c := c.(outputHandlers := c.outputHandlers.(stderr := c.outputHandlers.stderr.(handler := "notification")));
      c := c.(outputHandlers := c.outputHandlers.(stderr := c.outputHandlers.stderr.(convertAnsiCode := true)));
      c := c.(commandPaletteAvailability := "enabled");
      c := c.(outputChannelOrder := "stdout-first");
      c := c.(outputHandlingMode := "buffered");
      c := c.(executionNotificationMode := "disabled");
    }

    /** `get_cmd_export_base`, given the generated id. */
    method GetCmdExportBase(id: string) returns (c: ShellCommand)
      ensures c == ExportBaseCommand(id, exportPath, PiiPath(vaultPath, vaultFolder))
    {
      c := ShellCommandNew(id);
      c := c.(icon := "lucide-book");
      var pii := vaultPath;
      pii := Join(pii, vaultFolder);
      pii := Join(pii, "PII.md");
      c := c.(platformSpecificCommands := PlatformSpecificCommands(
        "md2ms compile {folder_path:absolute} --output-dir \"" + exportPath + "\" --pii \"" + pii + "\""));
      c := c.(outputHandlers := c.outputHandlers.(stdout := c.outputHandlers.stdout.(handler := "notification")));
      c := c.(outputHandlers := c.outputHandlers.(stdout := c.outputHandlers.stdout.(convertAnsiCode := true)));
      c := c.(outputHandlers := c.outputHandlers.(stderr := c.outputHandlers.stderr.(handler := "notification")));
      c := c.(outputHandlers := c.outputHandlers.(stderr := c.outputHandlers.stderr.(convertAnsiCode := true)));
      c := c.(commandPaletteAvailability := "enabled");
    }

    /** `get_cmd_export_to_standard_manuscript_format`, given the generated id. */
    method GetCmdExportToStandardManuscriptFormat(id: string) returns (c: ShellCommand)
      ensures c == ExportCommand(id, exportPath, PiiPath(vaultPath, vaultFolder))
    {
      c := GetCmdExportBase(id);
      c := c.(alias := EXPORT_ALIAS);
      c := c.(platformSpecificCommands := c.platformSpecificCommands.(
        defaultCommand := c.platformSpecificCommands.defaultCommand + " --modern"));
    }

    /** One pass of the loop in `sync`: the `i`-th managed alias. */
    method SyncPass(cmds: seq<ShellCommand>, ids: seq<string>, i: nat) returns (r: seq<ShellCommand>)
      requires i < |COMMANDS| == |ids|
      ensures r == SyncStep(cmds, COMMANDS[i], Built(i, ids[i], exportPath, PiiPath(vaultPath, vaultFolder)))
    {
      var command := COMMANDS[i];
      var c;
      if command == WORD_COUNT_ALIAS {
        c := GetCmdWordCount(ids[i]);
      } else {
        c := GetCmdExportToStandardManuscriptFormat(ids[i]);
      }
      r := Retain(cmds, command);
      var present := AnyAlias(r, c.alias);
      if !present {
        r := r + [c];
      }
    }

    /** `sync`: for each managed alias, in order, build its command with the next
        id, drop the commands with that alias, and append the built one unless
        its alias is already present. Only the command list changes. */
    method Sync(ids: seq<string>)
      requires |ids| == |COMMANDS|
      modifies this
      ensures data == old(data).(shellCommands := SyncAll(old(data.shellCommands), ids, exportPath,
                                                           PiiPath(vaultPath, vaultFolder)))
    {
      ghost var pii := PiiPath(vaultPath, vaultFolder);
      for i := 0 to |COMMANDS|
        invariant data == old(data).(shellCommands := SyncUpTo(old(data.shellCommands), ids, i, exportPath, pii))
      {
        var cmds := SyncPass(data.shellCommands, ids, i);
        data := data.(shellCommands := cmds);
      }
    }
  }

  /** `retain(|x| x.alias != a)`. */
  method Retain(cmds: seq<ShellCommand>, a: string) returns (kept: seq<ShellCommand>)
    ensures kept == WithoutAlias(cmds, a)
  {
    kept := [];
    for i := 0 to |cmds|
      invariant kept == WithoutAlias(cmds[..i], a)
    {
      assert cmds[..i + 1][..i] == cmds[..i];
      if cmds[i].alias != a {
        kept := kept + [cmds[i]];
      }
    }
    assert cmds[..|cmds|] == cmds;
  }

  /** `iter().any(|x| x.alias == a)`. */
  method AnyAlias(cmds: seq<ShellCommand>, a: string) returns (b: bool)
    ensures b == HasAlias(cmds, a)
  {
    b := false;
    for i := 0 to |cmds|
      invariant b == exists j :: 0 <= j < i && cmds[j].alias == a
    {
      if cmds[i].alias == a {
        b := true;
      }
    }
  }

  // ---------------------------------------------------------------------------
  // What sync achieves.

  /** The four aliases involved differ from one another. */
  lemma AliasesDistinct()
    ensures |CLASSIC_ALIAS| == 46 && |MODERN_ALIAS| == 45 && |WORD_COUNT_ALIAS| == 10 && |EXPORT_ALIAS| == 36
    ensures EXPORT_ALIAS !in COMMANDS && CLASSIC_ALIAS != MODERN_ALIAS && MODERN_ALIAS != WORD_COUNT_ALIAS
    ensures WORD_COUNT_ALIAS != CLASSIC_ALIAS
  {
  }

  lemma SyncUpToStep(cmds: seq<ShellCommand>, ids: seq<string>, n: nat, exportPath: string, pii: string)
    requires 1 <= n <= |COMMANDS| == |ids|
    ensures SyncUpTo(cmds, ids, n, exportPath, pii)
            == SyncStep(SyncUpTo(cmds, ids, n - 1, exportPath, pii), COMMANDS[n - 1],
                        Built(n - 1, ids[n - 1], exportPath, pii))
  {
  }

  /** Which command each pass builds. */
  lemma BuiltCommands(ids: seq<string>, exportPath: string, pii: string)
    requires |ids| == |COMMANDS|
    ensures COMMANDS[0] == CLASSIC_ALIAS && COMMANDS[1] == MODERN_ALIAS && COMMANDS[2] == WORD_COUNT_ALIAS
    ensures Built(0, ids[0], exportPath, pii) == ExportCommand(ids[0], exportPath, pii)
    ensures Built(1, ids[1], exportPath, pii) == ExportCommand(ids[1], exportPath, pii)
    ensures Built(2, ids[2], exportPath, pii) == WordCountCommand(ids[2])
  {
    AliasesDistinct();
  }

  /** The three passes of `sync`, spelt out. */
  lemma SyncAllPasses(cmds: seq<ShellCommand>, ids: seq<string>, exportPath: string, pii: string)
    requires |ids| == |COMMANDS|
    ensures SyncAll(cmds, ids, exportPath, pii)
            == SyncStep(SyncStep(SyncStep(cmds, CLASSIC_ALIAS, ExportCommand(ids[0], exportPath, pii)),
                                 MODERN_ALIAS, ExportCommand(ids[1], exportPath, pii)),
                        WORD_COUNT_ALIAS, WordCountCommand(ids[2]))
  {
    BuiltCommands(ids, exportPath, pii);
    SyncUpToStep(cmds, ids, 1, exportPath, pii);
    SyncUpToStep(cmds, ids, 2, exportPath, pii);
    SyncUpToStep(cmds, ids, 3, exportPath, pii);
  }

  lemma WithoutAliasSnoc(k: seq<ShellCommand>, d: ShellCommand, x: string)
    ensures WithoutAlias(k + [d], x) == WithoutAlias(k, x) + if d.alias == x then [] else [d]
  {
    assert (k + [d])[..|k|] == k;
  }

  lemma {:induction false} WithoutAliasAppend(a: seq<ShellCommand>, b: seq<ShellCommand>, x: string)
    ensures WithoutAlias(a + b, x) == WithoutAlias(a, x) + WithoutAlias(b, x)
    decreases |b|
  {
    if b == [] {
      assert a + b == a;
    } else {
      var init, last := b[..|b| - 1], b[|b| - 1];
      assert a + b == (a + init) + [last];
      assert b == init + [last];
      WithoutAliasSnoc(a + init, last, x);
      WithoutAliasSnoc(init, last, x);
      WithoutAliasAppend(a, init, x);
    }
  }

  /** Dropping an alias no command has changes nothing. */
  lemma {:induction false} WithoutAbsentAlias(cmds: seq<ShellCommand>, x: string)
    requires forall c <- cmds :: c.alias != x
    ensures WithoutAlias(cmds, x) == cmds
    decreases |cmds|
  {
    if cmds != [] {
      WithoutAbsentAlias(cmds[..|cmds| - 1], x);
    }
  }

  /** Dropping one alias leaves the presence of every other alias unchanged. */
  lemma {:induction false} WithoutAliasHas(cmds: seq<ShellCommand>, x: string, y: string)
    ensures HasAlias(WithoutAlias(cmds, x), y) <==> x != y && HasAlias(cmds, y)
    decreases |cmds|
  {
    if cmds != [] {
      var init, last := cmds[..|cmds| - 1], cmds[|cmds| - 1];
      WithoutAliasHas(init, x, y);
      assert cmds == init + [last];
      if x != y && HasAlias(cmds, y) {
        var c :| c in cmds && c.alias == y;
        if c != last {
          assert c in init;
        }
      }
    }
  }

  lemma WithoutAliasesSnoc(k: seq<ShellCommand>, d: ShellCommand, aliases: seq<string>)
    ensures WithoutAliases(k + [d], aliases) == WithoutAliases(k, aliases) + if d.alias in aliases then [] else [d]
  {
    assert (k + [d])[..|k|] == k;
  }

  /** Dropping no alias keeps every command. */
  lemma {:induction false} WithoutNoAliases(cmds: seq<ShellCommand>)
    ensures WithoutAliases(cmds, []) == cmds
    decreases |cmds|
  {
    if cmds != [] {
      WithoutNoAliases(cmds[..|cmds| - 1]);
    }
  }

  /** Dropping one more alias after a set of them is dropping them together. */
  lemma {:induction false} WithoutOneMore(cmds: seq<ShellCommand>, aliases: seq<string>, x: string)
    ensures WithoutAlias(WithoutAliases(cmds, aliases), x) == WithoutAliases(cmds, aliases + [x])
    decreases |cmds|
  {
    if cmds != [] {
      var init, last := cmds[..|cmds| - 1], cmds[|cmds| - 1];
      WithoutOneMore(init, aliases, x);
      var u := WithoutAliases(init, aliases);
      assert last.alias in aliases + [x] <==> last.alias in aliases || last.alias == x;
      var v := WithoutAliases(init, aliases + [x]);
      if last.alias !in aliases {
        assert WithoutAliases(cmds, aliases) == u + [last];
        WithoutAliasSnoc(u, last, x);
      } else {
        assert WithoutAliases(cmds, aliases) == u;
        assert WithoutAliases(cmds, aliases + [x]) == v;
      }
    }
  }

  /** Dropping three aliases in turn is dropping all three at once. */
  lemma WithoutThree(cmds: seq<ShellCommand>, a: string, b: string, c: string)
    ensures WithoutAlias(WithoutAlias(WithoutAlias(cmds, a), b), c) == WithoutAliases(cmds, [a, b, c])
  {
    WithoutNoAliases(cmds);
    WithoutOneMore(cmds, [], a);
    WithoutOneMore(cmds, [a], b);
    WithoutOneMore(cmds, [a, b], c);
    assert [] + [a] == [a] && [a] + [b] == [a, b] && [a, b] + [c] == [a, b, c];
  }

  /** What the first pass leaves, and what it adds: an export command only
      when none is there. */
  function Added(cmds: seq<ShellCommand>, e: ShellCommand): seq<ShellCommand>
  {
    if HasAlias(cmds, EXPORT_ALIAS) then [] else [e]
  }

  lemma ClassicPass(cmds: seq<ShellCommand>, e: ShellCommand)
    requires e.alias == EXPORT_ALIAS
    ensures SyncStep(cmds, CLASSIC_ALIAS, e) == WithoutAlias(cmds, CLASSIC_ALIAS) + Added(cmds, e)
  {
    AliasesDistinct();
    WithoutAliasHas(cmds, CLASSIC_ALIAS, EXPORT_ALIAS);
  }

  /** The Modern pass finds an export command in place and adds nothing. */
  lemma ModernPass(cmds: seq<ShellCommand>, e0: ShellCommand, e1: ShellCommand)
    requires e0.alias == EXPORT_ALIAS == e1.alias
    ensures var k1 := WithoutAlias(cmds, CLASSIC_ALIAS);
            SyncStep(k1 + Added(cmds, e0), MODERN_ALIAS, e1) == WithoutAlias(k1, MODERN_ALIAS) + Added(cmds, e0)
  {
    AliasesDistinct();
    var k1 := WithoutAlias(cmds, CLASSIC_ALIAS);
    var added := Added(cmds, e0);
    WithoutAliasAppend(k1, added, MODERN_ALIAS);
    WithoutAbsentAlias(added, MODERN_ALIAS);
    var k2 := WithoutAlias(k1, MODERN_ALIAS);
    WithoutAliasHas(cmds, CLASSIC_ALIAS, EXPORT_ALIAS);
    WithoutAliasHas(k1, MODERN_ALIAS, EXPORT_ALIAS);
    assert HasAlias(k2 + added, EXPORT_ALIAS) by {
      if added != [] {
        assert e0 in k2 + added;
      } else {
        var c :| c in k2 && c.alias == EXPORT_ALIAS;
        assert c in k2 + added;
      }
    }
  }

  /** The word-count pass always appends its command. */
  lemma WordCountPass(k2: seq<ShellCommand>, added: seq<ShellCommand>, w: ShellCommand)
    requires w.alias == WORD_COUNT_ALIAS
    requires forall d <- added :: d.alias != WORD_COUNT_ALIAS
    ensures SyncStep(k2 + added, WORD_COUNT_ALIAS, w) == WithoutAlias(k2, WORD_COUNT_ALIAS) + added + [w]
  {
    WithoutAliasAppend(k2, added, WORD_COUNT_ALIAS);
    WithoutAbsentAlias(added, WORD_COUNT_ALIAS);
  }

  /** `sync` in closed form: the unmanaged commands in their order, then a new
      export command unless one was there, then a new word-count command. The
      export command built on the Modern pass is never added. */
  lemma SyncAllShape(cmds: seq<ShellCommand>, ids: seq<string>, exportPath: string, pii: string)
    requires |ids| == |COMMANDS|
    ensures SyncAll(cmds, ids, exportPath, pii)
            == Unmanaged(cmds) + Added(cmds, ExportCommand(ids[0], exportPath, pii)) + [WordCountCommand(ids[2])]
  {
    var e0 := ExportCommand(ids[0], exportPath, pii);
    var e1 := ExportCommand(ids[1], exportPath, pii);
    SyncAllPasses(cmds, ids, exportPath, pii);
    ClassicPass(cmds, e0);
    ModernPass(cmds, e0, e1);
    AliasesDistinct();
    WordCountPass(WithoutAlias(WithoutAlias(cmds, CLASSIC_ALIAS), MODERN_ALIAS), Added(cmds, e0),
                  WordCountCommand(ids[2]));
    WithoutThree(cmds, CLASSIC_ALIAS, MODERN_ALIAS, WORD_COUNT_ALIAS);
  }

  lemma CountAliasSnoc(k: seq<ShellCommand>, d: ShellCommand, x: string)
    ensures CountAlias(k + [d], x) == CountAlias(k, x) + if d.alias == x then 1 else 0
  {
    assert (k + [d])[..|k|] == k;
  }

  /** A command list has an alias exactly when it counts at least one. */
  lemma {:induction false} CountAliasHas(cmds: seq<ShellCommand>, x: string)
    ensures CountAlias(cmds, x) > 0 <==> HasAlias(cmds, x)
    decreases |cmds|
  {
    if cmds != [] {
      var init, last := cmds[..|cmds| - 1], cmds[|cmds| - 1];
      CountAliasHas(init, x);
      assert cmds == init + [last];
      if HasAlias(cmds, x) && last.alias != x {
        var c :| c in cmds && c.alias == x;
        assert c in init;
      }
    }
  }

  /** Dropping aliases other than `x` does not change how many have `x`. */
  lemma {:induction false} CountWithoutAliases(cmds: seq<ShellCommand>, aliases: seq<string>, x: string)
    requires x !in aliases
    ensures CountAlias(WithoutAliases(cmds, aliases), x) == CountAlias(cmds, x)
    decreases |cmds|
  {
    if cmds != [] {
      var init, last := cmds[..|cmds| - 1], cmds[|cmds| - 1];
      CountWithoutAliases(init, aliases, x);
      assert CountAlias(cmds, x) == CountAlias(init, x) + if last.alias == x then 1 else 0;
      if last.alias !in aliases {
        assert WithoutAliases(cmds, aliases) == WithoutAliases(init, aliases) + [last];
        CountAliasSnoc(WithoutAliases(init, aliases), last, x);
      } else {
        assert WithoutAliases(cmds, aliases) == WithoutAliases(init, aliases);
      }
    }
  }

  /** After `sync` exactly one command is the word count, and it is the last. */
  lemma SyncWordCountLast(cmds: seq<ShellCommand>, ids: seq<string>, exportPath: string, pii: string)
    requires |ids| == |COMMANDS|
    ensures var r := SyncAll(cmds, ids, exportPath, pii);
            CountAlias(r, WORD_COUNT_ALIAS) == 1 && r[|r| - 1] == WordCountCommand(ids[2])
  {
    SyncAllShape(cmds, ids, exportPath, pii);
    AliasesDistinct();
    var u := Unmanaged(cmds);
    var added := Added(cmds, ExportCommand(ids[0], exportPath, pii));
    CountAliasHas(u + added, WORD_COUNT_ALIAS);
    assert !HasAlias(u + added, WORD_COUNT_ALIAS);
    CountAliasSnoc(u + added, WordCountCommand(ids[2]), WORD_COUNT_ALIAS);
  }

  /** After `sync` no command has the Classic or the Modern alias. */
  lemma SyncNoClassicModern(cmds: seq<ShellCommand>, ids: seq<string>, exportPath: string, pii: string)
    requires |ids| == |COMMANDS|
    ensures !HasAlias(SyncAll(cmds, ids, exportPath, pii), CLASSIC_ALIAS)
    ensures !HasAlias(SyncAll(cmds, ids, exportPath, pii), MODERN_ALIAS)
  {
    SyncAllShape(cmds, ids, exportPath, pii);
    AliasesDistinct();
  }

  /** After `sync` there is an export command: the ones there before, unchanged
      and no more, or else exactly one new one. */
  lemma SyncExportPresent(cmds: seq<ShellCommand>, ids: seq<string>, exportPath: string, pii: string)
    requires |ids| == |COMMANDS|
    ensures HasAlias(SyncAll(cmds, ids, exportPath, pii), EXPORT_ALIAS)
    ensures CountAlias(SyncAll(cmds, ids, exportPath, pii), EXPORT_ALIAS)
            == if HasAlias(cmds, EXPORT_ALIAS) then CountAlias(cmds, EXPORT_ALIAS) else 1
  {
    var e0 := ExportCommand(ids[0], exportPath, pii);
    var w := WordCountCommand(ids[2]);
    SyncAllShape(cmds, ids, exportPath, pii);
    AliasesDistinct();
    var u := Unmanaged(cmds);
    CountWithoutAliases(cmds, COMMANDS, EXPORT_ALIAS);
    CountAliasHas(cmds, EXPORT_ALIAS);
    if HasAlias(cmds, EXPORT_ALIAS) {
      assert u + Added(cmds, e0) == u;
    } else {
      CountAliasSnoc(u, e0, EXPORT_ALIAS);
    }
    CountAliasSnoc(u + Added(cmds, e0), w, EXPORT_ALIAS);
    CountAliasHas(SyncAll(cmds, ids, exportPath, pii), EXPORT_ALIAS);
  }

  lemma {:induction false} WithoutAliasesIdempotent(cmds: seq<ShellCommand>, aliases: seq<string>)
    ensures WithoutAliases(WithoutAliases(cmds, aliases), aliases) == WithoutAliases(cmds, aliases)
    decreases |cmds|
  {
    if cmds != [] {
      var init, last := cmds[..|cmds| - 1], cmds[|cmds| - 1];
      WithoutAliasesIdempotent(init, aliases);
      if last.alias !in aliases {
        assert WithoutAliases(cmds, aliases) == WithoutAliases(init, aliases) + [last];
        WithoutAliasesSnoc(WithoutAliases(init, aliases), last, aliases);
      } else {
        assert WithoutAliases(cmds, aliases) == WithoutAliases(init, aliases);
      }
    }
  }

  /** The commands `sync` does not manage keep their order and contents; the
      only one added among them is a new export command when there was none. */
  lemma SyncKeepsUnmanaged(cmds: seq<ShellCommand>, ids: seq<string>, exportPath: string, pii: string)
    requires |ids| == |COMMANDS|
    ensures Unmanaged(SyncAll(cmds, ids, exportPath, pii))
            == Unmanaged(cmds) + Added(cmds, ExportCommand(ids[0], exportPath, pii))
  {
    var e0 := ExportCommand(ids[0], exportPath, pii);
    var w := WordCountCommand(ids[2]);
    SyncAllShape(cmds, ids, exportPath, pii);
    AliasesDistinct();
    var u := Unmanaged(cmds);
    WithoutAliasesIdempotent(cmds, COMMANDS);
    if !HasAlias(cmds, EXPORT_ALIAS) {
      WithoutAliasesSnoc(u, e0, COMMANDS);
    } else {
      assert u + Added(cmds, e0) == u;
    }
    WithoutAliasesSnoc(u + Added(cmds, e0), w, COMMANDS);
  }
}
