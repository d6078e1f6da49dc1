/** The configuration of the Obsidian "Commander" plugin
    (src/obsidian_commander/mod.rs): its file-menu entries, and the update that
    puts one entry in place of those with the same name. Loading and saving the
    JSON file are left to the caller. */
module ObsidianCommander {
  import opened Wrappers
  import opened Json
  import opened Paths
  import opened ObsidianPaths

  datatype FileMenu = FileMenu(id: string, icon: string, name: string, mode: string)

  datatype Hide = Hide(statusbar: seq<Value>, leftRibbon: seq<Value>)

  /** The dimensions are `i64` in the source. */
  datatype AdvancedToolbar = AdvancedToolbar(
    rowHeight: int,
    rowCount: int,
    spacing: int,
    buttonWidth: int,
    columnLayout: bool,
    mappedIcons: seq<Value>,
    tooltips: bool,
    heightOffset: int)

  /** The plugin's `data.json`. */
  datatype Root = Root(
    confirmDeletion: bool,
    showAddCommand: bool,
    debug: bool,
    editorMenu: seq<Value>,
    fileMenu: seq<FileMenu>,
    leftRibbon: seq<Value>,
    rightRibbon: seq<Value>,
    titleBar: seq<Value>,
    statusBar: seq<Value>,
    pageHeader: seq<Value>,
    macros: seq<Value>,
    explorer: seq<Value>,
    hide: Hide,
    spacing: int,
    advancedToolbar: AdvancedToolbar)

  const EMPTY_TOOLBAR: AdvancedToolbar := AdvancedToolbar(0, 0, 0, 0, false, [], false, 0)

  /** `Root::new`: deletion is confirmed and the add-command button shown; every
      list is empty. */
  function RootNew(): (r: Root)
    ensures r.confirmDeletion && r.showAddCommand && !r.debug
    ensures r.fileMenu == [] && r.editorMenu == [] && r.macros == [] && r.spacing == 0
  {
    Root(true, true, false, [], [], [], [], [], [], [], [], [], Hide([], []), 0, EMPTY_TOOLBAR)
  }

  /** `Root::default()`: every flag false, every number zero, every list empty. */
  function RootDefault(): (r: Root)
    ensures !r.confirmDeletion && !r.showAddCommand && !r.debug
    ensures r.fileMenu == [] && r.editorMenu == [] && r.macros == [] && r.spacing == 0
  {
    Root(false, false, false, [], [], [], [], [], [], [], [], [], Hide([], []), 0, EMPTY_TOOLBAR)
  }

  /** The entries not named `name`, in order (`retain`). */
  function WithoutName(menu: seq<FileMenu>, name: string): (r: seq<FileMenu>)
    ensures forall e <- r :: e.name != name
  {
    if menu == [] then []
    else
      var last := menu[|menu| - 1];
      WithoutName(menu[..|menu| - 1], name) + (if last.name == name then [] else [last])
  }

  /** The number of entries named `name`. */
  function CountName(menu: seq<FileMenu>, name: string): nat
  {
    if menu == [] then 0
    else CountName(menu[..|menu| - 1], name) + (if menu[|menu| - 1].name == name then 1 else 0)
  }

  /** The file menu after `add_file_menu(f)`. */
  function WithFileMenu(menu: seq<FileMenu>, f: FileMenu): seq<FileMenu>
  {
    WithoutName(menu, f.name) + [f]
  }

  const DATA_FILE: string := "plugins/cmdr/data.json"

  /** `ObsidianCommander`: the plugin data, and where it lives. */
  class ObsidianCommander {
    var data: Root
    /** `obsidian.config_path`. */
    const configPath: string
    const vaultFolder: string

    /** `ObsidianCommander::new`: `load` reads and parses a data file, or fails;
        the all-false default configuration (not `Root::new`) is used when it
        fails. */
    constructor(configPath: string, vaultFolder: string, load: string -> Option<Root>)
      ensures this.configPath == configPath && this.vaultFolder == vaultFolder
      ensures var loaded := load(ConfigFile(configPath, DATA_FILE));
              data == if loaded.Some? then loaded.value else RootDefault()
    {
      this.configPath := configPath;
      this.vaultFolder := vaultFolder;
      var path := configPath;
      if !EndsWithObsidian(path) {
        path := Join(path, OBSIDIAN_DIR);
      }
      path := Join(path, DATA_FILE);
      var root := RootDefault();
      var loaded := load(path);
      if loaded.Some? {
        root := loaded.value;
      }
      data := root;
    }

    /** `add_file_menu`: drop the entries with `f`'s name, then append `f`.
        Nothing but the file menu changes. */
    method AddFileMenu(f: FileMenu)
      modifies this
      ensures data == old(data).(fileMenu := WithFileMenu(old(data.fileMenu), f))
    {
      var kept := RetainName(data.fileMenu, f.name);
      data := data.(fileMenu := kept);
      data := data.(fileMenu := data.fileMenu + [f]);
    }

    /** `sync`: has no effect. */
    method Sync()
      modifies this
      ensures data == old(data)
    {
    }
  }

  /** `retain(|x| x.name != name)`. */
  method RetainName(menu: seq<FileMenu>, name: string) returns (kept: seq<FileMenu>)
    ensures kept == WithoutName(menu, name)
  {
    kept := [];
    for i := 0 to |menu|
      invariant kept == WithoutName(menu[..i], name)
    {
      assert menu[..i + 1][..i] == menu[..i];
      if menu[i].name != name {
        kept := kept + [menu[i]];
      }
    }
    assert menu[..|menu|] == menu;
  }

  // ---------------------------------------------------------------------------
  // What add_file_menu achieves.

  lemma CountNameSnoc(m: seq<FileMenu>, e: FileMenu, name: string)
    ensures CountName(m + [e], name) == CountName(m, name) + if e.name == name then 1 else 0
  {
    assert (m + [e])[..|m|] == m;
  }

  lemma WithoutNameSnoc(m: seq<FileMenu>, e: FileMenu, name: string)
    ensures WithoutName(m + [e], name) == WithoutName(m, name) + if e.name == name then [] else [e]
  {
    assert (m + [e])[..|m|] == m;
  }

  /** Dropping a name removes exactly the entries counted under it. */
  lemma {:induction false} WithoutNameLength(menu: seq<FileMenu>, name: string)
    ensures |WithoutName(menu, name)| == |menu| - CountName(menu, name)
    decreases |menu|
  {
    if menu != [] {
      WithoutNameLength(menu[..|menu| - 1], name);
    }
  }

  /** No entry is left with the dropped name. */
  lemma {:induction false} WithoutNameCount(menu: seq<FileMenu>, name: string)
    ensures CountName(WithoutName(menu, name), name) == 0
    decreases |menu|
  {
    if menu != [] {
      var init, last := menu[..|menu| - 1], menu[|menu| - 1];
      WithoutNameCount(init, name);
      if last.name != name {
        CountNameSnoc(WithoutName(init, name), last, name);
      } else {
        assert WithoutName(menu, name) == WithoutName(init, name);
      }
    }
  }

  /** Dropping a name no entry has changes nothing. */
  lemma {:induction false} WithoutAbsentName(menu: seq<FileMenu>, name: string)
    requires forall e <- menu :: e.name != name
    ensures WithoutName(menu, name) == menu
    decreases |menu|
  {
    if menu != [] {
      WithoutAbsentName(menu[..|menu| - 1], name);
    }
  }

  /** After `add_file_menu(f)` exactly one entry is named `f.name`: the last,
      which is `f`. */
  lemma AddFileMenuUnique(menu: seq<FileMenu>, f: FileMenu)
    ensures var r := WithFileMenu(menu, f);
            CountName(r, f.name) == 1 && r[|r| - 1] == f
  {
    WithoutNameCount(menu, f.name);
    CountNameSnoc(WithoutName(menu, f.name), f, f.name);
  }

  /** The entries with other names keep their order and contents, and every
      other name is kept with all its entries. */
  lemma AddFileMenuOthers(menu: seq<FileMenu>, f: FileMenu, name: string)
    ensures WithoutName(WithFileMenu(menu, f), f.name) == WithoutName(menu, f.name)
    ensures name != f.name ==> CountName(WithFileMenu(menu, f), name) == CountName(menu, name)
  {
    var kept := WithoutName(menu, f.name);
    WithoutNameSnoc(kept, f, f.name);
    WithoutAbsentName(kept, f.name);
    CountNameSnoc(kept, f, name);
    if name != f.name {
      WithoutNameOther(menu, f.name, name);
    }
  }

  /** Dropping a name leaves the count of every other name unchanged. */
  lemma {:induction false} WithoutNameOther(menu: seq<FileMenu>, x: string, name: string)
    requires x != name
    ensures CountName(WithoutName(menu, x), name) == CountName(menu, name)
    decreases |menu|
  {
    if menu != [] {
      var init, last := menu[..|menu| - 1], menu[|menu| - 1];
      WithoutNameOther(init, x, name);
      assert CountName(menu, name) == CountName(init, name) + if last.name == name then 1 else 0;
      if last.name != x {
        CountNameSnoc(WithoutName(init, x), last, name);
      } else {
        assert WithoutName(menu, x) == WithoutName(init, x);
      }
    }
  }

  /** The new length is the old one, less the entries named `f.name`, plus one. */
  lemma AddFileMenuLength(menu: seq<FileMenu>, f: FileMenu)
    ensures |WithFileMenu(menu, f)| == |menu| - CountName(menu, f.name) + 1
  {
    WithoutNameLength(menu, f.name);
  }

  /** Adding the same entry twice is adding it once. */
  lemma AddFileMenuIdempotent(menu: seq<FileMenu>, f: FileMenu)
    ensures WithFileMenu(WithFileMenu(menu, f), f) == WithFileMenu(menu, f)
  {
    AddFileMenuOthers(menu, f, f.name);
  }
}
