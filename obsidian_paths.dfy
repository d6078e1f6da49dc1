/** Where the Obsidian plugin configurations live: the vault's `.obsidian`
    directory, found from the configured path as `ObsidianShellcommands::new`/`save`
    and `ObsidianCommander::new`/`save` do. */
module ObsidianPaths {
  import opened Wrappers
  import opened Paths

  const OBSIDIAN_DIR: string := ".obsidian"

  /** `Path::ends_with(".obsidian")`: the last component is `.obsidian`. */
  predicate EndsWithObsidian(path: string)
  {
    FileName(path) == Some(OBSIDIAN_DIR)
  }

  /** The configuration directory: the path itself when its last component is
      already `.obsidian`, otherwise the path with `.obsidian` pushed. */
  function ObsidianDir(configPath: string): (r: string)
    ensures EndsWithObsidian(configPath) ==> r == configPath
  {
    if EndsWithObsidian(configPath) then configPath else Join(configPath, OBSIDIAN_DIR)
  }

  /** A plugin's configuration file: its relative path pushed onto the
      configuration directory. */
  function ConfigFile(configPath: string, rel: string): (r: string)
    requires rel != [] && rel[0] != '/'
    ensures |r| >= |ObsidianDir(configPath)| + |rel|
    ensures r[..|ObsidianDir(configPath)|] == ObsidianDir(configPath)
    ensures r[|r| - |rel|..] == rel
  {
    Join(ObsidianDir(configPath), rel)
  }

  /** The configuration directory always ends in `.obsidian`, and `.obsidian`
      is never pushed twice. */
  lemma ObsidianDirEnds(configPath: string)
    ensures EndsWithObsidian(ObsidianDir(configPath))
    ensures ObsidianDir(ObsidianDir(configPath)) == ObsidianDir(configPath)
  {
    if !EndsWithObsidian(configPath) {
      JoinFileName(configPath, OBSIDIAN_DIR);
    }
  }

  /** A vault path gets `.obsidian` appended; a configuration directory is kept. */
  lemma ObsidianDirExamples()
    ensures ObsidianDir("vault") == "vault/.obsidian"
    ensures ObsidianDir("vault/") == "vault/.obsidian"
    ensures ObsidianDir("vault/.obsidian") == "vault/.obsidian"
  {
    assert FileName("vault") == Some("vault") by {
      assert LastIndexOf("vault", '/') == -1;
      assert "vault"[0..] == "vault";
    }
    assert FileName("vault/") == Some("vault") by {
      assert LastIndexOf("vault/", '/') == 5;
      assert "vault/"[..5] == "vault";
      assert LastIndexOf("vault", '/') == -1;
      assert "vault"[0..] == "vault";
    }
    ObsidianDirEnds("vault");
  }
}
