/** The compilation context (src/context.rs): the options of a run and the corpus
    of Markdown documents read from the manuscript's file or directory. The file
    system is replaced by an in-memory tree; reading a file is reading its text. */
module Context {
  import opened Wrappers
  import opened Constants
  import opened Metadata
  import opened Pii
  import opened FrontMatter
  import opened Paths
  import Utils
  import Markdown

  /** `Context`; the output directory is kept as a path string. */
  datatype Context = Context(
    anonymous: bool,
    classic: bool,
    basedir: string,
    files: map<string, Document<Metadata>>,
    font: string,
    fontSize: nat,
    pii: Option<Document<Pii>>,
    outputDir: string,
    wordCount: bool)

  /** `file_exists`: the corpus has a document under that name. */
  predicate FileExists(ctx: Context, filename: string)
  {
    filename in ctx.files
  }

  /** `get_file`: a copy of the named document. The source unwraps the lookup,
      so the name must be in the corpus. */
  function GetFile(ctx: Context, filename: string): (r: Option<Document<Metadata>>)
    requires FileExists(ctx, filename)
    ensures r.Some? && r.value == ctx.files[filename]
  {
    Some(Document(ctx.files[filename].metadata, ctx.files[filename].content))
  }

  /** `get_file_path`: the base directory and the name, joined by a slash. */
  function GetFilePath(ctx: Context, filename: string): (r: string)
    ensures |r| == |ctx.basedir| + 1 + |filename|
  {
    ctx.basedir + "/" + filename
  }

  /** The path of a corpus name is mapped back to that name, provided the base
      directory does not reappear further down the path. */
  lemma GetFilePathRoundTrip(ctx: Context, filename: string)
    requires ctx.basedir != []
    requires !Utils.Occurs(ctx.basedir, "/" + filename)
    requires filename == [] || filename[0] != '/'
    ensures Utils.GetBaseFilename(ctx.basedir, GetFilePath(ctx, filename)) == filename
  {
    Utils.GetBaseFilenameBelow(ctx.basedir, filename);
  }

  /** `is_markdown`: the extension of the path's file name is exactly `md`. */
  function IsMarkdown(path: string): (r: bool)
  {
    match FileName(path)
    case Some(name) => Extension(name) == Some("md")
    case None => false
  }

  /** A path is Markdown exactly when its file name is longer than `.md` and ends
      with it; the comparison is case-sensitive. */
  lemma IsMarkdownIff(path: string)
    ensures IsMarkdown(path) <==>
              (FileName(path).Some? && |FileName(path).value| > 3
               && FileName(path).value[|FileName(path).value| - 3..] == ".md")
  {
    if FileName(path).Some? {
      ExtensionMd(FileName(path).value);
    }
  }

  /** A plain name joined onto a directory is Markdown exactly when it ends in `.md`. */
  lemma IsMarkdownJoin(dir: string, name: string)
    requires name != [] && '/' !in name && name != "." && name != ".."
    ensures IsMarkdown(Join(dir, name)) <==> |name| > 3 && name[|name| - 3..] == ".md"
  {
    JoinFileName(dir, name);
    ExtensionMd(name);
  }

  /** A plain name is its own file name. */
  lemma IsMarkdownName(name: string)
    requires name != [] && '/' !in name && name != "." && name != ".."
    ensures IsMarkdown(name) <==> |name| > 3 && name[|name| - 3..] == ".md"
  {
    IsMarkdownJoin([], name);
    assert Join([], name) == name;
  }

  /** The extension test on the examples the source's behaviour turns on. */
  lemma IsMarkdownExamples()
    ensures IsMarkdown("a.b.md")
    ensures !IsMarkdown("x.MD")
    ensures !IsMarkdown("README")
    ensures !IsMarkdown(".md")
  {
    IsMarkdownName("a.b.md");
    IsMarkdownName("x.MD");
    IsMarkdownName("README");
    IsMarkdownName(".md");
  }

  /** A directory entry: a regular file with its text, a directory with its
      entries in the order the directory lists them, or anything else. */
  datatype Entry =
    | File(name: string, text: string)
    | Dir(name: string, children: seq<Entry>)
    | Special(name: string)

  function Size(e: Entry): (r: nat)
    ensures r >= 1
    decreases e, 1
  {
    if e.Dir? then 1 + SizeAll(e.children) else 1
  }

  /** Grows with every entry, and exceeds the size of each of them. */
  function SizeAll(es: seq<Entry>): (r: nat)
    ensures r >= 1
    decreases es, 0
  {
    if es == [] then 1 else SizeAll(es[..|es| - 1]) + Size(es[|es| - 1])
  }

  /** The corpus read from the entry at `path`: a Markdown file becomes one
      document under its name relative to `basedir`; a directory contributes the
      corpora of its entries, merged in listing order so that a later entry
      overwrites an earlier one with the same name; anything else contributes
      nothing. */
  function ReadTree(basedir: string, path: string, e: Entry, parse: Parser<Metadata>)
    : map<string, Document<Metadata>>
    decreases Size(e)
  {
    match e
    case File(_, text) =>
      if IsMarkdown(path)
      then map[Utils.GetBaseFilename(basedir, path) := Markdown.ParsedMarkdown(text, parse)]
      else map[]
    case Dir(_, children) => ReadChildren(basedir, path, children, parse)
    case Special(_) => map[]
  }

  /** The corpora of the entries of the directory at `path`, merged in order. */
  function ReadChildren(basedir: string, path: string, es: seq<Entry>, parse: Parser<Metadata>)
    : map<string, Document<Metadata>>
    decreases SizeAll(es)
  {
    if es == [] then map[]
    else
      var last := es[|es| - 1];
      ReadChildren(basedir, path, es[..|es| - 1], parse)
        + ReadTree(basedir, Join(path, last.name), last, parse)
  }

  /** `read_files`: walks the entry, inserting each Markdown file it meets and
      merging what each subdirectory yields. The root must be a file or a
      directory: the source cannot list anything else and stops there. */
  method ReadFiles(basedir: string, path: string, e: Entry, parse: Parser<Metadata>)
    returns (files: map<string, Document<Metadata>>)
    requires !e.Special?
    ensures files == ReadTree(basedir, path, e, parse)
    decreases Size(e)
  {
    files := map[];
    if e.File? {
      ReadTreeFile(basedir, path, e.name, e.text, parse);
      if IsMarkdown(path) {
        var md := Markdown.ParseMarkdown(e.text, parse);
        if md.Ok? {
          files := files[Utils.GetBaseFilename(basedir, path) := md.value];
        }
      }
    } else {
      for i := 0 to |e.children|
        invariant files == ReadChildren(basedir, path, e.children[..i], parse)
      {
        var entry := e.children[i];
        var spath := Join(path, entry.name);
        ReadChildrenSnoc(basedir, path, e.children, i, parse);
        if entry.File? {
          ReadTreeFile(basedir, spath, entry.name, entry.text, parse);
          if IsMarkdown(spath) {
            var md := Markdown.ParseMarkdown(entry.text, parse);
            if md.Ok? {
              UpdateIsUnion(files, Utils.GetBaseFilename(basedir, spath), md.value);
              files := files[Utils.GetBaseFilename(basedir, spath) := md.value];
            }
          }
        } else if entry.Dir? {
          SizeChild(e, i);
          var sub := ReadFiles(basedir, spath, entry, parse);
          files := files + sub;
        }
      }
      assert e.children[..|e.children|] == e.children;
    }
  }

  /** What a single file contributes to the corpus. */
  lemma ReadTreeFile(basedir: string, path: string, name: string, text: string, parse: Parser<Metadata>)
    ensures ReadTree(basedir, path, File(name, text), parse)
            == if IsMarkdown(path)
               then map[Utils.GetBaseFilename(basedir, path) := Markdown.ParsedMarkdown(text, parse)]
               else map[]
  {
  }

  lemma ReadChildrenSnoc(basedir: string, path: string, es: seq<Entry>, i: nat, parse: Parser<Metadata>)
    requires i < |es|
    ensures ReadChildren(basedir, path, es[..i + 1], parse)
            == ReadChildren(basedir, path, es[..i], parse) + ReadTree(basedir, Join(path, es[i].name), es[i], parse)
  {
    assert es[..i + 1][..i] == es[..i];
  }

  /** An entry of a directory is smaller than the directory. */
  lemma SizeChild(e: Entry, i: nat)
    requires e.Dir? && i < |e.children|
    ensures Size(e.children[i]) < Size(e)
  {
    SizeAllPrefix(e.children, i + 1);
    SizeAllLast(e.children[..i + 1]);
  }

  lemma UpdateUnion<K, V>(ma: map<K, V>, mb: map<K, V>, k: K, v: V)
    ensures (ma + mb)[k := v] == ma + mb[k := v]
  {
  }

  lemma UpdateIsUnion<K, V>(m: map<K, V>, k: K, v: V)
    ensures m[k := v] == m + map[k := v]
  {
  }

  lemma SizeAllLast(es: seq<Entry>)
    requires es != []
    ensures Size(es[|es| - 1]) < SizeAll(es)
  {
  }

  lemma {:induction false} SizeAllPrefix(es: seq<Entry>, n: nat)
    requires n <= |es|
    ensures SizeAll(es[..n]) <= SizeAll(es)
    decreases |es|
  {
    if n < |es| {
      assert es[..|es| - 1][..n] == es[..n];
      SizeAllPrefix(es[..|es| - 1], n);
    } else {
      assert es[..n] == es;
    }
  }

  /** The Markdown files below an entry, as (path, text) pairs in the order the
      walk meets them. */
  function MarkdownFiles(path: string, e: Entry): seq<(string, string)>
    decreases Size(e)
  {
    match e
    case File(_, text) => if IsMarkdown(path) then [(path, text)] else []
    case Dir(_, children) => MarkdownFilesAll(path, children)
    case Special(_) => []
  }

  function MarkdownFilesAll(path: string, es: seq<Entry>): seq<(string, string)>
    decreases SizeAll(es)
  {
    if es == [] then []
    else
      var last := es[|es| - 1];
      MarkdownFilesAll(path, es[..|es| - 1]) + MarkdownFiles(Join(path, last.name), last)
  }

  /** Reference definition: insert each file, in order, under `key` of its path,
      holding `doc` of its text. */
  function InsertAll(fs: seq<(string, string)>, key: string -> string, doc: string -> Document<Metadata>)
    : map<string, Document<Metadata>>
  {
    if fs == [] then map[]
    else
      var f := fs[|fs| - 1];
      InsertAll(fs[..|fs| - 1], key, doc)[key(f.0) := doc(f.1)]
  }

  /** The name a file is stored under. */
  function KeyOf(basedir: string): string -> string
  {
    p => Utils.GetBaseFilename(basedir, p)
  }

  /** The document a file's text is stored as. */
  function DocOf(parse: Parser<Metadata>): string -> Document<Metadata>
  {
    t => Markdown.ParsedMarkdown(t, parse)
  }

  lemma InsertAllSnoc(a: seq<(string, string)>, f: (string, string), key: string -> string,
                      doc: string -> Document<Metadata>)
    ensures InsertAll(a + [f], key, doc) == InsertAll(a, key, doc)[key(f.0) := doc(f.1)]
  {
    assert (a + [f])[..|a|] == a;
  }

  lemma {:induction false} InsertAllAppend(a: seq<(string, string)>, b: seq<(string, string)>,
                                           key: string -> string, doc: string -> Document<Metadata>)
    ensures InsertAll(a + b, key, doc) == InsertAll(a, key, doc) + InsertAll(b, key, doc)
    decreases |b|
  {
    if b == [] {
      assert a + b == a;
    } else {
      var b' := b[..|b| - 1];
      var f := b[|b| - 1];
      assert a + b == (a + b') + [f];
      InsertAllSnoc(a + b', f, key, doc);
      InsertAllAppend(a, b', key, doc);
      UpdateUnion(InsertAll(a, key, doc), InsertAll(b', key, doc), key(f.0), doc(f.1));
    }
  }

  /** The walk is the ordered insertion of every Markdown file met on the way,
      so on a repeated name the file met last wins. */
  lemma {:induction false} ReadTreeIsInsertAll(basedir: string, path: string, e: Entry, parse: Parser<Metadata>)
    ensures ReadTree(basedir, path, e, parse) == InsertAll(MarkdownFiles(path, e), KeyOf(basedir), DocOf(parse))
    decreases Size(e), 1
  {
    match e
    case Dir(_, children) =>
      ReadChildrenIsInsertAll(basedir, path, children, parse);
    case File(name, text) =>
      ReadFileIsInsertAll(basedir, path, name, text, parse);
    case Special(_) =>
  }

  lemma ReadFileIsInsertAll(basedir: string, path: string, name: string, text: string,
                             parse: Parser<Metadata>)
    ensures ReadTree(basedir, path, File(name, text), parse)
            == InsertAll(MarkdownFiles(path, File(name, text)), KeyOf(basedir), DocOf(parse))
  {
    assert [(path, text)][..0] == [];
  }

  lemma {:induction false} ReadChildrenIsInsertAll(basedir: string, path: string, es: seq<Entry>,
                                                   parse: Parser<Metadata>)
    ensures ReadChildren(basedir, path, es, parse) == InsertAll(MarkdownFilesAll(path, es), KeyOf(basedir), DocOf(parse))
    decreases SizeAll(es), 0
  {
    if es != [] {
      var last := es[|es| - 1];
      ReadChildrenIsInsertAll(basedir, path, es[..|es| - 1], parse);
      ReadTreeIsInsertAll(basedir, Join(path, last.name), last, parse);
      InsertAllAppend(MarkdownFilesAll(path, es[..|es| - 1]),
                      MarkdownFiles(Join(path, last.name), last), KeyOf(basedir), DocOf(parse));
    }
  }

  /** Every walked file is Markdown. */
  lemma {:induction false} MarkdownFilesAreMarkdown(path: string, e: Entry)
    ensures forall f <- MarkdownFiles(path, e) :: IsMarkdown(f.0)
    decreases Size(e), 1
  {
    if e.Dir? {
      MarkdownFilesAllAreMarkdown(path, e.children);
    }
  }

  lemma {:induction false} MarkdownFilesAllAreMarkdown(path: string, es: seq<Entry>)
    ensures forall f <- MarkdownFilesAll(path, es) :: IsMarkdown(f.0)
    decreases SizeAll(es), 0
  {
    if es != [] {
      var last := es[|es| - 1];
      MarkdownFilesAllAreMarkdown(path, es[..|es| - 1]);
      MarkdownFilesAreMarkdown(Join(path, last.name), last);
    }
  }

  /** The names in an insertion are exactly the keys of its files. */
  lemma {:induction false} InsertAllKeys(fs: seq<(string, string)>, key: string -> string,
                                         doc: string -> Document<Metadata>)
    ensures forall k :: k in InsertAll(fs, key, doc) <==> exists f <- fs :: key(f.0) == k
    decreases |fs|
  {
    if fs != [] {
      var init := fs[..|fs| - 1];
      var f := fs[|fs| - 1];
      InsertAllKeys(init, key, doc);
      assert fs == init + [f];
      forall k
        ensures k in InsertAll(fs, key, doc) <==> exists g <- fs :: key(g.0) == k
      {
        if exists g <- fs :: key(g.0) == k {
          var g :| g in fs && key(g.0) == k;
          if g != f {
            assert g in init;
          }
        }
      }
    }
  }

  /** The corpus holds a document under a name exactly when some Markdown file
      of the walk has that relative name. */
  lemma ReadTreeKeys(basedir: string, path: string, e: Entry, parse: Parser<Metadata>)
    ensures forall k :: k in ReadTree(basedir, path, e, parse)
                  <==> exists f <- MarkdownFiles(path, e) :: Utils.GetBaseFilename(basedir, f.0) == k
  {
    ReadTreeIsInsertAll(basedir, path, e, parse);
    InsertAllKeys(MarkdownFiles(path, e), KeyOf(basedir), DocOf(parse));
  }

  /** A single Markdown file given as the manuscript is its own base directory,
      so it is stored under the empty name; any other single file yields nothing. */
  lemma ReadTreeSingleFile(path: string, text: string, parse: Parser<Metadata>)
    ensures IsMarkdown(path) ==>
              ReadTree(path, path, File(path, text), parse) == map["" := Markdown.ParsedMarkdown(text, parse)]
    ensures !IsMarkdown(path) ==> ReadTree(path, path, File(path, text), parse) == map[]
  {
    Utils.GetBaseFilenameSelf(path);
  }

  /** The PII of a clone when the original has none: every field present and empty. */
  const BLANK_PII: Pii := Pii(Some(""), Some(""), Some(""), Some(""), Some(""), Some(""),
                              Some(""), Some(""), Some(""), Some([]))

  /** `Context::clone`: the corpus is copied entry by entry and the options field
      by field. The clone always has PII: a copy of the original's metadata with
      an empty body, or every field present and empty when there was none. */
  method Clone(ctx: Context) returns (c: Context)
    ensures c.files == ctx.files
    ensures c.anonymous == ctx.anonymous && c.classic == ctx.classic && c.basedir == ctx.basedir
    ensures c.font == ctx.font && c.fontSize == ctx.fontSize && c.outputDir == ctx.outputDir
    ensures c.wordCount == ctx.wordCount
    ensures c.pii.Some? && c.pii.value.content == ""
    ensures c.pii.value.metadata == if ctx.pii.Some? then ctx.pii.value.metadata else BLANK_PII
  {
    var files: map<string, Document<Metadata>> := map[];
    var todo := ctx.files.Keys;
    while todo != {}
      invariant todo <= ctx.files.Keys
      invariant files == map k | k in ctx.files.Keys - todo :: ctx.files[k]
      decreases |todo|
    {
      var key :| key in todo;
      var value := ctx.files[key];
      var doc := Document(value.metadata, value.content);
      files := files[key := doc];
      todo := todo - {key};
    }
    var piiClone := Document(BLANK_PII, "");
    if ctx.pii.Some? {
      var m := ctx.pii.value.metadata;
      piiClone := piiClone.(metadata := piiClone.metadata.(legalName := m.legalName));
      piiClone := piiClone.(metadata := piiClone.metadata.(address1 := m.address1));
      piiClone := piiClone.(metadata := piiClone.metadata.(address2 := m.address2));
      piiClone := piiClone.(metadata := piiClone.metadata.(affiliations := m.affiliations));
      piiClone := piiClone.(metadata := piiClone.metadata.(city := m.city));
      piiClone := piiClone.(metadata := piiClone.metadata.(country := m.country));
      piiClone := piiClone.(metadata := piiClone.metadata.(email := m.email));
      piiClone := piiClone.(metadata := piiClone.metadata.(postalCode := m.postalCode));
      piiClone := piiClone.(metadata := piiClone.metadata.(state := m.state));
      piiClone := piiClone.(metadata := piiClone.metadata.(phone := m.phone));
    }
    c := Context(ctx.anonymous, ctx.classic, ctx.basedir, files, ctx.font, ctx.fontSize,
                 Some(piiClone), ctx.outputDir, ctx.wordCount);
  }

  /** `Context::new`. The command-line arguments are the manuscript path, the
      optional output directory and word-count flag, and the text of the PII file
      when one was named; `tree` is what the file system holds at the manuscript
      path and `defaultOutputDir` is the expanded default output directory. */
  method NewContext(filenameOrPath: string, outputDir: Option<string>, wordCount: Option<bool>,
                    piiText: Option<string>, tree: Entry, defaultOutputDir: string,
                    parse: Parser<Metadata>, parsePii: Parser<Pii>)
    returns (ctx: Context)
    requires !tree.Special?
    ensures !ctx.anonymous && !ctx.classic
    ensures ctx.basedir == filenameOrPath
    ensures ctx.font == FONTS[0] == "Courier New" && ctx.fontSize == FONT_SIZE == 24
    ensures ctx.outputDir == if outputDir.Some? then outputDir.value else defaultOutputDir
    ensures ctx.wordCount == (wordCount.Some? && wordCount.value)
    ensures ctx.pii == if piiText.Some? then Some(Markdown.ParsedPii(piiText.value, parsePii)) else None
    ensures ctx.files == ReadTree(filenameOrPath, filenameOrPath, tree, parse)
  {
    var basedir := filenameOrPath;
    ctx := Context(false, false, basedir, map[], FONTS[0], FONT_SIZE, None,
                   if outputDir.Some? then outputDir.value else defaultOutputDir,
                   if wordCount.Some? then wordCount.value else false);
    if !ctx.anonymous {
      if piiText.Some? {
        var pii := Markdown.ParsePii(piiText.value, parsePii);
        if pii.Ok? {
          ctx := ctx.(pii := Some(pii.value));
        }
      }
    }
    var files := ReadFiles(basedir, basedir, tree, parse);
    ctx := ctx.(files := files);
  }
}
