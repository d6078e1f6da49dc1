/** Assembly of a manuscript into paragraphs (src/markdown.rs, `content_to_paragraphs`
    and `flatten_markdown`). A Word paragraph is abstracted to the kind of block it
    is; alignment, spacing, indentation and font size are rendering attributes and
    are not kept. */
module Manuscript {
  import opened Wrappers
  import opened Metadata
  import opened FrontMatter
  import opened Error
  import Utils
  import Cmark
  import Markdown
  import Context

  /** The paragraphs the compiler emits: the page-break spacer that opens a
      heading, the empty paragraphs below it, the centred heading, the centred
      `#` scene separator, and a double-spaced paragraph of text runs. */
  datatype Block =
    | PageBreakSpacer
    | Empty
    | Heading(text: string)
    | Separator
    | Para(runs: seq<Cmark.Run>)

  // ---------------------------------------------------------------------------
  // str::lines

  /** The length of the first line: the index of the first newline, or the
      whole text when there is none. */
  function LineEnd(s: string): (k: nat)
    ensures k <= |s|
    ensures forall i :: 0 <= i < k ==> s[i] != '\n'
    ensures k < |s| ==> s[k] == '\n'
  {
    if s == [] || s[0] == '\n' then 0 else 1 + LineEnd(s[1..])
  }

  /** A line that ended in a newline loses one carriage return before it. */
  function StripCr(line: string): (r: string)
    ensures r == line || (line != [] && line[|line| - 1] == '\r' && r == line[..|line| - 1])
  {
    if line != [] && line[|line| - 1] == '\r' then line[..|line| - 1] else line
  }

  /** `str::lines`: the text split at each `\n` (with a `\r` before it dropped);
      a final newline does not start another line, and a carriage return at the
      very end is kept. */
  function Lines(s: string): (ls: seq<string>)
    decreases |s|
  {
    if s == [] then []
    else
      var k := LineEnd(s);
      if k == |s| then [s]
      else [StripCr(s[..k])] + Lines(s[k + 1..])
  }

  /** Each line followed by a newline. */
  function Unlines(ls: seq<string>): string
  {
    if ls == [] then [] else ls[0] + "\n" + Unlines(ls[1..])
  }

  lemma UnlinesCons(l: string, ls: seq<string>)
    ensures Unlines([l] + ls) == l + "\n" + Unlines(ls)
  {
    assert ([l] + ls)[1..] == ls;
  }

  lemma SplitAt(s: string, k: nat)
    requires k < |s| && s[k] == '\n'
    ensures s == s[..k] + "\n" + s[k + 1..]
  {
  }

  /** Splitting into lines loses nothing from a text with no carriage return
      whose last line is terminated. */
  lemma {:induction false} UnlinesLines(s: string)
    requires '\r' !in s
    requires s == [] || s[|s| - 1] == '\n'
    ensures Unlines(Lines(s)) == s
    decreases |s|
  {
    if s != [] {
      var k := LineEnd(s);
      var line, rest := s[..k], s[k + 1..];
      assert line == [] || line[|line| - 1] == s[k - 1];
      assert StripCr(line) == line;
      assert '\r' !in rest by {
        forall i | 0 <= i < |rest| ensures rest[i] != '\r' {
          assert rest[i] == s[k + 1 + i];
        }
      }
      assert rest == [] || rest[|rest| - 1] == s[|s| - 1];
      UnlinesLines(rest);
      UnlinesCons(line, Lines(rest));
      SplitAt(s, k);
    }
  }

  /** Lines on their own, none ending in a carriage return, come back from
      their newline-terminated concatenation. */
  lemma {:induction false} LinesUnlines(ls: seq<string>)
    requires forall l <- ls :: '\n' !in l && (l == [] || l[|l| - 1] != '\r')
    ensures Lines(Unlines(ls)) == ls
    decreases |ls|
  {
    if ls != [] {
      var l, t := ls[0], Unlines(ls[1..]);
      assert ls == [l] + ls[1..];
      UnlinesCons(l, ls[1..]);
      LinesUnlines(ls[1..]);
      JoinLine(l, t);
      assert StripCr(l) == l;
    }
  }

  /** Splitting a line off the front of a text that starts with it. */
  lemma JoinLine(l: string, t: string)
    requires '\n' !in l
    ensures Lines(l + "\n" + t) == [StripCr(l)] + Lines(t)
  {
    var s := l + "\n" + t;
    assert s == l + ("\n" + t);
    LineEndPrefix(l, "\n" + t);
    assert s[..|l|] == l;
    assert s[|l| + 1..] == t;
  }

  lemma {:induction false} LineEndPrefix(l: string, t: string)
    requires '\n' !in l && t != [] && t[0] == '\n'
    ensures LineEnd(l + t) == |l|
    decreases |l|
  {
    if l != [] {
      assert (l + t)[1..] == l[1..] + t;
      LineEndPrefix(l[1..], t);
    } else {
      assert l + t == t;
    }
  }

  // ---------------------------------------------------------------------------
  // content_to_paragraphs

  /** A line that is only whitespace yields no block. */
  predicate Blank(line: string)
  {
    Markdown.AllWhitespace(line)
  }

  /** The block of a non-blank line: the scene separator when the trimmed line is
      `#`, otherwise a paragraph of the runs the line's events tokenize into. */
  function BlockOf(line: string, lex: Cmark.Lexer): Block
  {
    if Markdown.Trim(line) == "#" then Separator else Para(Cmark.Tokenize(lex(line)).runs)
  }

  /** `BlockOf` for a fixed lexer. */
  function BlockFn(lex: Cmark.Lexer): string -> Block
  {
    line => BlockOf(line, lex)
  }

  /** The blocks of a sequence of lines, emitted line by line: `block` of each
      non-blank line. */
  function LineBlocks(lines: seq<string>, block: string -> Block): seq<Block>
  {
    if lines == [] then []
    else
      var last := lines[|lines| - 1];
      LineBlocks(lines[..|lines| - 1], block) + (if Blank(last) then [] else [block(last)])
  }

  /** The non-blank lines, in order. */
  function NonBlank(lines: seq<string>): (r: seq<string>)
    ensures forall l <- r :: l in lines && !Blank(l)
  {
    if lines == [] then []
    else
      var last := lines[|lines| - 1];
      NonBlank(lines[..|lines| - 1]) + (if Blank(last) then [] else [last])
  }

  /** The paragraphs of a document's content: comments stripped, then one block
      per line. */
  function Paragraphs(content: string, lex: Cmark.Lexer): seq<Block>
  {
    LineBlocks(Lines(Markdown.StripComments(content)), BlockFn(lex))
  }

  /** The body of the per-line closure of `content_to_paragraphs`, for a
      non-blank line. */
  method LineBlock(line: string, lex: Cmark.Lexer) returns (b: Block)
    ensures b == BlockOf(line, lex)
  {
    if Markdown.Trim(line) == "#" {
      b := Separator;
    } else {
      var runs := Cmark.ParseParagraph(lex(line));
      b := Para(runs);
    }
  }

  /** `content_to_paragraphs`. */
  method ContentToParagraphs(content: string, lex: Cmark.Lexer) returns (paragraphs: seq<Block>)
    ensures paragraphs == Paragraphs(content, lex)
  {
    var stripped := Markdown.StripComments(content);
    var lines := Lines(stripped);
    paragraphs := LinesToBlocks(lines, lex);
  }

  /** The loop of `content_to_paragraphs`: one block per non-blank line. */
  method LinesToBlocks(lines: seq<string>, lex: Cmark.Lexer) returns (paragraphs: seq<Block>)
    ensures paragraphs == LineBlocks(lines, BlockFn(lex))
  {
    paragraphs := [];
    if |lines| > 0 {
      for i := 0 to |lines|
        invariant paragraphs == LineBlocks(lines[..i], BlockFn(lex))
      {
        assert lines[..i + 1] == lines[..i] + [lines[i]];
        LineBlocksSnoc(lines[..i], lines[i], BlockFn(lex));
        paragraphs := PushLine(paragraphs, lines[i], lex);
      }
      assert lines[..|lines|] == lines;
    }
  }

  /** One step of that loop: a non-blank line adds its block. */
  method PushLine(paragraphs: seq<Block>, line: string, lex: Cmark.Lexer) returns (r: seq<Block>)
    ensures r == paragraphs + if Blank(line) then [] else [BlockFn(lex)(line)]
  {
    r := paragraphs;
    Markdown.TrimEmptyIff(line);
    if Markdown.Trim(line) != [] {
      var b := LineBlock(line, lex);
      assert b == BlockFn(lex)(line);
      r := r + [b];
    }
  }

  lemma LineBlocksSnoc(lines: seq<string>, line: string, block: string -> Block)
    ensures LineBlocks(lines + [line], block)
            == LineBlocks(lines, block) + if Blank(line) then [] else [block(line)]
  {
    assert (lines + [line])[..|lines|] == lines;
  }

  /** `blocks` maps `lines` one to one through `block`. */
  ghost predicate BlocksOf(blocks: seq<Block>, lines: seq<string>, block: string -> Block)
  {
    |blocks| == |lines| && forall k :: 0 <= k < |lines| ==> blocks[k] == block(lines[k])
  }

  lemma BlocksOfSnoc(blocks: seq<Block>, lines: seq<string>, line: string, block: string -> Block)
    requires BlocksOf(blocks, lines, block)
    ensures BlocksOf(blocks + [block(line)], lines + [line], block)
  {
  }

  /** One block per non-blank line, in line order: the blocks are the non-blank
      lines, each mapped to its block. */
  lemma {:induction false} LineBlocksOfNonBlank(lines: seq<string>, block: string -> Block)
    ensures |LineBlocks(lines, block)| == |NonBlank(lines)|
    ensures forall k :: 0 <= k < |NonBlank(lines)| ==> LineBlocks(lines, block)[k] == block(NonBlank(lines)[k])
  {
    if lines != [] {
      var init, last := lines[..|lines| - 1], lines[|lines| - 1];
      LineBlocksOfNonBlank(init, block);
      if Blank(last) {
        assert LineBlocks(lines, block) == LineBlocks(init, block);
        assert NonBlank(lines) == NonBlank(init);
      } else {
        assert LineBlocks(lines, block) == LineBlocks(init, block) + [block(last)];
        assert NonBlank(lines) == NonBlank(init) + [last];
        BlocksOfSnoc(LineBlocks(init, block), NonBlank(init), last, block);
      }
    }
  }

  /** Every block of a document's content is a separator or a paragraph, and every
      run of a paragraph has the manuscript size and at most one style. */
  lemma {:induction false} LineBlocksKinds(lines: seq<string>, lex: Cmark.Lexer)
    ensures forall b <- LineBlocks(lines, BlockFn(lex)) :: b.Separator? || b.Para?
    ensures forall b <- LineBlocks(lines, BlockFn(lex)) ::
              b.Para? ==> forall r <- b.runs :: Cmark.WellFormed(r)
  {
    if lines != [] {
      var init, last := lines[..|lines| - 1], lines[|lines| - 1];
      LineBlocksKinds(init, lex);
      assert lines == init + [last];
      LineBlocksSnoc(init, last, BlockFn(lex));
      BlockOfKinds(last, lex);
    }
  }

  lemma BlockOfKinds(line: string, lex: Cmark.Lexer)
    ensures var b := BlockFn(lex)(line);
            (b.Separator? || b.Para?) && (b.Para? ==> forall r <- b.runs :: Cmark.WellFormed(r))
  {
    Cmark.TokenizeWellFormed(lex(line));
    assert BlockFn(lex)(line) == BlockOf(line, lex);
  }

  /** Content that is only comments and whitespace (the source's `COMMENTS`
      test input) yields no paragraphs. */
  lemma ParagraphsOfComments(lex: Cmark.Lexer)
    ensures Paragraphs(Markdown.COMMENTS, lex) == []
  {
    Markdown.StripCommentsTest();
  }

  /** Text without a newline is a single line. */
  lemma SingleLine(s: string)
    requires s != [] && forall i :: 0 <= i < |s| ==> s[i] != '\n'
    ensures Lines(s) == [s]
  {
  }

  lemma TrimHash()
    ensures Markdown.Trim("#") == "#"
  {
    assert !Markdown.IsWhitespace('#');
    Markdown.TrimUnchanged("#");
  }

  lemma SeparatorBlock(lex: Cmark.Lexer)
    ensures !Blank("#") && BlockFn(lex)("#") == Separator
  {
    TrimHash();
    assert BlockFn(lex)("#") == BlockOf("#", lex);
  }

  lemma SeparatorLine(lex: Cmark.Lexer)
    ensures LineBlocks(["#"], BlockFn(lex)) == [Separator]
  {
    SeparatorBlock(lex);
    assert ["#"][..0] == [];
  }

  lemma NoCommentInSeparator()
    ensures !Utils.Occurs("%%", "#")
  {
    forall i | Utils.OccursAt("%%", "#", i)
      ensures false
    {
    }
  }

  /** A lone `#` line is the scene separator. */
  lemma ParagraphsOfSeparator(lex: Cmark.Lexer)
    ensures Paragraphs("#", lex) == [Separator]
  {
    assert Markdown.StripComments("#") == "#" by {
      NoCommentInSeparator();
      Markdown.StripCommentsNoMarker("#");
      TrimHash();
    }
    assert Lines("#") == ["#"] by {
      SingleLine("#");
    }
    SeparatorLine(lex);
  }

  // ---------------------------------------------------------------------------
  // flatten_markdown

  /** The number of empty paragraphs between the page break and the heading. */
  const HEADING_PADDING: nat := 23

  /** The blocks that open a document with a heading. */
  function HeadingGroup(h: string): (r: seq<Block>)
    ensures |r| == 25 && r[0] == PageBreakSpacer && r[24] == Heading(h)
    ensures forall i :: 1 <= i < 24 ==> r[i] == Empty
  {
    [PageBreakSpacer] + seq(HEADING_PADDING, _ => Empty) + [Heading(h)]
  }

  /** The manuscript so far, and whether the scene separator is armed. */
  datatype Assembly = Assembly(blocks: seq<Block>, armed: bool)

  /** One included document: its heading group (which disarms the separator),
      the separator if still armed, then its paragraphs, which arm it. */
  function IncludeStep(a: Assembly, doc: Document<Metadata>, paras: string -> seq<Block>): Assembly
  {
    var heading := if doc.metadata.heading.Some? then HeadingGroup(doc.metadata.heading.value) else [];
    var armed := a.armed && doc.metadata.heading.None?;
    var p := paras(doc.content);
    Assembly(a.blocks + heading + (if armed then [Separator] else []) + p, armed || p != [])
  }

  /** The assembly after one more include: a failure stays, a missing include
      fails, and a present one is added. */
  function Include(r: Result<Assembly, Md2msError>, ctx: Context.Context, f: string, paras: string -> seq<Block>)
    : Result<Assembly, Md2msError>
  {
    match r
    case Err(e) => Err(e)
    case Ok(a) =>
      if Context.FileExists(ctx, f) then Ok(IncludeStep(a, ctx.files[f], paras))
      else Err(FileNotFound(f))
  }

  /** The includes assembled in manifest order, stopping at the first one that is
      not in the corpus. */
  function Assemble(ctx: Context.Context, includes: seq<string>, paras: string -> seq<Block>)
    : Result<Assembly, Md2msError>
  {
    if includes == [] then Ok(Assembly([], false))
    else Include(Assemble(ctx, includes[..|includes| - 1], paras), ctx, includes[|includes| - 1], paras)
  }

  /** `content_to_paragraphs` as a function of the content alone. */
  function ParagraphsOf(lex: Cmark.Lexer): string -> seq<Block>
  {
    c => Paragraphs(c, lex)
  }

  /** What `flatten_markdown` returns: a standalone document's own paragraphs, or
      the assembly of its manifest. */
  function Flatten(ctx: Context.Context, document: Document<Metadata>, lex: Cmark.Lexer)
    : Result<seq<Block>, Md2msError>
  {
    if document.metadata.includes.None? then Ok(Paragraphs(document.content, lex))
    else
      match Assemble(ctx, document.metadata.includes.value, ParagraphsOf(lex))
      case Err(e) => Err(e)
      case Ok(a) => Ok(a.blocks)
  }

  /** `flatten_markdown`. The context is only read. */
  method FlattenMarkdown(ctx: Context.Context, document: Document<Metadata>, lex: Cmark.Lexer)
    returns (r: Result<seq<Block>, Md2msError>)
    ensures r == Flatten(ctx, document, lex)
  {
    var paragraphs: seq<Block> := [];
    var armed := false;
    if document.metadata.includes.None? {
      var p := ContentToParagraphs(document.content, lex);
      return Ok(p);
    }
    var includes := document.metadata.includes.value;
    for i := 0 to |includes|
      invariant Assemble(ctx, includes[..i], ParagraphsOf(lex)) == Ok(Assembly(paragraphs, armed))
    {
      var file := includes[i];
      AssembleSnoc(ctx, includes, i, ParagraphsOf(lex));
      if !Context.FileExists(ctx, file) {
        AssembleStops(ctx, includes, i + 1, ParagraphsOf(lex));
        return Err(FileNotFound(file));
      }
      var md := Context.GetFile(ctx, file).value;
      paragraphs, armed := IncludeDocument(paragraphs, armed, md, lex);
    }
    assert includes[..|includes|] == includes;
    return Ok(paragraphs);
  }

  /** One included document, as the loop of `flatten_markdown` adds it. */
  method IncludeDocument(paragraphs: seq<Block>, armed: bool, md: Document<Metadata>, lex: Cmark.Lexer)
    returns (paragraphs': seq<Block>, armed': bool)
    ensures Assembly(paragraphs', armed') == IncludeStep(Assembly(paragraphs, armed), md, ParagraphsOf(lex))
  {
    paragraphs', armed' := OpenDocument(paragraphs, armed, md);
    var p := ContentToParagraphs(md.content, lex);
    assert p == ParagraphsOf(lex)(md.content);
    if p != [] {
      paragraphs' := paragraphs' + p;
      armed' := true;
    }
  }

  lemma AssembleSnoc(ctx: Context.Context, includes: seq<string>, i: nat, paras: string -> seq<Block>)
    requires i < |includes|
    ensures Assemble(ctx, includes[..i + 1], paras) == Include(Assemble(ctx, includes[..i], paras), ctx, includes[i], paras)
  {
    assert includes[..i + 1][..i] == includes[..i];
  }

  /** What goes before an included document's paragraphs: its heading group,
      which disarms the separator, then the separator if it is still armed. */
  method OpenDocument(paragraphs: seq<Block>, armed: bool, md: Document<Metadata>)
    returns (paragraphs': seq<Block>, armed': bool)
    ensures armed' == (armed && md.metadata.heading.None?)
    ensures paragraphs' == paragraphs
                           + (if md.metadata.heading.Some? then HeadingGroup(md.metadata.heading.value) else [])
                           + (if armed' then [Separator] else [])
  {
    paragraphs', armed' := paragraphs, armed;
    if md.metadata.heading.Some? {
      armed' := false;
      paragraphs' := PushHeading(paragraphs', md.metadata.heading.value);
    }
    if armed' {
      paragraphs' := paragraphs' + [Separator];
    }
  }

  /** Pushes the page-break spacer, the padding and the centred heading. */
  method PushHeading(paragraphs: seq<Block>, h: string) returns (r: seq<Block>)
    ensures r == paragraphs + HeadingGroup(h)
  {
    r := paragraphs + [PageBreakSpacer];
    for k := 0 to HEADING_PADDING
      invariant r == paragraphs + [PageBreakSpacer] + seq(k, _ => Empty)
    {
      r := r + [Empty];
    }
    r := r + [Heading(h)];
  }

  /** Once an include is missing, the rest of the manifest is not looked at. */
  lemma {:induction false} AssembleStops(ctx: Context.Context, includes: seq<string>, n: nat,
                                         paras: string -> seq<Block>)
    requires n <= |includes| && Assemble(ctx, includes[..n], paras).Err?
    ensures Assemble(ctx, includes, paras) == Assemble(ctx, includes[..n], paras)
    decreases |includes|
  {
    if n < |includes| {
      assert includes[..|includes| - 1][..n] == includes[..n];
      AssembleStops(ctx, includes[..|includes| - 1], n, paras);
    } else {
      assert includes[..n] == includes;
    }
  }

  /** Every include of the manifest is in the corpus. */
  predicate AllPresent(ctx: Context.Context, includes: seq<string>)
  {
    forall f <- includes :: f in ctx.files
  }

  /** The assembly succeeds exactly when every include is in the corpus. */
  lemma {:induction false} AssembleSucceeds(ctx: Context.Context, includes: seq<string>, paras: string -> seq<Block>)
    ensures Assemble(ctx, includes, paras).Ok? <==> AllPresent(ctx, includes)
    decreases |includes|
  {
    if includes != [] {
      var init, last := includes[..|includes| - 1], includes[|includes| - 1];
      AssembleSucceeds(ctx, init, paras);
      assert includes == init + [last];
      assert AllPresent(ctx, includes) <==> AllPresent(ctx, init) && last in ctx.files;
    }
  }

  /** A failed assembly names the first include, in manifest order, that is
      missing from the corpus. */
  lemma AssembleFirstMissing(ctx: Context.Context, includes: seq<string>, i: nat, paras: string -> seq<Block>)
    requires i < |includes| && includes[i] !in ctx.files
    requires forall j :: 0 <= j < i ==> includes[j] in ctx.files
    ensures Assemble(ctx, includes, paras) == Err(FileNotFound(includes[i]))
  {
    var init := includes[..i];
    assert AllPresent(ctx, init) by {
      forall f <- init ensures f in ctx.files {
        var j :| 0 <= j < i && init[j] == f;
        assert includes[j] == f;
      }
    }
    AssembleSucceeds(ctx, init, paras);
    assert includes[..i + 1][..i] == init;
    assert Assemble(ctx, includes[..i + 1], paras) == Err(FileNotFound(includes[i]));
    AssembleStops(ctx, includes, i + 1, paras);
  }

  /** Include `i` armed the separator and no later include disarmed it. */
  predicate ArmedBy(ctx: Context.Context, includes: seq<string>, i: int, paras: string -> seq<Block>)
    requires AllPresent(ctx, includes)
  {
    && 0 <= i < |includes|
    && paras(ctx.files[includes[i]].content) != []
    && forall j :: i < j < |includes| ==> ctx.files[includes[j]].metadata.heading.None?
  }

  /** The scene separator is armed after the manifest exactly when some include
      contributed paragraphs and no later include has a heading. */
  lemma {:induction false} AssembleArmed(ctx: Context.Context, includes: seq<string>, paras: string -> seq<Block>)
    requires AllPresent(ctx, includes)
    ensures Assemble(ctx, includes, paras).Ok?
    ensures Assemble(ctx, includes, paras).value.armed <==> exists i :: ArmedBy(ctx, includes, i, paras)
    decreases |includes|
  {
    AssembleSucceeds(ctx, includes, paras);
    if includes != [] {
      var n := |includes| - 1;
      var init, last := includes[..n], includes[n];
      assert AllPresent(ctx, init) by {
        forall f <- init ensures f in ctx.files {
          assert f in includes;
        }
      }
      AssembleArmed(ctx, init, paras);
      var a := Assemble(ctx, init, paras).value;
      var doc := ctx.files[last];
      var a' := Assemble(ctx, includes, paras).value;
      assert a' == IncludeStep(a, doc, paras);
      if a'.armed {
        if paras(doc.content) != [] {
          assert ArmedBy(ctx, includes, n, paras);
        } else {
          var i :| ArmedBy(ctx, init, i, paras);
          assert ArmedBy(ctx, includes, i, paras);
        }
      }
      if i :| ArmedBy(ctx, includes, i, paras) {
        if i < n {
          assert ArmedBy(ctx, init, i, paras);
        }
      }
    }
  }

  /** The separator goes before an include exactly when it has no heading and an
      earlier include armed the separator; a heading group goes before one that
      has a heading. */
  lemma AssembleNext(ctx: Context.Context, includes: seq<string>, f: string, paras: string -> seq<Block>)
    requires Assemble(ctx, includes, paras).Ok? && f in ctx.files
    ensures var a := Assemble(ctx, includes, paras).value;
            var doc := ctx.files[f];
            Assemble(ctx, includes + [f], paras)
            == Ok(Assembly(a.blocks
                           + (if doc.metadata.heading.Some? then HeadingGroup(doc.metadata.heading.value) else [])
                           + (if a.armed && doc.metadata.heading.None? then [Separator] else [])
                           + paras(doc.content),
                           (a.armed && doc.metadata.heading.None?) || paras(doc.content) != []))
  {
    assert (includes + [f])[..|includes|] == includes;
  }

  /** Nothing is emitted before the first include that contributes paragraphs
      except heading groups: in particular no scene separator. */
  lemma {:induction false} AssembleNoSeparatorBeforeContent(ctx: Context.Context, includes: seq<string>,
                                                            paras: string -> seq<Block>)
    requires AllPresent(ctx, includes)
    requires forall f <- includes :: paras(ctx.files[f].content) == []
    ensures Assemble(ctx, includes, paras).Ok? && !Assemble(ctx, includes, paras).value.armed
    ensures Separator !in Assemble(ctx, includes, paras).value.blocks
    decreases |includes|
  {
    AssembleSucceeds(ctx, includes, paras);
    if includes != [] {
      var init, last := includes[..|includes| - 1], includes[|includes| - 1];
      assert forall f <- init :: f in includes;
      AssembleNoSeparatorBeforeContent(ctx, init, paras);
      var a := Assemble(ctx, init, paras).value;
      var doc := ctx.files[last];
      assert Assemble(ctx, includes, paras).value == IncludeStep(a, doc, paras);
      assert paras(doc.content) == [];
      if doc.metadata.heading.Some? {
        var h := HeadingGroup(doc.metadata.heading.value);
        assert Separator !in h by {
          forall i | 0 <= i < |h| ensures h[i] != Separator {
          }
        }
      }
    }
  }

  /** A standalone document is its own paragraphs. */
  lemma FlattenStandalone(ctx: Context.Context, document: Document<Metadata>, lex: Cmark.Lexer)
    requires document.metadata.includes.None?
    ensures Flatten(ctx, document, lex) == Ok(Paragraphs(document.content, lex))
  {
  }

  /** `flatten_markdown` on a manifest fails exactly when an include is missing. */
  lemma FlattenSucceeds(ctx: Context.Context, document: Document<Metadata>, lex: Cmark.Lexer)
    requires document.metadata.includes.Some?
    ensures Flatten(ctx, document, lex).Ok? <==> AllPresent(ctx, document.metadata.includes.value)
  {
    AssembleSucceeds(ctx, document.metadata.includes.value, ParagraphsOf(lex));
  }

  /** `flatten_markdown` reports the first missing include and nothing else. */
  lemma FlattenFirstMissing(ctx: Context.Context, document: Document<Metadata>, i: nat, lex: Cmark.Lexer)
    requires document.metadata.includes.Some?
    requires var includes := document.metadata.includes.value;
             i < |includes| && includes[i] !in ctx.files
             && forall j :: 0 <= j < i ==> includes[j] in ctx.files
    ensures Flatten(ctx, document, lex) == Err(FileNotFound(document.metadata.includes.value[i]))
  {
    AssembleFirstMissing(ctx, document.metadata.includes.value, i, ParagraphsOf(lex));
  }

  /** Once armed, the separator is emitted even before an include with no
      paragraphs, so two separators can be adjacent. */
  lemma AssembleAdjacentSeparators(ctx: Context.Context, a: string, b: string, c: string,
                                   paras: string -> seq<Block>)
    requires a in ctx.files && b in ctx.files && c in ctx.files
    requires ctx.files[a].metadata.heading.None? && ctx.files[b].metadata.heading.None?
    requires ctx.files[c].metadata.heading.None?
    requires paras(ctx.files[a].content) != []
    requires paras(ctx.files[b].content) == [] && paras(ctx.files[c].content) == []
    ensures Assemble(ctx, [a, b, c], paras) == Ok(Assembly(paras(ctx.files[a].content) + [Separator, Separator], true))
  {
    var p := paras(ctx.files[a].content);
    assert [a] == [] + [a] && [a, b] == [a] + [b] && [a, b, c] == [a, b] + [c];
    AssembleNext(ctx, [], a, paras);
    assert [] + [] + [] + p == p;
    AssembleNext(ctx, [a], b, paras);
    assert p + [] + [Separator] + [] == p + [Separator];
    AssembleNext(ctx, [a, b], c, paras);
    assert p + [Separator] + [] + [Separator] + [] == p + [Separator, Separator];
  }
}
