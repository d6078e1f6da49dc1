# md2ms manuscript pipeline, modelled in Dafny

md2ms compiles a directory of Markdown fragments into a manuscript in Shunn's
standard manuscript format. This project models the core of that compiler:

- **Corpus loader** (`context.dfy`). This models `Context` and `read_files`.
  - The manuscript path is walked as an in-memory directory tree.
  - Every Markdown file is parsed and stored under its name relative to the base directory. The base directory is removed wherever it occurs, then the leading slashes are dropped.
- **Text clean-up** (`markdown.dfy`). The three regular expressions of the source are written out as scanners that perform leftmost-first, non-overlapping replacement:
  - `trim_doublespace` collapses runs of spaces;
  - `trim_links` replaces `[label](target)` with `label`;
  - `strip_comments` removes `%%` comment blocks, then trims the text.
  - The YAML front-matter parser is a parameter. `parse_markdown` and `parse_pii` are modelled around it.
- **Inline run tokenizer** (`cmark.dfy`). `parse_paragraph` is a one-pass state machine over the event sequence of a Markdown parser. It flushes its current run on every style start and every end event.
- **Manuscript assembly** (`manuscript.dfy`).
  - `content_to_paragraphs` turns each non-blank line into a block: the `#` scene separator, or a paragraph of runs.
  - `flatten_markdown` walks the `include` manifest in order and emits heading groups. It arms and emits the scene separator, and fails on the first missing include.
  - A Word paragraph is abstracted to the `Block` datatype.
- **Word-count rounding and relative names** (`utils.dfy`).
- **Obsidian plugin configuration**. These are the in-place list updates of the plugins' `data.json` and the location of that file:
  - `obsidian_shellcommands.dfy`: `sync` and the command builders;
  - `obsidian_commander.dfy`: `add_file_menu`;
  - `obsidian_paths.dfy` and `paths.dfy`: the file's location.
- **Data only**: `constants.dfy`, `metadata.dfy`, `pii.dfy`, `error.dfy`, `frontmatter.dfy`, `json.dfy`, `wrappers.dfy`.

Where the program works step by step, the model is imperative: `Cmark.ParseParagraph`, `Manuscript.ContentToParagraphs`, `Manuscript.FlattenMarkdown`, `Context.ReadFiles`, `Context.Clone`, the plugin classes and `Utils.RoundUp`. Each of the methods below is proved equal to a specification function, and the properties are proved about that function. `Utils.RoundUp` is instead pinned down by a characterisation of its result (the next multiple strictly above the count). `Context.Clone` states the clone's fields one by one:

| Method | Specification function |
|---|---|
| `ParseParagraph` | `Tokenize` |
| `ContentToParagraphs` | `Paragraphs` |
| `FlattenMarkdown` | `Flatten` / `Assemble` |
| `ReadFiles` | `ReadTree` |
| `Sync` | `SyncAll` |
| `AddFileMenu` | `WithFileMenu` |

Where the program is an expression, the model is a function, with lemmas about it.

Where a general description of md2ms and the code disagree, the model follows the code:

- `round_up` never returns its input:
  - 0 becomes 100 and 100 becomes 200;
  - a count of 100 or less is not kept exact;
  - every count moves to the next multiple strictly above it.
- The body post-processing is not idempotent. `trim_links` turns `[[a](b)](c)` into `[a](c)`, and a second application gives `a` (`Markdown.TrimLinksNotIdempotent`). `trim_doublespace` alone is idempotent.
- Scene separators can be doubled. Once armed, the separator is emitted before every later include without a heading, including includes that contribute no paragraph (`Manuscript.AssembleAdjacentSeparators`).
- Subdirectory corpora are merged with `extend`, which is not a disjoint union. When two files get the same relative name, the one walked later wins (`Context.ReadTreeIsInsertAll`). This can happen because the base directory is removed wherever it occurs in a path.
- A standalone document can contain separators. A line that trims to `#` becomes the scene separator (`Manuscript.ParagraphsOfSeparator`).
- The "Failed to parse" branch of `read_files` is dead: `parse_markdown` always succeeds (`Markdown.ParseMarkdown`).
- `parse_markdown`'s content can still hold a double space after the collapsing step. A link whose label is a space, between two spaces, leaves three spaces once the link is replaced (`Markdown.ParseMarkdownContentDoubleSpace`).

`ctx.file_exists` is not defined in src/context.rs; the model takes it to be membership of the name in the corpus (`Context.FileExists`).

## Model

| member | source | states |
|---|---|---|
| Utils.RoundUp | src/utils.rs:12-22 | up to 17,500 the result is a multiple of 100, and above 17,500 a multiple of 500; it is strictly greater than the count and at most one step above it |
| Utils.TrimStartSlashes | src/utils.rs:37 | the result is the suffix of the text left after a run of slashes, and does not start with a slash |
| Utils.GetBaseFilename | src/utils.rs:34-40 | a relative name never starts with a slash |
| Utils.RemoveAllUnchangedIff | src/utils.rs:36 | removing a non-empty base directory changes a path exactly when the base directory occurs in it |
| Utils.RemoveAllPrefix | src/utils.rs:36 | an occurrence at the start is removed, and the scan continues after it |
| Utils.GetBaseFilenameNoOccurrence | src/utils.rs:35-38 | when the base directory does not occur in the path, only the leading slashes are removed |
| Utils.GetBaseFilenameBelow | src/utils.rs:34-40 | `basedir/rel` has the relative name `rel` without its leading slashes, provided `basedir` does not occur again |
| Utils.GetBaseFilenameSelf | src/utils.rs:34-40 | the base directory itself has the empty relative name |
| Utils.GetBaseFilenameTestSelf | src/utils.rs:58-62 | `examples/` relative to itself is the empty name |
| Utils.GetBaseFilenameTestSingleFile | src/utils.rs:64-68 | `examples/standalone.md` relative to `examples/` is `standalone.md` |
| Utils.GetBaseFilenameTestNested | src/utils.rs:70-75 | the nested scene's relative name is `Act 1/Chapter 1/scene1.md` |
| Cmark.NewRunWithSize | src/cmark.rs:8-10 | a fresh run is empty, unstyled and in the manuscript font size |
| Cmark.ParseParagraph | src/cmark.rs:13-61 | the loop computes the tokenizer fold; it returns one run per style start and per end event, all well formed, none for no events, and no text is lost when the last event is an end |
| Cmark.TokenizeCount | src/cmark.rs:23-59 | the number of runs equals the number of emphasis, strong and strikethrough starts plus the number of end events |
| Cmark.TokenizeWellFormed | src/cmark.rs:22-56 | every run has the manuscript size and at most one of italic, bold and strike |
| Cmark.TokenizeText | src/cmark.rs:47-51 | the returned runs followed by the open run spell out the text events in order |
| Cmark.TokenizeEndedText | src/cmark.rs:52-60 | when the last event is an end, the returned runs spell out all the text events, in order |
| Cmark.TokenizeStyleStart | src/cmark.rs:29-43 | a style start pushes the current run, even an empty one, and opens an empty run with exactly that style |
| Cmark.TokenizeIgnored | src/cmark.rs:24-58 | paragraph starts, other tags and other events change neither the runs nor the open run |
| Cmark.ParseParagraphExample | src/cmark.rs:67-72 | the unit-tested line yields seven runs, with their texts and styles |
| Markdown.TrimDoublespace | src/markdown.rs:215-218 | the result has no two adjacent spaces, is no longer than the input, and keeps the first character |
| Markdown.TrimDoublespaceIsSqueeze | src/markdown.rs:215-218 | collapsing runs of spaces equals dropping each space that follows a kept space |
| Markdown.TrimDoublespaceKeepsOthers | src/markdown.rs:215-218 | only spaces are removed; tabs, newlines and all other characters are kept in order |
| Markdown.TrimDoublespaceFixpoint | src/markdown.rs:215-218 | a text is unchanged exactly when it has no double space |
| Markdown.TrimDoublespaceIdempotent | src/markdown.rs:215-218 | collapsing twice is collapsing once |
| Markdown.TrimDoublespaceGap | src/markdown.rs:215-218 | a double space between two texts without double spaces becomes one space |
| Markdown.TrimDoublespaceTest | src/markdown.rs:266-269 | the unit-tested text has its double space collapsed and is otherwise unchanged |
| Markdown.LabelEndSpec | src/markdown.rs:223 | the label run has no bracket and stops only at a bracket or at the end |
| Markdown.TargetEndSpec | src/markdown.rs:223 | the target run has no closing parenthesis and stops only at one or at the end |
| Markdown.LinkAt | src/markdown.rs:223-226 | a link found at the start of the text is valid (non-empty label without brackets, non-empty target without `)`) and is a prefix of the text |
| Markdown.LinkAtLink | src/markdown.rs:223 | every valid link is recognised where it starts, whatever follows it |
| Markdown.NoLinkAtDoubleBracket | src/markdown.rs:223 | no link starts at a `[` that another `[` follows |
| Markdown.TrimLinksLink | src/markdown.rs:222-228 | a link is replaced by its label, and scanning resumes after the link |
| Markdown.TrimLinksPlain | src/markdown.rs:222-228 | text without `[` passes through unchanged |
| Markdown.TrimLinksShrinks | src/markdown.rs:222-228 | a link at the start makes the result strictly shorter |
| Markdown.TrimLinksUnchangedIff | src/markdown.rs:222-228 | a text is unchanged exactly when no link starts anywhere in it |
| Markdown.TrimLinksOneLink | src/markdown.rs:222-228 | one link between texts without `[` is replaced by its label |
| Markdown.TrimLinksBracketBefore | src/markdown.rs:222-228 | a `[` directly before a link is kept, and the link is replaced |
| Markdown.TrimLinksNotIdempotent | src/markdown.rs:222-228 | `[[a](b)](c)` becomes `[a](c)`, which becomes `a` |
| Markdown.TrimLinksTest | src/markdown.rs:272-276 | the unit-tested link is replaced by its text |
| Markdown.WhitespaceEndSpec | src/markdown.rs:16 | the first `\s+` takes the whole whitespace run |
| Markdown.FindClose | src/markdown.rs:16 | a close found after a position is a whitespace-preceded `%%` after that position |
| Markdown.FindCloseSpec | src/markdown.rs:16 | the close found is the first one, and none is missed |
| Markdown.CommentAt | src/markdown.rs:16 | a comment match opens with `%%` and whitespace, and closes with whitespace and `%%` |
| Markdown.CommentAtBlock | src/markdown.rs:16 | a comment whose body has no `%` and has something besides whitespace ends at its own closing `%%` |
| Markdown.RemoveCommentsPlain | src/markdown.rs:16-17 | text without `%` passes through the comment remover unchanged |
| Markdown.RemoveCommentsNoMarker | src/markdown.rs:16-17 | text in which `%%` does not occur has no comment removed |
| Markdown.RemoveCommentsBlock | src/markdown.rs:16-17 | a comment and everything in it disappear, and the scan resumes after it |
| Markdown.TrimStartSpec | src/markdown.rs:19 | `trim_start` keeps a suffix and removes whitespace only, and all the leading whitespace |
| Markdown.TrimEndSpec | src/markdown.rs:19 | `trim_end` keeps a prefix and removes whitespace only, and all the trailing whitespace |
| Markdown.TrimEnds | src/markdown.rs:19 | a trimmed text is empty or has no whitespace at either end |
| Markdown.TrimUnchanged | src/markdown.rs:19 | a text with no whitespace at either end is left as it is |
| Markdown.TrimAllWhitespace | src/markdown.rs:19 | a text made only of whitespace trims to nothing |
| Markdown.TrimEmptyIff | src/markdown.rs:39 | a line trims to nothing exactly when it is whitespace only |
| Markdown.StripCommentsEnds | src/markdown.rs:14-20 | the stripped text is empty or has no whitespace at either end |
| Markdown.StripCommentsNoMarker | src/markdown.rs:14-20 | a text without `%%` comes back merely trimmed |
| Markdown.StripCommentsTwoComments | src/markdown.rs:14-20 | two comments surrounded by whitespace strip to nothing |
| Markdown.StripCommentsTest | src/markdown.rs:260-263 | the unit-tested comment text strips to the empty string |
| Markdown.ParseMarkdown | src/markdown.rs:178-211 | never fails; the metadata is the parsed front matter, or empty when parsing fails; the content is the body (or the whole text) with double spaces collapsed and links replaced |
| Markdown.ParsePii | src/markdown.rs:152-175 | never fails; the metadata is the parsed PII, or empty PII; the content is always empty |
| Markdown.ParseMarkdownContentNoDoubleSpace | src/markdown.rs:205-209 | when the collapsed body has no link, the parsed content has no double space |
| Markdown.ParseMarkdownContentDoubleSpace | src/markdown.rs:205-209 | with a link whose label is a space, `a [ ](x) b` passes the collapsing step unchanged and then becomes `a   b`, which has a double space |
| Manuscript.LineEnd | src/markdown.rs:36-37 | the first line ends at the first newline, or at the end of the text |
| Manuscript.StripCr | src/markdown.rs:36-37 | a line loses at most one carriage return, and only a final one |
| Manuscript.UnlinesLines | src/markdown.rs:36-37 | splitting into lines loses nothing from a text without carriage returns whose last line is terminated |
| Manuscript.LinesUnlines | src/markdown.rs:36-37 | lines without newlines or final carriage returns are recovered from their newline-terminated concatenation |
| Manuscript.LineBlock | src/markdown.rs:40-66 | a line trimming to `#` is the separator; any other line is a paragraph of the runs its events tokenize into |
| Manuscript.PushLine | src/markdown.rs:39-66 | a blank line adds nothing, and any other line adds its block |
| Manuscript.LinesToBlocks | src/markdown.rs:36-69 | the loop emits the blocks of the non-blank lines, in order |
| Manuscript.ContentToParagraphs | src/markdown.rs:23-71 | the paragraphs are the line blocks of the comment-stripped content |
| Manuscript.LineBlocksOfNonBlank | src/markdown.rs:36-69 | there is exactly one block per non-blank line, in line order |
| Manuscript.LineBlocksKinds | src/markdown.rs:39-66 | every block of content is a separator or a paragraph, and every run of a paragraph is well formed |
| Manuscript.ParagraphsOfComments | src/markdown.rs:23-71 | content made only of comments and whitespace yields no paragraphs |
| Manuscript.ParagraphsOfSeparator | src/markdown.rs:41-44 | a lone `#` line is the scene separator |
| Manuscript.HeadingGroup | src/markdown.rs:106-122 | a heading group is 25 blocks: the page-break spacer, 23 empty paragraphs and the heading |
| Manuscript.PushHeading | src/markdown.rs:106-122 | the loop pushes the heading group |
| Manuscript.OpenDocument | src/markdown.rs:101-129 | a heading pushes its group and disarms the separator; the separator is pushed only if it is still armed |
| Manuscript.IncludeDocument | src/markdown.rs:97-141 | one include adds its heading group, the separator and its paragraphs; its paragraphs, if any, arm the separator |
| Manuscript.FlattenMarkdown | src/markdown.rs:73-149 | the loop computes the assembly of the manifest: a standalone document's paragraphs, the first missing include as an error, or the assembled blocks |
| Manuscript.AssembleStops | src/markdown.rs:93-95 | once an include is missing, the rest of the manifest is not looked at |
| Manuscript.AssembleSucceeds | src/markdown.rs:87-148 | assembly succeeds exactly when every include is in the corpus |
| Manuscript.AssembleFirstMissing | src/markdown.rs:93-95 | a failed assembly reports the first missing include, in manifest order |
| Manuscript.AssembleArmed | src/markdown.rs:127-141 | the separator is armed exactly when some include contributed paragraphs and no later include has a heading |
| Manuscript.AssembleNext | src/markdown.rs:101-141 | the separator goes before an include exactly when it has no heading and the separator is armed; a heading group goes before an include with a heading |
| Manuscript.AssembleNoSeparatorBeforeContent | src/markdown.rs:127-141 | before the first include that contributes paragraphs, no separator is emitted |
| Manuscript.AssembleAdjacentSeparators | src/markdown.rs:127-141 | after a content-bearing include, two empty includes without headings produce two adjacent separators |
| Manuscript.FlattenStandalone | src/markdown.rs:82-85 | a document without a manifest is exactly its own paragraphs |
| Manuscript.FlattenSucceeds | src/markdown.rs:87-148 | flattening a manifest fails exactly when an include is missing |
| Manuscript.FlattenFirstMissing | src/markdown.rs:93-95 | flattening reports `FileNotFound` for the first missing include and produces no blocks |
| Context.GetFile | src/context.rs:153-159 | a copy of the named document |
| Context.GetFilePath | src/context.rs:244-246 | the path is as long as the base directory, one separator and the name together |
| Context.GetFilePathRoundTrip | src/context.rs:244-246 | the relative name of a file's path is the file name again, when the base directory does not recur |
| Context.IsMarkdownIff | src/context.rs:191-199 | a path is Markdown exactly when its file name is longer than `.md` and ends with it, compared case-sensitively |
| Context.IsMarkdownJoin | src/context.rs:191-199 | a plain name joined onto a directory is Markdown exactly when the name ends in `.md` |
| Context.IsMarkdownExamples | src/context.rs:191-199 | `a.b.md` is Markdown; `x.MD`, `README` and `.md` are not |
| Context.ReadFiles | src/context.rs:201-242 | the walk computes the corpus of the tree |
| Context.ReadTreeIsInsertAll | src/context.rs:213-238 | the corpus is the in-order insertion of every Markdown file met, so the later file wins on a repeated name |
| Context.InsertAllAppend | src/context.rs:235 | extending a map with a later walk's map is inserting the later files after the earlier ones |
| Context.ReadTreeKeys | src/context.rs:213-238 | a name is in the corpus exactly when some Markdown file of the tree has that relative name |
| Context.MarkdownFilesAreMarkdown | src/context.rs:205-219 | only Markdown files are read |
| Context.ReadTreeSingleFile | src/context.rs:205-211 | a Markdown file given as the manuscript is stored under the empty name; any other single file gives an empty corpus |
| Context.Clone | src/context.rs:48-108 | the clone has the same corpus and options; its PII is always present, with an empty body, and is either the original's metadata or all fields present and empty |
| Context.NewContext | src/context.rs:112-150 | the defaults are not anonymous, not classic, Courier New at size 24, and no word count unless asked; the PII is parsed when given; the corpus is the tree read from the manuscript path |
| Paths.Join | src/obsidian_shellcommands/mod.rs:106-108 | pushing an absolute component replaces the path; any other component is appended after the path |
| Paths.FileName | src/context.rs:193 | a file name is a non-empty component without `/` that is neither `.` nor `..` |
| Paths.Extension | src/context.rs:193 | an extension is shorter than the name and has no dot |
| Paths.JoinFileName | src/context.rs:215-219 | joining a plain name onto a path makes that name the file name |
| Paths.ExtensionMd | src/context.rs:193-194 | the extension is `md` exactly when the name is longer than `.md` and ends with it |
| ObsidianPaths.ObsidianDir | src/obsidian_shellcommands/mod.rs:33-36 | a path that already ends in `.obsidian` is kept |
| ObsidianPaths.ObsidianDirEnds | src/obsidian_shellcommands/mod.rs:33-36 | the configuration directory ends in `.obsidian`, and `.obsidian` is never pushed twice |
| ObsidianPaths.ObsidianDirExamples | src/obsidian_shellcommands/mod.rs:33-36 | `vault` and `vault/` become `vault/.obsidian`; `vault/.obsidian` is kept |
| ObsidianPaths.ConfigFile | src/obsidian_shellcommands/mod.rs:33-37 | the plugin file starts with the configuration directory and ends with the plugin's relative path |
| ObsidianShellcommands.RootNew | src/obsidian_shellcommands/mod.rs:192-223 | a fresh configuration has settings version 0.23.0, no commands, and durations 20 and 10 |
| ObsidianShellcommands.ShellCommandNew | src/obsidian_shellcommands/mod.rs:282-303 | a new command has the given id, and every string and list empty |
| ObsidianShellcommands.WordCountCommand | src/obsidian_shellcommands/mod.rs:67-95 | the word-count command has alias `Word Count`, keeps the doubled braces in its command line, and notifies on both streams |
| ObsidianShellcommands.ExportBaseCommand | src/obsidian_shellcommands/mod.rs:97-129 | the export base command has no alias, the formatted command line with single braces, and notifies on both streams |
| ObsidianShellcommands.ExportCommand | src/obsidian_shellcommands/mod.rs:131-140 | the export command has an alias that is not one of the managed aliases, and its command line ends in ` --modern` |
| ObsidianShellcommands.WithoutAlias | src/obsidian_shellcommands/mod.rs:151 | no kept command has the dropped alias, and the list does not grow |
| ObsidianShellcommands.ObsidianShellcommands.constructor | src/obsidian_shellcommands/mod.rs:27-54 | the data is loaded from the data file, or is a fresh configuration when loading fails |
| ObsidianShellcommands.ObsidianShellcommands.GetCmdWordCount | src/obsidian_shellcommands/mod.rs:67-95 | the field-by-field construction builds the word-count command |
| ObsidianShellcommands.ObsidianShellcommands.GetCmdExportBase | src/obsidian_shellcommands/mod.rs:97-129 | the field-by-field construction builds the export base command, using the vault's PII path |
| ObsidianShellcommands.ObsidianShellcommands.GetCmdExportToStandardManuscriptFormat | src/obsidian_shellcommands/mod.rs:131-140 | the base command gets the export alias and ` --modern` |
| ObsidianShellcommands.ObsidianShellcommands.SyncPass | src/obsidian_shellcommands/mod.rs:146-155 | one pass drops the managed alias and appends the built command unless its alias is present |
| ObsidianShellcommands.ObsidianShellcommands.Sync | src/obsidian_shellcommands/mod.rs:143-157 | only the command list changes, and it becomes the three passes applied in order |
| ObsidianShellcommands.Retain | src/obsidian_shellcommands/mod.rs:151 | the loop keeps the commands without the alias, in order |
| ObsidianShellcommands.AnyAlias | src/obsidian_shellcommands/mod.rs:153 | the loop finds whether some command has the alias |
| ObsidianShellcommands.AliasesDistinct | src/obsidian_shellcommands/mod.rs:12-16 | the three managed aliases and the export alias differ from one another |
| ObsidianShellcommands.BuiltCommands | src/obsidian_shellcommands/mod.rs:145-150 | the Classic and Modern passes build the export command; the Word Count pass builds the word-count command |
| ObsidianShellcommands.SyncAllPasses | src/obsidian_shellcommands/mod.rs:143-157 | `sync` is the Classic pass, then the Modern pass, then the Word Count pass |
| ObsidianShellcommands.WithoutAliasHas | src/obsidian_shellcommands/mod.rs:151 | dropping one alias keeps the presence of every other alias |
| ObsidianShellcommands.ModernPass | src/obsidian_shellcommands/mod.rs:146-155 | after the Classic pass, the Modern pass only drops the Modern-aliased commands and adds nothing, because the export alias it looks for is already present |
| ObsidianShellcommands.SyncAllShape | src/obsidian_shellcommands/mod.rs:143-157 | after `sync`: the unmanaged commands in order, then a new export command unless one was there, then a new word-count command |
| ObsidianShellcommands.SyncWordCountLast | src/obsidian_shellcommands/mod.rs:145-155 | exactly one command is the word count, and it is the last |
| ObsidianShellcommands.SyncNoClassicModern | src/obsidian_shellcommands/mod.rs:145-155 | no command keeps the Classic or the Modern alias |
| ObsidianShellcommands.SyncExportPresent | src/obsidian_shellcommands/mod.rs:149-155 | an export command is present: the existing ones, unchanged in number, or else exactly one new one |
| ObsidianShellcommands.SyncKeepsUnmanaged | src/obsidian_shellcommands/mod.rs:151 | the unmanaged commands keep their order and contents |
| ObsidianCommander.RootNew | src/obsidian_commander/mod.rs:101-119 | deletion is confirmed and the add-command button shown; the lists are empty and the spacing is 0 |
| ObsidianCommander.RootDefault | src/obsidian_commander/mod.rs:31 | the default configuration has every flag false and every list empty |
| ObsidianCommander.WithoutName | src/obsidian_commander/mod.rs:45-47 | no kept entry has the dropped name |
| ObsidianCommander.ObsidianCommander.constructor | src/obsidian_commander/mod.rs:20-42 | the data is loaded from the data file, or is the all-false default (not `Root::new`) when loading fails |
| ObsidianCommander.ObsidianCommander.AddFileMenu | src/obsidian_commander/mod.rs:44-50 | only the file menu changes: the entries with the new entry's name are dropped and the new entry appended |
| ObsidianCommander.ObsidianCommander.Sync | src/obsidian_commander/mod.rs:63-68 | the data is unchanged |
| ObsidianCommander.RetainName | src/obsidian_commander/mod.rs:45-47 | the loop keeps the entries without the name, in order |
| ObsidianCommander.WithoutNameLength | src/obsidian_commander/mod.rs:45-47 | dropping a name removes exactly the entries with that name |
| ObsidianCommander.WithoutNameOther | src/obsidian_commander/mod.rs:45-47 | dropping a name keeps every entry with another name |
| ObsidianCommander.AddFileMenuUnique | src/obsidian_commander/mod.rs:44-50 | exactly one entry has the new entry's name: the last, which is the new entry |
| ObsidianCommander.AddFileMenuOthers | src/obsidian_commander/mod.rs:45-49 | entries with other names keep their order, contents and number |
| ObsidianCommander.AddFileMenuLength | src/obsidian_commander/mod.rs:44-50 | the new length is the old one, less the entries with that name, plus one |
| ObsidianCommander.AddFileMenuIdempotent | src/obsidian_commander/mod.rs:44-50 | adding the same entry twice is adding it once |

## Left out

- Utils.RoundUp: works on unbounded naturals. The wrap-around of `usize` near its maximum is not modelled.
- Cmark.ParseParagraph: takes the event sequence as input. The Markdown parser (pulldown-cmark with strikethrough and its text-merging stream) is not modelled.
- Markdown.ParseMarkdown: the YAML front-matter parser is a parameter that returns the metadata and body, or nothing. YAML itself is not modelled.
- Markdown.ParsePii: same front-matter parameter as `ParseMarkdown`.
- Manuscript.FlattenMarkdown: Word paragraphs are abstracted to `Block`. These rendering attributes are not kept:
  - alignment, line spacing and indentation;
  - font size;
  - the page-break flag, which `PageBreakSpacer` stands for.
- Context.ReadFiles: the file system is an in-memory tree.
  - The root must be a file or a directory; for anything else the source panics when it lists the root.
  - Reading a file is taking its text.
  - Listing order is the order of the tree's children.
- Context.NewContext: the command-line arguments are plain parameters, and the PII file arrives as its text. The default output directory is a parameter because tilde expansion is not modelled.
- ObsidianShellcommands.ObsidianShellcommands.Sync: the random ids of `generate_id` are passed in, one per pass.
- ObsidianShellcommands.ObsidianShellcommands.constructor: loading `data.json` is a parameter that returns the configuration or nothing. JSON is not modelled.
- ObsidianCommander.ObsidianCommander.constructor: loading works the same way as for Shell commands.
- Saving the plugin configurations (`save`, `Root::save`) is a file write and is not modelled. The path it writes to is the one the constructors load from: `ObsidianPaths.ConfigFile` of the plugin's `DATA_FILE` (`plugins/obsidian-shellcommands/data.json` and `plugins/cmdr/data.json`).
- `slurp`, `get_file_basedir` and `get_file_metadata` in src/utils.rs and src/context.rs are file-system probes and are not modelled.
- src/main.rs is not part of this model. It is the command-line driver, the docx title page, headers and word count, and an older copy of the assembly that behaves differently.
- src/obsidian.rs (plugin-list file plumbing) is not part of this model.
- src/lib.rs (argument structures) is not part of this model.
- The `Display` text of the error types is not modelled.
- The `println!` diagnostics are not modelled.
- `generate_id` is not modelled: it is randomness.
- The empty configuration records of the plugins are not represented, because they carry no data.
- `ShellCommand::new` ignores its argument list, and the model drops it.
