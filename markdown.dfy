/** Text clean-up and front-matter parsing (src/markdown.rs). The three regular
    expressions of the source are written out as scanners for their one pattern,
    with the leftmost-first, non-overlapping replacement the `regex` crate performs. */
module Markdown {
  import opened Wrappers
  import opened Metadata
  import opened Pii
  import opened FrontMatter
  import Utils

  /** Unicode `White_Space`, the class of `\s` in the `regex` crate and of `str::trim`. */
  predicate IsWhitespace(c: char)
  {
    || ('\t' <= c <= '\r') || c == ' ' || c == '\U{0085}' || c == '\U{00A0}'
    || c == '\U{1680}' || ('\U{2000}' <= c <= '\U{200A}') || c == '\U{2028}'
    || c == '\U{2029}' || c == '\U{202F}' || c == '\U{205F}' || c == '\U{3000}'
  }

  // ---------------------------------------------------------------------------
  // trim_doublespace: every run of U+0020 becomes a single space.

  /** The text after its leading spaces (U+0020 only). */
  function SkipSpaces(s: string): (r: string)
    ensures |r| <= |s| && s[|s| - |r|..] == r
    ensures r == [] || r[0] != ' '
    ensures forall i :: 0 <= i < |s| - |r| ==> s[i] == ' '
  {
    if s != [] && s[0] == ' ' then SkipSpaces(s[1..]) else s
  }

  /** No two consecutive U+0020 characters. */
  predicate NoDoubleSpace(s: string)
  {
    forall i :: 0 <= i < |s| - 1 ==> !(s[i] == ' ' && s[i + 1] == ' ')
  }

  /** `trim_doublespace`: each maximal run of spaces, however long, is replaced by
      one space; tabs, newlines and other whitespace are not touched. */
  function TrimDoublespace(s: string): (r: string)
    ensures NoDoubleSpace(r)
    ensures |r| <= |s|
    ensures s != [] ==> r != [] && r[0] == s[0]
    decreases |s|
  {
    if s == [] then []
    else if s[0] == ' ' then " " + TrimDoublespace(SkipSpaces(s))
    else [s[0]] + TrimDoublespace(s[1..])
  }

  /** Reference definition, one character at a time: a space is dropped exactly
      when the character kept before it is a space too. */
  function Squeeze(afterSpace: bool, s: string): string
    decreases |s|
  {
    if s == [] then []
    else if s[0] == ' ' && afterSpace then Squeeze(true, s[1..])
    else [s[0]] + Squeeze(s[0] == ' ', s[1..])
  }

  /** The text with every U+0020 removed. */
  function WithoutSpaces(s: string): string
  {
    if s == [] then [] else (if s[0] == ' ' then [] else [s[0]]) + WithoutSpaces(s[1..])
  }

  lemma {:induction false} SqueezeSkipSpaces(s: string)
    ensures Squeeze(true, s) == Squeeze(true, SkipSpaces(s))
  {
    if s != [] && s[0] == ' ' {
      SqueezeSkipSpaces(s[1..]);
    }
  }

  /** The run replacement agrees with the character filter on every input. */
  lemma {:induction false} TrimDoublespaceIsSqueeze(s: string)
    ensures TrimDoublespace(s) == Squeeze(false, s)
    decreases |s|
  {
    if s != [] {
      if s[0] == ' ' {
        var t := SkipSpaces(s);
        SqueezeSkipSpaces(s[1..]);
        assert SkipSpaces(s[1..]) == t;
        TrimDoublespaceIsSqueeze(t);
        assert t == [] || t[0] != ' ';
        assert Squeeze(true, t) == Squeeze(false, t);
      } else {
        TrimDoublespaceIsSqueeze(s[1..]);
      }
    }
  }

  lemma {:induction false} SqueezeWithoutSpaces(b: bool, s: string)
    ensures WithoutSpaces(Squeeze(b, s)) == WithoutSpaces(s)
    decreases |s|
  {
    if s != [] {
      SqueezeWithoutSpaces(s[0] == ' ', s[1..]);
      SqueezeWithoutSpaces(true, s[1..]);
      if !(s[0] == ' ' && b) {
        assert ([s[0]] + Squeeze(s[0] == ' ', s[1..]))[1..] == Squeeze(s[0] == ' ', s[1..]);
      }
    }
  }

  /** Only spaces are removed: the other characters are kept, in order. */
  lemma TrimDoublespaceKeepsOthers(s: string)
    ensures WithoutSpaces(TrimDoublespace(s)) == WithoutSpaces(s)
  {
    TrimDoublespaceIsSqueeze(s);
    SqueezeWithoutSpaces(false, s);
  }

  /** Text is left unchanged exactly when it has no double space. */
  lemma {:induction false} TrimDoublespaceFixpoint(s: string)
    ensures TrimDoublespace(s) == s <==> NoDoubleSpace(s)
    decreases |s|
  {
    if s != [] && NoDoubleSpace(s) {
      assert NoDoubleSpace(s[1..]) by {
        forall i | 0 <= i < |s[1..]| - 1
          ensures !(s[1..][i] == ' ' && s[1..][i + 1] == ' ')
        {
          assert s[1..][i] == s[i + 1] && s[1..][i + 1] == s[i + 2];
        }
      }
      TrimDoublespaceFixpoint(s[1..]);
      if s[0] == ' ' {
        assert SkipSpaces(s) == s[1..];
        assert s == " " + s[1..];
      } else {
        assert s == [s[0]] + s[1..];
      }
    }
  }

  /** Collapsing twice is collapsing once. */
  lemma TrimDoublespaceIdempotent(s: string)
    ensures TrimDoublespace(TrimDoublespace(s)) == TrimDoublespace(s)
  {
    TrimDoublespaceFixpoint(TrimDoublespace(s));
  }

  /** Squeezing a concatenation: the second part only remembers whether the
      first part ended in a space. */
  lemma {:induction false} SqueezeAppend(b: bool, a: string, t: string)
    ensures Squeeze(b, a + t) == Squeeze(b, a) + Squeeze(if a == [] then b else a[|a| - 1] == ' ', t)
    decreases |a|
  {
    if a == [] {
      Utils.AppendEmpty(t);
    } else {
      assert (a + t)[1..] == a[1..] + t;
      SqueezeAppend(a[0] == ' ', a[1..], t);
      SqueezeAppend(true, a[1..], t);
    }
  }

  lemma {:induction false} NoDoubleSpaceAppend(a: string, t: string)
    requires NoDoubleSpace(a) && NoDoubleSpace(t)
    requires a == [] || t == [] || a[|a| - 1] != ' ' || t[0] != ' '
    ensures NoDoubleSpace(a + t)
  {
    var s := a + t;
    forall i | 0 <= i < |s| - 1
      ensures !(s[i] == ' ' && s[i + 1] == ' ')
    {
      if i + 1 < |a| {
        assert s[i] == a[i] && s[i + 1] == a[i + 1];
      } else if i >= |a| {
        assert s[i] == t[i - |a|] && s[i + 1] == t[i - |a| + 1];
      }
    }
  }

  /** The text of the `trim_doublespace` unit test, in short pieces. */
  const DOUBLESPACE_LEFT: string := "This is a test."
  const DOUBLESPACE_RIGHT: string :=
    "This is only a test.\nIf " + "this were an actual " + "emergency, you would be "
    + "instructed where to go " + "and what to do."

  /** A double space between two texts without double spaces becomes one space. */
  lemma TrimDoublespaceGap(l: string, r: string)
    requires NoDoubleSpace(l) && NoDoubleSpace(r)
    requires l != [] && l[|l| - 1] != ' ' && r != [] && r[0] != ' '
    ensures TrimDoublespace(l + "  " + r) == l + " " + r
  {
    TrimDoublespaceFixpoint(l);
    TrimDoublespaceIsSqueeze(l);
    TrimDoublespaceFixpoint(r);
    TrimDoublespaceIsSqueeze(r);
    SqueezeGap(r);
    Utils.AppendAssoc(l, "  ", r);
    SqueezeAppend(false, l, "  " + r);
    TrimDoublespaceIsSqueeze(l + "  " + r);
    Utils.AppendAssoc(l, " ", r);
  }

  lemma SqueezeGap(r: string)
    requires r != [] && r[0] != ' '
    ensures Squeeze(false, "  " + r) == " " + Squeeze(false, r)
  {
    assert ("  " + r)[1..] == " " + r;
    assert (" " + r)[1..] == r;
    assert Squeeze(false, "  " + r) == " " + Squeeze(true, " " + r);
    assert Squeeze(true, " " + r) == Squeeze(true, r);
    assert Squeeze(true, r) == [r[0]] + Squeeze(false, r[1..]) == Squeeze(false, r);
  }

  lemma DoublespaceRightHasNoDoubleSpace()
    ensures NoDoubleSpace(DOUBLESPACE_RIGHT)
  {
    var a, b, c, d, e := "This is only a test.\nIf ", "this were an actual ", "emergency, you would be ",
                          "instructed where to go ", "and what to do.";
    NoDoubleSpaceAppend(a, b);
    NoDoubleSpaceAppend(a + b, c);
    NoDoubleSpaceAppend(a + b + c, d);
    NoDoubleSpaceAppend(a + b + c + d, e);
  }

  /** Unit-tested example: the double space after the first sentence collapses. */
  lemma TrimDoublespaceTest()
    ensures TrimDoublespace(DOUBLESPACE_LEFT + "  " + DOUBLESPACE_RIGHT)
         == DOUBLESPACE_LEFT + " " + DOUBLESPACE_RIGHT
  {
    DoublespaceRightHasNoDoubleSpace();
    assert NoDoubleSpace(DOUBLESPACE_LEFT);
    TrimDoublespaceGap(DOUBLESPACE_LEFT, DOUBLESPACE_RIGHT);
  }

  // ---------------------------------------------------------------------------
  // trim_links: `[label](target)` becomes `label`.

  /** A Markdown inline link. */
  datatype Link = Link(text: string, target: string)

  /** What the pattern `\[([^\[\]]+)\]\(([^)]+)\)` accepts: a non-empty text
      without brackets and a non-empty target without a closing parenthesis. */
  predicate ValidLink(l: Link)
  {
    l.text != [] && '[' !in l.text && ']' !in l.text && l.target != [] && ')' !in l.target
  }

  /** The source text of a link. */
  function LinkText(l: Link): string
  {
    "[" + l.text + "](" + l.target + ")"
  }

  /** The end of the run of characters from `i` that are neither `[` nor `]`. */
  function LabelEnd(s: string, i: nat): (k: nat)
    requires i <= |s|
    ensures i <= k <= |s|
    decreases |s| - i
  {
    if i == |s| || s[i] == '[' || s[i] == ']' then i else LabelEnd(s, i + 1)
  }

  /** The label run holds no bracket and stops only at one or at the end. */
  lemma {:induction false} LabelEndSpec(s: string, i: nat)
    requires i <= |s|
    ensures var k := LabelEnd(s, i);
            && (forall j :: i <= j < k ==> s[j] != '[' && s[j] != ']')
            && (k < |s| ==> s[k] == '[' || s[k] == ']')
    decreases |s| - i
  {
    if !(i == |s| || s[i] == '[' || s[i] == ']') {
      LabelEndSpec(s, i + 1);
    }
  }

  /** The end of the run of characters from `i` that are not `)`. */
  function TargetEnd(s: string, i: nat): (k: nat)
    requires i <= |s|
    ensures i <= k <= |s|
    decreases |s| - i
  {
    if i == |s| || s[i] == ')' then i else TargetEnd(s, i + 1)
  }

  /** The target run holds no `)` and stops only at one or at the end. */
  lemma {:induction false} TargetEndSpec(s: string, i: nat)
    requires i <= |s|
    ensures var k := TargetEnd(s, i);
            && (forall j :: i <= j < k ==> s[j] != ')')
            && (k < |s| ==> s[k] == ')')
    decreases |s| - i
  {
    if !(i == |s| || s[i] == ')') {
      TargetEndSpec(s, i + 1);
    }
  }

  /** The link the pattern matches at the start of `s`, if any. Both character
      classes are followed by a character they exclude, so the match is unique. */
  function LinkAt(s: string): (r: Option<Link>)
    ensures r.Some? ==> ValidLink(r.value) && |LinkText(r.value)| <= |s|
                        && s[..|LinkText(r.value)|] == LinkText(r.value)
  {
    if s == [] || s[0] != '[' then None
    else
      var a := LabelEnd(s, 1);
      LabelEndSpec(s, 1);
      if a == 1 || a + 1 >= |s| || s[a] != ']' || s[a + 1] != '(' then None
      else
        var b := TargetEnd(s, a + 2);
        TargetEndSpec(s, a + 2);
        if b == a + 2 || b == |s| then None
        else
          LinkAtPartsShape(s, a, b);
          Some(Link(s[1..a], s[a + 2..b]))
  }

  /** The parts the pattern captures form a valid link whose source text is
      the matched prefix. */
  lemma LinkAtPartsShape(s: string, a: nat, b: nat)
    requires s != [] && s[0] == '[' && 1 < a && a + 1 < |s| && s[a] == ']' && s[a + 1] == '('
    requires a + 2 < b < |s| && s[b] == ')'
    requires forall j :: 1 <= j < a ==> s[j] != '[' && s[j] != ']'
    requires forall j :: a + 2 <= j < b ==> s[j] != ')'
    ensures var l := Link(s[1..a], s[a + 2..b]);
            ValidLink(l) && |LinkText(l)| == b + 1 && s[..b + 1] == LinkText(l)
  {
    var l := Link(s[1..a], s[a + 2..b]);
    assert '[' !in l.text && ']' !in l.text by {
      forall j | 0 <= j < |l.text| ensures l.text[j] != '[' && l.text[j] != ']' {
        assert l.text[j] == s[j + 1];
      }
    }
    assert ')' !in l.target by {
      forall j | 0 <= j < |l.target| ensures l.target[j] != ')' {
        assert l.target[j] == s[a + 2 + j];
      }
    }
    assert s[..b + 1] == LinkText(l) by {
      assert s[..b + 1] == [s[0]] + s[1..a] + [s[a], s[a + 1]] + s[a + 2..b] + [s[b]];
    }
  }

  /** `trim_links`: every link, leftmost first, is replaced by its label. */
  function TrimLinks(s: string): (r: string)
    ensures |r| <= |s|
    decreases |s|
  {
    if s == [] then []
    else match LinkAt(s)
      case Some(l) => l.text + TrimLinks(s[|LinkText(l)|..])
      case None => [s[0]] + TrimLinks(s[1..])
  }

  /** The label run ends at the first bracket. */
  lemma {:induction false} LabelEndAt(s: string, i: nat, k: nat)
    requires i <= k < |s| && (s[k] == '[' || s[k] == ']')
    requires forall j :: i <= j < k ==> s[j] != '[' && s[j] != ']'
    ensures LabelEnd(s, i) == k
    decreases k - i
  {
    if i < k {
      LabelEndAt(s, i + 1, k);
    }
  }

  /** The target run ends at the first closing parenthesis. */
  lemma {:induction false} TargetEndAt(s: string, i: nat, k: nat)
    requires i <= k < |s| && s[k] == ')'
    requires forall j :: i <= j < k ==> s[j] != ')'
    ensures TargetEnd(s, i) == k
    decreases k - i
  {
    if i < k {
      TargetEndAt(s, i + 1, k);
    }
  }

  /** Where the parts of a link sit in its source text. */
  lemma LinkTextShape(l: Link, rest: string)
    ensures var s, n, m := LinkText(l) + rest, |l.text|, |l.target|;
            |s| == n + m + 4 + |rest| && s[0] == '[' && s[1..n + 1] == l.text && s[n + 1] == ']'
            && s[n + 2] == '(' && s[n + 3..n + 3 + m] == l.target && s[n + 3 + m] == ')'
  {
  }

  /** The pattern's match, once the ends of the label and the target are known. */
  lemma LinkAtParts(s: string, a: nat, b: nat)
    requires s != [] && s[0] == '[' && 1 < a && a + 1 < |s| && s[a] == ']' && s[a + 1] == '('
    requires LabelEnd(s, 1) == a && a + 2 < b < |s| && TargetEnd(s, a + 2) == b
    ensures LinkAt(s) == Some(Link(s[1..a], s[a + 2..b]))
  {
  }

  /** In a link's source text the label run ends at the closing bracket. */
  lemma LinkTextLabelEnd(l: Link, rest: string)
    requires ValidLink(l)
    ensures LabelEnd(LinkText(l) + rest, 1) == |l.text| + 1
  {
    var s, n := LinkText(l) + rest, |l.text|;
    LinkTextShape(l, rest);
    forall j | 1 <= j < n + 1
      ensures s[j] != '[' && s[j] != ']'
    {
      assert s[j] == s[1..n + 1][j - 1];
    }
    LabelEndAt(s, 1, n + 1);
  }

  /** In a link's source text the target run ends at the closing parenthesis. */
  lemma LinkTextTargetEnd(l: Link, rest: string)
    requires ValidLink(l)
    ensures TargetEnd(LinkText(l) + rest, |l.text| + 3) == |l.text| + 3 + |l.target|
  {
    var s, n, m := LinkText(l) + rest, |l.text|, |l.target|;
    LinkTextShape(l, rest);
    forall j | n + 3 <= j < n + 3 + m
      ensures s[j] != ')'
    {
      assert s[j] == s[n + 3..n + 3 + m][j - n - 3];
    }
    TargetEndAt(s, n + 3, n + 3 + m);
  }

  /** Every valid link is recognised where it starts, whatever follows it. */
  lemma LinkAtLink(l: Link, rest: string)
    requires ValidLink(l)
    ensures LinkAt(LinkText(l) + rest) == Some(l)
  {
    var s, n, m := LinkText(l) + rest, |l.text|, |l.target|;
    LinkTextShape(l, rest);
    LinkTextLabelEnd(l, rest);
    LinkTextTargetEnd(l, rest);
    LinkAtParts(s, n + 1, n + 3 + m);
  }

  /** A link is replaced by its label and scanning resumes after it. */
  lemma TrimLinksLink(l: Link, rest: string)
    requires ValidLink(l)
    ensures TrimLinks(LinkText(l) + rest) == l.text + TrimLinks(rest)
  {
    LinkAtLink(l, rest);
    assert (LinkText(l) + rest)[|LinkText(l)|..] == rest;
  }

  /** Text without `[` passes through unchanged. */
  lemma {:induction false} TrimLinksPlain(a: string, t: string)
    requires '[' !in a
    ensures TrimLinks(a + t) == a + TrimLinks(t)
  {
    if a == [] {
      Utils.AppendEmpty(t);
    } else {
      var rest := a[1..];
      Utils.ConsSplit(a);
      Utils.NotInTail('[', a);
      TrimLinksPlain(rest, t);
      TrimLinksConsStep(a[0], rest, t);
      Utils.AppendAssoc([a[0]], rest, TrimLinks(t));
    }
  }

  /** A character other than `[` starts no link and is kept. */
  lemma TrimLinksConsStep(c: char, u: string, t: string)
    requires c != '['
    ensures TrimLinks([c] + u + t) == [c] + TrimLinks(u + t)
  {
    var s := [c] + u + t;
    assert s[0] == c;
    assert s[1..] == u + t;
    TrimLinksNoLinkHere(s);
  }

  /** A link starts at position `i` of `s`. */
  predicate LinkStartsAt(s: string, i: int)
  {
    0 <= i <= |s| && LinkAt(s[i..]).Some?
  }

  /** Dropping the first character shifts every link start by one. */
  lemma LinkStartsAtTail(s: string, i: int)
    requires s != [] && 1 <= i
    ensures LinkStartsAt(s, i) <==> LinkStartsAt(s[1..], i - 1)
  {
    if i <= |s| {
      assert s[1..][i - 1..] == s[i..];
    }
  }

  /** Without a link at the start, the links of `s` are those of its tail. */
  lemma NoLinkStartShift(s: string)
    requires s != [] && LinkAt(s).None?
    ensures (forall i :: !LinkStartsAt(s, i)) <==> (forall i :: !LinkStartsAt(s[1..], i))
  {
    assert !LinkStartsAt(s, 0);
    forall i | 1 <= i
      ensures LinkStartsAt(s, i) <==> LinkStartsAt(s[1..], i - 1)
    {
      LinkStartsAtTail(s, i);
    }
    if exists i :: LinkStartsAt(s[1..], i) {
      var i :| LinkStartsAt(s[1..], i);
      assert LinkStartsAt(s, i + 1);
    }
  }

  /** Where the scan finds no link, the first character is kept. */
  lemma TrimLinksNoLinkHere(s: string)
    requires s != [] && LinkAt(s).None?
    ensures TrimLinks(s) == [s[0]] + TrimLinks(s[1..])
  {
  }

  /** A link at the start makes the result strictly shorter. */
  lemma TrimLinksShrinks(s: string)
    requires LinkAt(s).Some?
    ensures |TrimLinks(s)| < |s|
  {
    var l := LinkAt(s).value;
    assert |TrimLinks(s[|LinkText(l)|..])| <= |s| - |LinkText(l)|;
  }

  /** Text is left unchanged exactly when no link starts anywhere in it. */
  lemma {:induction false} TrimLinksUnchangedIff(s: string)
    ensures TrimLinks(s) == s <==> forall i :: !LinkStartsAt(s, i)
    decreases |s|
  {
    if s == [] {
      assert forall i :: !LinkStartsAt(s, i);
    } else if LinkAt(s).Some? {
      assert LinkStartsAt(s, 0);
      TrimLinksShrinks(s);
    } else {
      TrimLinksUnchangedIff(s[1..]);
      TrimLinksNoLinkHere(s);
      NoLinkStartShift(s);
      Utils.ConsSplit(s);
      Utils.ConsCancel(s[0], TrimLinks(s[1..]), s[1..]);
    }
  }

  /** One link between texts without `[` is replaced by its text. */
  lemma TrimLinksOneLink(a: string, l: Link, b: string)
    requires '[' !in a && '[' !in b && ValidLink(l)
    ensures TrimLinks(a + LinkText(l) + b) == a + l.text + b
  {
    Utils.AppendAssoc(a, LinkText(l), b);
    TrimLinksPlain(a, LinkText(l) + b);
    TrimLinksLink(l, b);
    TrimLinksNoBracket(b);
    Utils.AppendAssoc(a, l.text, b);
  }

  /** No link starts at a `[` that another `[` follows. */
  lemma NoLinkAtDoubleBracket(s: string)
    requires |s| >= 2 && s[0] == '[' && s[1] == '['
    ensures LinkAt(s).None?
  {
    assert LabelEnd(s, 1) == 1;
  }

  /** A `[` that another `[` follows is kept as it is. */
  lemma TrimLinksKeepBracket(t: string)
    requires t != [] && t[0] == '['
    ensures TrimLinks("[" + t) == "[" + TrimLinks(t)
  {
    var s := "[" + t;
    assert s[1..] == t;
    NoLinkAtDoubleBracket(s);
    TrimLinksNoLinkHere(s);
  }

  /** Text without `[` is left as it is. */
  lemma TrimLinksNoBracket(a: string)
    requires '[' !in a
    ensures TrimLinks(a) == a
  {
    TrimLinksPlain(a, "");
    Utils.AppendEmpty(a);
  }

  /** A `[` directly before a link is kept, and the link is replaced. */
  lemma TrimLinksBracketBefore(l: Link, rest: string)
    requires ValidLink(l) && '[' !in rest
    ensures TrimLinks("[" + LinkText(l) + rest) == "[" + l.text + rest
  {
    var t := LinkText(l) + rest;
    TrimLinksLink(l, rest);
    TrimLinksNoBracket(rest);
    LinkTextStart(l, rest);
    TrimLinksKeepBracket(t);
    BracketAppend(LinkText(l), rest);
    BracketAppend(l.text, rest);
  }

  lemma LinkTextStart(l: Link, rest: string)
    ensures LinkText(l) + rest != [] && (LinkText(l) + rest)[0] == '['
  {
  }

  lemma BracketAppend(x: string, y: string)
    ensures "[" + x + y == "[" + (x + y)
  {
  }

  /** Not idempotent: a link nested in another link's text is removed first,
      and the outer link appears only afterwards. */
  lemma TrimLinksNotIdempotent()
    ensures TrimLinks("[" + LinkText(Link("a", "b")) + "](c)") == LinkText(Link("a", "c"))
    ensures TrimLinks(LinkText(Link("a", "c"))) == "a"
  {
    NestedLinkPieces();
    TrimLinksBracketBefore(Link("a", "b"), "](c)");
    TrimLinksLink(Link("a", "c"), []);
    Utils.AppendEmpty(LinkText(Link("a", "c")));
  }

  lemma NestedLinkPieces()
    ensures ValidLink(Link("a", "b")) && ValidLink(Link("a", "c")) && '[' !in "](c)"
    ensures "[" + "a" + "](c)" == LinkText(Link("a", "c"))
  {
  }

  /** The text of the `trim_links` unit test, in short pieces. */
  const LINKS_BEFORE: string := "This is a test. "
  const LINKS_LINK: Link := Link("This is a link", "https://example.com")
  const LINKS_AFTER: string :=
    ". This is only a test.\nIf " + "this were an actual " + "emergency, you would be "
    + "instructed where to go " + "and what to do."

  lemma LinksAfterPlainStart()
    ensures '[' !in ". This is only a test.\nIf " && '[' !in "this were an actual "
  {
  }

  lemma LinksAfterPlainEnd()
    ensures '[' !in "emergency, you would be " && '[' !in "instructed where to go "
    ensures '[' !in "and what to do."
  {
  }

  /** Unit-tested example: the link is replaced by its text. */
  lemma TrimLinksTest()
    ensures TrimLinks(LINKS_BEFORE + LinkText(LINKS_LINK) + LINKS_AFTER)
         == LINKS_BEFORE + LINKS_LINK.text + LINKS_AFTER
  {
    LinksPiecesPlain();
    TrimLinksOneLink(LINKS_BEFORE, LINKS_LINK, LINKS_AFTER);
  }

  lemma LinksPiecesPlain()
    ensures '[' !in LINKS_BEFORE && '[' !in LINKS_AFTER && ValidLink(LINKS_LINK)
  {
    LinksLinkValid();
    LinksAfterPlainStart();
    LinksAfterPlainEnd();
    var a, b, c, d, e := ". This is only a test.\nIf ", "this were an actual ", "emergency, you would be ",
                          "instructed where to go ", "and what to do.";
    Utils.NotInAppend('[', a, b);
    Utils.NotInAppend('[', a + b, c);
    Utils.NotInAppend('[', a + b + c, d);
    Utils.NotInAppend('[', a + b + c + d, e);
  }

  lemma LinksLinkValid()
    ensures '[' !in LINKS_BEFORE && ValidLink(LINKS_LINK)
  {
    LinksBeforePlain();
    LinksTextPlain();
    LinksTargetPlain();
  }

  lemma LinksBeforePlain()
    ensures '[' !in "This is a test. "
  {
  }

  lemma LinksTextPlain()
    ensures '[' !in "This is a link" && ']' !in "This is a link"
  {
  }

  lemma LinksTargetPlain()
    ensures ')' !in "https://example.com"
  {
  }

  // ---------------------------------------------------------------------------
  // strip_comments: `%%` comment blocks are removed, then the text is trimmed.

  /** The end of the maximal run of whitespace starting at `p`. */
  function WhitespaceEnd(s: string, p: nat): (j: nat)
    requires p <= |s|
    ensures p <= j <= |s|
    decreases |s| - p
  {
    if p == |s| || !IsWhitespace(s[p]) then p else WhitespaceEnd(s, p + 1)
  }

  /** The run is whitespace and stops only at something else or at the end. */
  lemma {:induction false} WhitespaceEndSpec(s: string, p: nat)
    requires p <= |s|
    ensures var j := WhitespaceEnd(s, p);
            && (forall k :: p <= k < j ==> IsWhitespace(s[k]))
            && (j < |s| ==> !IsWhitespace(s[j]))
    decreases |s| - p
  {
    if !(p == |s| || !IsWhitespace(s[p])) {
      WhitespaceEndSpec(s, p + 1);
    }
  }

  /** A closing `%%` at `f`, preceded by whitespace. */
  predicate ClosesAt(s: string, f: int)
  {
    1 <= f && f + 2 <= |s| && IsWhitespace(s[f - 1]) && s[f] == '%' && s[f + 1] == '%'
  }

  /** The first closing `%%` after position `j`. */
  function FindClose(s: string, j: nat): (r: Option<nat>)
    requires j <= |s|
    ensures r.Some? ==> j < r.value && ClosesAt(s, r.value)
    decreases |s| - j
  {
    if j + 3 > |s| then None
    else if ClosesAt(s, j + 1) then Some(j + 1)
    else FindClose(s, j + 1)
  }

  /** The close found is the first one after `j`, and none is missed. */
  lemma {:induction false} FindCloseSpec(s: string, j: nat)
    requires j <= |s|
    ensures var r := FindClose(s, j);
            && (r.Some? ==> forall f :: j < f < r.value ==> !ClosesAt(s, f))
            && (r.None? ==> forall f :: j < f ==> !ClosesAt(s, f))
    decreases |s| - j
  {
    if j + 3 <= |s| && !ClosesAt(s, j + 1) {
      FindCloseSpec(s, j + 1);
    }
  }

  /** The length of the match of `(?s)%%\s+.*?\s+%%` at the start of `s`, if any.
      The first `\s+` is greedy: the lazy middle begins after the whole whitespace
      run, and only when no closing `%%` follows that run does the first `\s+`
      give back characters, which then leaves just a `%%` ending the run itself. */
  function CommentAt(s: string): (r: Option<nat>)
    ensures r.Some? ==> 6 <= r.value <= |s| && s[0] == '%' && s[1] == '%' && IsWhitespace(s[2])
                        && IsWhitespace(s[r.value - 3]) && s[r.value - 2] == '%' && s[r.value - 1] == '%'
  {
    if |s| < 2 || s[0] != '%' || s[1] != '%' then None
    else
      var j := WhitespaceEnd(s, 2);
      WhitespaceEndSpec(s, 2);
      if j == 2 then None
      else match FindClose(s, j)
        case Some(f) => Some(f + 2)
        case None =>
          if j >= 4 && j + 2 <= |s| && s[j] == '%' && s[j + 1] == '%' then Some(j + 2) else None
  }

  /** `Regex::replace_all` with the comment pattern and an empty replacement. */
  function RemoveComments(s: string): (r: string)
    ensures |r| <= |s|
    decreases |s|
  {
    if s == [] then []
    else if s[0] != '%' then [s[0]] + RemoveComments(s[1..])
    else match CommentAt(s)
      case Some(n) => RemoveComments(s[n..])
      case None => [s[0]] + RemoveComments(s[1..])
  }

  /** `str::trim_start`. */
  function TrimStart(s: string): (r: string)
    ensures |r| <= |s|
  {
    if s != [] && IsWhitespace(s[0]) then TrimStart(s[1..]) else s
  }

  /** `str::trim_end`. */
  function TrimEnd(s: string): (r: string)
    ensures |r| <= |s|
  {
    if s != [] && IsWhitespace(s[|s| - 1]) then TrimEnd(s[..|s| - 1]) else s
  }

  /** `str::trim`. */
  function Trim(s: string): (r: string)
    ensures |r| <= |s|
  {
    TrimEnd(TrimStart(s))
  }

  /** `trim_start` keeps a suffix and removes whitespace only, and all of it:
      what is kept is empty or starts with something else. */
  lemma {:induction false} TrimStartSpec(s: string)
    ensures var r := TrimStart(s);
            && s[|s| - |r|..] == r
            && (r == [] || !IsWhitespace(r[0]))
            && forall i :: 0 <= i < |s| - |r| ==> IsWhitespace(s[i])
    decreases |s|
  {
    if s != [] && IsWhitespace(s[0]) {
      var u := s[1..];
      TrimStartSpec(u);
      var r := TrimStart(u);
      assert u[|u| - |r|..] == s[|s| - |r|..];
      forall i | 0 < i < |s| - |r| ensures IsWhitespace(s[i]) {
        assert s[i] == u[i - 1];
      }
    }
  }

  /** `trim_end` keeps a prefix and removes whitespace only, and all of it:
      what is kept is empty or ends with something else. */
  lemma {:induction false} TrimEndSpec(s: string)
    ensures var r := TrimEnd(s);
            && s[..|r|] == r
            && (r == [] || !IsWhitespace(r[|r| - 1]))
            && forall i :: |r| <= i < |s| ==> IsWhitespace(s[i])
    decreases |s|
  {
    if s != [] && IsWhitespace(s[|s| - 1]) {
      var u := s[..|s| - 1];
      TrimEndSpec(u);
      assert u[..|TrimEnd(u)|] == s[..|TrimEnd(u)|];
    }
  }

  /** A trimmed text is empty or has something other than whitespace at both
      ends. */
  lemma TrimEnds(s: string)
    ensures var r := Trim(s);
            r == [] || (!IsWhitespace(r[0]) && !IsWhitespace(r[|r| - 1]))
  {
    var t := TrimStart(s);
    TrimStartSpec(s);
    TrimEndSpec(t);
    var r := TrimEnd(t);
    if r != [] {
      assert r[0] == t[0];
    }
  }

  /** Trimming keeps text that has no whitespace at either end. */
  lemma TrimUnchanged(s: string)
    requires s == [] || (!IsWhitespace(s[0]) && !IsWhitespace(s[|s| - 1]))
    ensures Trim(s) == s
  {
  }

  /** Text made only of whitespace trims to nothing. */
  lemma {:induction false} TrimAllWhitespace(s: string)
    requires AllWhitespace(s)
    ensures TrimStart(s) == [] && Trim(s) == []
    decreases |s|
  {
    if s != [] {
      TrimAllWhitespace(s[1..]);
    }
  }

  /** Trimming leaves nothing exactly when the text is whitespace only. */
  lemma TrimEmptyIff(s: string)
    ensures Trim(s) == [] <==> AllWhitespace(s)
  {
    if Trim(s) == [] {
      var t := TrimStart(s);
      TrimStartSpec(s);
      TrimEndSpec(t);
    }
    if AllWhitespace(s) {
      TrimAllWhitespace(s);
    }
  }

  /** `strip_comments`: comment blocks removed, then surrounding whitespace. */
  function StripComments(s: string): string
  {
    Trim(RemoveComments(s))
  }

  /** Stripped text is empty or has something other than whitespace at both
      ends. */
  lemma StripCommentsEnds(s: string)
    ensures var r := StripComments(s);
            r == [] || (!IsWhitespace(r[0]) && !IsWhitespace(r[|r| - 1]))
  {
    TrimEnds(RemoveComments(s));
  }

  /** Text without `%` passes through the comment remover unchanged. */
  lemma {:induction false} RemoveCommentsPlain(a: string, t: string)
    requires '%' !in a
    ensures RemoveComments(a + t) == a + RemoveComments(t)
  {
    if a == [] {
      Utils.AppendEmpty(t);
    } else {
      var rest := a[1..];
      Utils.ConsSplit(a);
      Utils.NotInTail('%', a);
      RemoveCommentsPlain(rest, t);
      PlainConsStep(a[0], rest, t);
      Utils.AppendAssoc([a[0]], rest, RemoveComments(t));
    }
  }

  lemma PlainConsStep(c: char, u: string, t: string)
    requires c != '%'
    ensures RemoveComments([c] + u + t) == [c] + RemoveComments(u + t)
  {
    var s := [c] + u + t;
    assert s[0] == c;
    assert s[1..] == u + t;
    RemoveCommentsCons(s);
  }

  /** A character other than `%` starts no comment and is kept. */
  lemma RemoveCommentsCons(s: string)
    requires s != [] && s[0] != '%'
    ensures RemoveComments(s) == [s[0]] + RemoveComments(s[1..])
  {
  }

  /** Text in which `%%` does not occur has no comment to remove. */
  lemma {:induction false} RemoveCommentsNoMarker(s: string)
    requires !Utils.Occurs("%%", s)
    ensures RemoveComments(s) == s
    decreases |s|
  {
    if s != [] {
      assert !Utils.OccursAt("%%", s, 0);
      Utils.OccursTail("%%", s);
      RemoveCommentsNoMarker(s[1..]);
      assert s == [s[0]] + s[1..];
    }
  }

  /** Text without a `%%` comes back merely trimmed. */
  lemma StripCommentsNoMarker(s: string)
    requires !Utils.Occurs("%%", s)
    ensures StripComments(s) == Trim(s)
  {
    RemoveCommentsNoMarker(s);
  }

  /** A comment whose body has no `%`, begins and ends with whitespace and holds
      some other character ends at its own closing `%%`, whatever follows. */
  lemma CommentAtBlock(x: string, rest: string)
    requires |x| >= 2 && '%' !in x
    requires IsWhitespace(x[0]) && IsWhitespace(x[|x| - 1])
    requires exists k :: 0 <= k < |x| && !IsWhitespace(x[k])
    ensures CommentAt("%%" + x + "%%" + rest) == Some(|x| + 4)
  {
    var s := "%%" + x + "%%" + rest;
    var k :| 0 <= k < |x| && !IsWhitespace(x[k]);
    assert forall i :: 2 <= i < |x| + 2 ==> s[i] == x[i - 2];
    var j := WhitespaceEnd(s, 2);
    WhitespaceEndSpec(s, 2);
    assert s[k + 2] == x[k];
    assert j <= k + 2;
    assert ClosesAt(s, |x| + 2);
    var r := FindClose(s, j);
    FindCloseSpec(s, j);
    assert r.Some? && r.value <= |x| + 2;
    assert forall f :: j < f < |x| + 2 ==> !ClosesAt(s, f) by {
      forall f | j < f < |x| + 2 ensures !ClosesAt(s, f) {
        assert s[f] == x[f - 2] && x[f - 2] in x;
      }
    }
  }

  /** A comment body the way `CommentAtBlock` needs it: no `%`, whitespace at
      both ends and something else in between. */
  predicate PlainCommentBody(x: string)
  {
    && |x| >= 2 && '%' !in x
    && IsWhitespace(x[0]) && IsWhitespace(x[|x| - 1])
    && exists k :: 0 <= k < |x| && !IsWhitespace(x[k])
  }

  /** A comment block with body `x`. */
  function CommentText(x: string): string
  {
    "%%" + x + "%%"
  }

  /** A comment and everything in it disappear, and the scan resumes after it. */
  lemma RemoveCommentsBlock(x: string, rest: string)
    requires PlainCommentBody(x)
    ensures RemoveComments(CommentText(x) + rest) == RemoveComments(rest)
  {
    CommentAtBlock(x, rest);
    assert (CommentText(x) + rest)[|x| + 4..] == rest;
  }

  /** Whitespace, then a comment: only the whitespace remains. */
  lemma RemoveCommentsSpacedBlock(w: string, x: string, rest: string)
    requires AllWhitespace(w) && PlainCommentBody(x)
    ensures RemoveComments(w + CommentText(x) + rest) == w + RemoveComments(rest)
  {
    assert '%' !in w by {
      assert !IsWhitespace('%');
    }
    assert w + CommentText(x) + rest == w + (CommentText(x) + rest);
    RemoveCommentsPlain(w, CommentText(x) + rest);
    RemoveCommentsBlock(x, rest);
  }

  /** Whitespace only. */
  predicate AllWhitespace(w: string)
  {
    forall i :: 0 <= i < |w| ==> IsWhitespace(w[i])
  }

  lemma AllWhitespaceAppend(a: string, b: string)
    requires AllWhitespace(a) && AllWhitespace(b)
    ensures AllWhitespace(a + b)
  {
    forall i | 0 <= i < |a + b| ensures IsWhitespace((a + b)[i]) {
      if i >= |a| {
        assert (a + b)[i] == b[i - |a|];
      }
    }
  }

  /** Two comments between whitespace leave only the whitespace. */
  lemma RemoveCommentsTwoComments(w1: string, x1: string, w2: string, x2: string, w3: string)
    requires AllWhitespace(w1) && AllWhitespace(w2) && AllWhitespace(w3)
    requires PlainCommentBody(x1) && PlainCommentBody(x2)
    ensures RemoveComments(w1 + CommentText(x1) + w2 + CommentText(x2) + w3) == w1 + (w2 + w3)
  {
    var tail := w2 + CommentText(x2) + w3;
    assert w1 + CommentText(x1) + w2 + CommentText(x2) + w3 == w1 + CommentText(x1) + tail;
    RemoveCommentsSpacedBlock(w1, x1, tail);
    RemoveCommentsSpacedBlock(w2, x2, w3);
    assert '%' !in w3 by {
      assert !IsWhitespace('%');
    }
    RemoveCommentsPlain(w3, "");
    assert w3 + "" == w3;
  }

  /** Two comments between whitespace strip to nothing. */
  lemma StripCommentsTwoComments(w1: string, x1: string, w2: string, x2: string, w3: string)
    requires AllWhitespace(w1) && AllWhitespace(w2) && AllWhitespace(w3)
    requires PlainCommentBody(x1) && PlainCommentBody(x2)
    ensures StripComments(w1 + CommentText(x1) + w2 + CommentText(x2) + w3) == ""
  {
    RemoveCommentsTwoComments(w1, x1, w2, x2, w3);
    AllWhitespaceAppend(w2, w3);
    AllWhitespaceAppend(w1, w2 + w3);
    TrimAllWhitespace(w1 + (w2 + w3));
  }

  /** The pieces of the `strip_comments` unit-test text: indentation and blank
      lines around a multi-line comment and a one-line comment. */
  const COMMENTS_INDENT: string := "\n    "
  const COMMENTS_GAP: string := "\n\n    "
  const COMMENTS_LONG: string :=
    "\n\n    Attempting to follow " + "the structure from this " + "series of articles:\n    "
    + "https://storybilder.com/" + "blog/structure-flash-" + "fiction-part-1\n    "
    + "https://storybilder.com/" + "blog/structure-flash-" + "fiction-part-2\n\n    "
  const COMMENTS_SHORT: string :=
    " 1. In 2-3 sentences, " + "set the place and " + "introduce the character(s). "

  /** The unit-test text: nothing but comments and whitespace. */
  const COMMENTS: string :=
    COMMENTS_INDENT + CommentText(COMMENTS_LONG) + COMMENTS_GAP
    + CommentText(COMMENTS_SHORT) + COMMENTS_GAP

  lemma CommentsLongStart()
    ensures '%' !in "\n\n    Attempting to follow " && '%' !in "the structure from this "
    ensures '%' !in "series of articles:\n    "
  {
  }

  lemma CommentsLongLinks()
    ensures '%' !in "https://storybilder.com/" && '%' !in "blog/structure-flash-"
    ensures '%' !in "fiction-part-1\n    " && '%' !in "fiction-part-2\n\n    "
  {
  }

  lemma CommentsLongBody()
    ensures PlainCommentBody(COMMENTS_LONG)
  {
    CommentsLongStart();
    CommentsLongLinks();
    assert !IsWhitespace(COMMENTS_LONG[6]);
  }

  lemma CommentsShortBody()
    ensures PlainCommentBody(COMMENTS_SHORT)
  {
    assert '%' !in " 1. In 2-3 sentences, " && '%' !in "set the place and ";
    assert '%' !in "introduce the character(s). ";
    assert !IsWhitespace(COMMENTS_SHORT[1]);
  }

  /** Unit-tested example: a text of comments strips to nothing. */
  lemma StripCommentsTest()
    ensures StripComments(COMMENTS) == ""
  {
    CommentsLongBody();
    CommentsShortBody();
    assert AllWhitespace(COMMENTS_INDENT) && AllWhitespace(COMMENTS_GAP);
    StripCommentsTwoComments(COMMENTS_INDENT, COMMENTS_LONG, COMMENTS_GAP, COMMENTS_SHORT, COMMENTS_GAP);
  }

  // ---------------------------------------------------------------------------
  // parse_markdown and parse_pii.

  /** The document `parse_markdown` produces for a text. */
  function ParsedMarkdown(md: string, parse: Parser<Metadata>): Document<Metadata>
  {
    var body := if parse(md).Some? then parse(md).value.1 else md;
    Document(if parse(md).Some? then parse(md).value.0 else EMPTY_METADATA,
             TrimLinks(TrimDoublespace(body)))
  }

  /** The document `parse_pii` produces for a text. */
  function ParsedPii(md: string, parse: Parser<Pii>): Document<Pii>
  {
    Document(if parse(md).Some? then parse(md).value.0 else EMPTY_PII, "")
  }

  /** `parse_markdown`: the front matter if the parser accepts the text, else empty
      metadata and the whole text as body; the body then has its double spaces
      collapsed and its links replaced by their labels. It never fails. */
  method ParseMarkdown(md: string, parse: Parser<Metadata>) returns (r: Result<Document<Metadata>, string>)
    ensures r.Ok? && r.value == ParsedMarkdown(md, parse)
    ensures parse(md).Some? ==> r.value.metadata == parse(md).value.0
    ensures parse(md).None? ==> r.value.metadata == EMPTY_METADATA
    ensures r.value.content
         == TrimLinks(TrimDoublespace(if parse(md).Some? then parse(md).value.1 else md))
  {
    var document := Document(EMPTY_METADATA, "");
    var parsed := parse(md);
    if parsed.Some? {
      document := document.(metadata := parsed.value.0);
      document := document.(content := parsed.value.1);
    } else {
      document := document.(content := md);
    }
    document := document.(content := TrimDoublespace(document.content));
    document := document.(content := TrimLinks(document.content));
    return Ok(document);
  }

  /** `parse_pii`: the PII front matter if the parser accepts the text, else empty
      PII; the body is always dropped. It never fails. */
  method ParsePii(md: string, parse: Parser<Pii>) returns (r: Result<Document<Pii>, string>)
    ensures r.Ok? && r.value == ParsedPii(md, parse) && r.value.content == ""
    ensures r.value.metadata == if parse(md).Some? then parse(md).value.0 else EMPTY_PII
  {
    var pii := Document(EMPTY_PII, "");
    var parsed := parse(md);
    if parsed.Some? {
      pii := pii.(metadata := parsed.value.0);
    }
    return Ok(pii);
  }

  /** Parsed content never keeps a double space that the links did not bring:
      when the collapsed body has no link, the content has no double space. */
  lemma ParseMarkdownContentNoDoubleSpace(body: string)
    requires forall i :: !LinkStartsAt(TrimDoublespace(body), i)
    ensures NoDoubleSpace(TrimLinks(TrimDoublespace(body)))
  {
    TrimLinksUnchangedIff(TrimDoublespace(body));
  }

  /** Without that condition the property fails: a link whose label is a space,
      between two spaces, survives the collapsing step and then leaves three
      spaces in a row, so the parsed content of `a [ ](x) b` keeps a double
      space. */
  lemma ParseMarkdownContentDoubleSpace()
    ensures var body := "a " + LinkText(SPACE_LINK) + " b";
            TrimDoublespace(body) == body && TrimLinks(TrimDoublespace(body)) == "a   b"
            && !NoDoubleSpace(TrimLinks(TrimDoublespace(body)))
  {
    var body := "a " + LinkText(SPACE_LINK) + " b";
    SpaceLinkBody();
    TrimDoublespaceFixpoint(body);
    SpaceLinkTrimmed();
  }

  const SPACE_LINK: Link := Link(" ", "x")

  lemma SpaceLinkBody()
    ensures NoDoubleSpace("a " + LinkText(SPACE_LINK) + " b")
  {
    assert "a " + LinkText(SPACE_LINK) + " b" == "a [ ](x) b";
  }

  lemma SpaceLinkTrimmed()
    ensures TrimLinks("a " + LinkText(SPACE_LINK) + " b") == "a   b"
    ensures !NoDoubleSpace("a   b")
  {
    assert '[' !in "a " && '[' !in " b";
    TrimLinksOneLink("a ", SPACE_LINK, " b");
    assert "a " + SPACE_LINK.text + " b" == "a   b";
    var t := "a   b";
    assert t[1] == ' ' && t[2] == ' ';
  }
}
