/** Word-count rounding and root-relative file names (src/utils.rs). */
module Utils {

  /** Rounds a word count up the way Shunn's format asks: to the next multiple of
      100, or of 500 once the count is past 17,500 words (novella territory).
      The next multiple is strictly greater, so an exact multiple still moves up
      by a whole step, and there is no exact-count case for short pieces.
      The source works on `usize`; its wrap-around near `usize::MAX` is not modelled. */
  method RoundUp(wc: nat) returns (r: nat)
    ensures wc <= 17500 ==> r % 100 == 0 && wc < r <= wc + 100
    ensures wc > 17500 ==> r % 500 == 0 && wc < r <= wc + 500
  {
    r := wc;
    if r > 17500 {
      r := r + 500;
      r := r - r % 500;
      return;
    }
    r := r + 100;
    r := r - r % 100;
  }

  /** The rounding examples: none of them is left unchanged. */
  method RoundUpExamples()
  {
    var r := RoundUp(0);
    assert r == 100;
    r := RoundUp(100);
    assert r == 200;
    r := RoundUp(17500);
    assert r == 17600;
    r := RoundUp(17501);
    assert r == 18000;
    r := RoundUp(18000);
    assert r == 18500;
  }

  /** `pat` occurs in `s` starting at index `i`. */
  ghost predicate OccursAt(pat: string, s: string, i: int)
  {
    0 <= i <= |s| - |pat| && s[i..i + |pat|] == pat
  }

  /** `pat` occurs somewhere in `s`. */
  ghost predicate Occurs(pat: string, s: string)
  {
    exists i :: OccursAt(pat, s, i)
  }

  /** `s.replace(pat, "")`: every leftmost, non-overlapping occurrence of `pat`
      is removed. Rust's `replace` with an empty pattern changes nothing. */
  function RemoveAll(s: string, pat: string): (r: string)
    ensures |r| <= |s|
    decreases |s|
  {
    if pat == [] || |s| < |pat| then s
    else if s[..|pat|] == pat then RemoveAll(s[|pat|..], pat)
    else [s[0]] + RemoveAll(s[1..], pat)
  }

  /** `s.trim_start_matches('/')`. */
  function TrimStartSlashes(s: string): (r: string)
    ensures r == [] || r[0] != '/'
    ensures |r| <= |s| && s[|s| - |r|..] == r
    ensures forall i :: 0 <= i < |s| - |r| ==> s[i] == '/'
  {
    if s != [] && s[0] == '/' then TrimStartSlashes(s[1..]) else s
  }

  /** `get_base_filename`: the path with `basedir` removed wherever it occurs,
      then with its leading slashes removed. */
  function GetBaseFilename(basedir: string, path: string): (r: string)
    ensures r == [] || r[0] != '/'
  {
    TrimStartSlashes(RemoveAll(path, basedir))
  }

  /** Removing a non-empty pattern changes the text exactly when it occurs. */
  lemma {:induction false} RemoveAllUnchangedIff(s: string, pat: string)
    requires pat != []
    ensures RemoveAll(s, pat) == s <==> !Occurs(pat, s)
    decreases |s|
  {
    if |s| < |pat| {
    } else if s[..|pat|] == pat {
      assert OccursAt(pat, s, 0);
      assert |RemoveAll(s, pat)| <= |s| - |pat|;
    } else {
      RemoveAllUnchangedIff(s[1..], pat);
      assert !OccursAt(pat, s, 0);
      OccursTail(pat, s);
    }
  }

  /** An occurrence in the tail is one in the whole text, one place later; and
      an occurrence that does not start the text lies in its tail. */
  lemma OccursTail(pat: string, s: string)
    requires s != []
    ensures Occurs(pat, s[1..]) ==> Occurs(pat, s)
    ensures Occurs(pat, s) && !OccursAt(pat, s, 0) ==> Occurs(pat, s[1..])
  {
    if Occurs(pat, s[1..]) {
      var i :| OccursAt(pat, s[1..], i);
      assert s[1..][i..i + |pat|] == s[i + 1..i + 1 + |pat|];
      assert OccursAt(pat, s, i + 1);
    }
    if Occurs(pat, s) && !OccursAt(pat, s, 0) {
      var i :| OccursAt(pat, s, i);
      assert i >= 1;
      assert s[i..i + |pat|] == s[1..][i - 1..i - 1 + |pat|];
      assert OccursAt(pat, s[1..], i - 1);
    }
  }

  /** A leading occurrence of the pattern is removed. */
  lemma RemoveAllPrefix(pat: string, s: string)
    requires pat != []
    ensures RemoveAll(pat + s, pat) == RemoveAll(s, pat)
  {
    assert (pat + s)[..|pat|] == pat;
    assert (pat + s)[|pat|..] == s;
  }

  /** When `basedir` does not occur in `path`, only the leading slashes go. */
  lemma GetBaseFilenameNoOccurrence(basedir: string, path: string)
    requires !Occurs(basedir, path)
    ensures GetBaseFilename(basedir, path) == TrimStartSlashes(path)
  {
    if basedir != [] {
      RemoveAllUnchangedIff(path, basedir);
    }
  }

  /** A path below `basedir` loses the `basedir` prefix and the separator after it. */
  lemma {:induction false} GetBaseFilenameBelow(basedir: string, rel: string)
    requires basedir != []
    requires !Occurs(basedir, "/" + rel)
    ensures GetBaseFilename(basedir, basedir + "/" + rel) == TrimStartSlashes(rel)
  {
    assert basedir + "/" + rel == basedir + ("/" + rel);
    RemoveAllPrefix(basedir, "/" + rel);
    RemoveAllUnchangedIff("/" + rel, basedir);
    assert ("/" + rel)[1..] == rel;
  }

  /** The base directory itself has the empty relative name. */
  lemma GetBaseFilenameSelf(basedir: string)
    ensures GetBaseFilename(basedir, basedir) == ""
  {
    if basedir != [] {
      RemoveAllPrefix(basedir, "");
      assert basedir + "" == basedir;
    }
  }

  /** Unit-tested example: the base directory itself. */
  lemma GetBaseFilenameTestSelf()
    ensures GetBaseFilename("examples/", "examples/") == ""
  {
    GetBaseFilenameSelf("examples/");
  }

  /** The directory name does not occur in the file name. */
  lemma StandaloneKeepsName()
    ensures RemoveAll("standalone.md", "examples/") == "standalone.md"
  {
    var s := "standalone.md";
    forall i | 0 <= i <= |s| - 9 ensures !OccursAt("examples/", s, i) {
      assert s[i] != 'e';
    }
    RemoveAllUnchangedIff(s, "examples/");
  }

  /** Unit-tested example: a file directly below the base directory. */
  lemma GetBaseFilenameTestSingleFile()
    ensures GetBaseFilename("examples/", "examples/" + "standalone.md") == "standalone.md"
  {
    RemoveAllPrefix("examples/", "standalone.md");
    StandaloneKeepsName();
  }

  /** Unit-tested example: a scene nested two directories deep. */
  lemma GetBaseFilenameTestNested()
    ensures GetBaseFilename("examples/novella_with_parts/",
                            "examples/novella_with_parts/" + "Act 1/Chapter 1/scene1.md")
         == "Act 1/Chapter 1/scene1.md"
  {
    RemoveAllPrefix("examples/novella_with_parts/", "Act 1/Chapter 1/scene1.md");
  }

  // ---------------------------------------------------------------------------
  // Sequence facts, stated once so that proofs about costly functions need not
  // rediscover them.

  lemma AppendAssoc<T>(x: seq<T>, y: seq<T>, z: seq<T>)
    ensures x + y + z == x + (y + z)
  {
  }

  lemma AppendEmpty<T>(x: seq<T>)
    ensures [] + x == x && x + [] == x
  {
  }

  lemma ConsSplit<T>(a: seq<T>)
    requires a != []
    ensures a == [a[0]] + a[1..]
  {
  }

  lemma ConsCancel<T>(c: T, x: seq<T>, y: seq<T>)
    ensures [c] + x == [c] + y <==> x == y
  {
    if [c] + x == [c] + y {
      assert x == ([c] + x)[1..];
    }
  }

  lemma NotInAppend<T>(x: T, a: seq<T>, b: seq<T>)
    requires x !in a && x !in b
    ensures x !in a + b
  {
  }

  lemma NotInTail<T>(x: T, a: seq<T>)
    requires a != [] && x !in a
    ensures a[0] != x && x !in a[1..]
  {
  }
}
