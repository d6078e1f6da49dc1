/** The parts of Rust's `std::path` (Unix flavour) that the core relies on:
    `PathBuf::push`/`join`, `Path::file_name` and `Path::extension`. */
module Paths {
  import opened Wrappers

  /** `PathBuf::push`: an absolute component replaces the whole path; otherwise a
      separator is inserted unless the path is empty or already ends with one. */
  function Join(base: string, comp: string): (r: string)
    ensures comp != [] && comp[0] == '/' ==> r == comp
    ensures (comp == [] || comp[0] != '/') ==>
              |r| >= |base| + |comp| && r[..|base|] == base && r[|r| - |comp|..] == comp
  {
    if comp != [] && comp[0] == '/' then comp
    else if base == [] || base[|base| - 1] == '/' then base + comp
    else base + "/" + comp
  }

  /** The index of the last `c` in `s`, or -1 when there is none. */
  function LastIndexOf(s: string, c: char): (i: int)
    ensures -1 <= i < |s|
    ensures i >= 0 ==> s[i] == c
    ensures forall j :: i < j < |s| ==> s[j] != c
  {
    if s == [] then -1
    else if s[|s| - 1] == c then |s| - 1
    else LastIndexOf(s[..|s| - 1], c)
  }

  /** `Path::file_name`: the last component, provided it is a normal name.
      Empty components and `.` are skipped, as `Path::components` does;
      a last component `..`, a root alone or an empty path have no file name. */
  function FileName(path: string): (r: Option<string>)
    ensures r.Some? ==> r.value != [] && '/' !in r.value && r.value != "." && r.value != ".."
    decreases |path|
  {
    if path == [] then None
    else
      var i := LastIndexOf(path, '/');
      var last := path[i + 1..];
      if last == "" || last == "." then (if i < 0 then None else FileName(path[..i]))
      else if last == ".." then None
      else Some(last)
  }

  /** `Path::extension` applied to a file name: the text after the last dot,
      unless there is no dot or the only dot starts the name (`.md`). */
  function Extension(name: string): (r: Option<string>)
    ensures r.Some? ==> '.' !in r.value && |r.value| < |name|
  {
    if name == ".." then None
    else
      var k := LastIndexOf(name, '.');
      if k <= 0 then None else Some(name[k + 1..])
  }

  /** Appending text without the character does not move its last occurrence. */
  lemma {:induction false} LastIndexOfAppend(s: string, t: string, c: char)
    requires c !in t
    ensures LastIndexOf(s + t, c) == LastIndexOf(s, c)
    decreases |t|
  {
    if t != [] {
      assert (s + t)[..|s + t| - 1] == s + t[..|t| - 1];
      LastIndexOfAppend(s, t[..|t| - 1], c);
    } else {
      assert s + t == s;
    }
  }

  /** Joining a plain name onto a path makes that name the file name. */
  lemma JoinFileName(base: string, name: string)
    requires name != [] && '/' !in name && name != "." && name != ".."
    ensures FileName(Join(base, name)) == Some(name)
  {
    var r := Join(base, name);
    if base == [] {
      LastIndexOfAppend([], name, '/');
      assert [] + name == name;
    } else if base[|base| - 1] == '/' {
      LastIndexOfAppend(base, name, '/');
      assert r[LastIndexOf(base, '/') + 1..] == name;
    } else {
      assert r == (base + "/") + name;
      LastIndexOfAppend(base + "/", name, '/');
      assert LastIndexOf(base + "/", '/') == |base|;
    }
  }

  /** A file name has extension `md` exactly when it is longer than `.md` and ends with it. */
  lemma ExtensionMd(name: string)
    ensures Extension(name) == Some("md") <==> |name| > 3 && name[|name| - 3..] == ".md"
  {
    if |name| > 3 && name[|name| - 3..] == ".md" {
      var n := |name|;
      assert name[n - 1] == 'd' && name[n - 2] == 'm' && name[n - 3] == '.';
      assert name[..n - 1][..n - 2] == name[..n - 2];
      assert LastIndexOf(name, '.') == n - 3;
      assert name[n - 2..] == name[n - 3..][1..] == "md";
    }
    if Extension(name) == Some("md") {
      var k := LastIndexOf(name, '.');
      assert name[k + 1..] == "md" && k == |name| - 3;
      assert name[|name| - 3..] == [name[k]] + name[k + 1..] == ['.'] + "md" == ".md";
    }
  }
}
