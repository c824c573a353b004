/** The part of Go's `path/filepath` (with `/` as the separator) that the
    migration core uses to build and take apart file names. */
module Paths {
  import opened Strs

  /** filepath.Join of two elements, with empty elements ignored.
      The lexical clean-up that Go applies afterwards is not modelled. */
  function Join(a: string, b: string): string {
    if a == "" then b else if b == "" then a else a + "/" + b
  }

  function StripTrailingSlashes(s: string): (r: string)
    ensures HasPrefix(s, r)
    ensures r == [] || r[|r| - 1] != '/'
    ensures forall k :: |r| <= k < |s| ==> s[k] == '/'
  {
    if s != [] && s[|s| - 1] == '/' then StripTrailingSlashes(s[..|s| - 1]) else s
  }

  /** filepath.Base: the last element of the path, trailing slashes removed;
      "." for the empty path and "/" for a path of slashes only. */
  function Base(p: string): (r: string)
    ensures r != ""
    ensures r == "/" || '/' !in r
    ensures p == "" ==> r == "."
  {
    if p == "" then "."
    else
      var q := StripTrailingSlashes(p);
      if q == "" then "/" else AfterLast(q, '/')
  }

  /** The base name of a path whose last element was joined onto it is that element. */
  lemma BaseOfJoin(dir: string, name: string)
    requires name != "" && '/' !in name
    ensures Base(Join(dir, name)) == name
  {
    var p := Join(dir, name);
    assert p[|p| - 1] == name[|name| - 1];
    assert StripTrailingSlashes(p) == p;
    if dir == "" {
      assert AfterLast(name, '/') == name;
    } else {
      AfterLastAfterSeparator(dir, name, '/');
      assert p == dir + ['/'] + name;
    }
  }

  lemma {:induction false} AfterLastAfterSeparator(a: string, t: string, c: char)
    requires c !in t
    ensures AfterLast(a + [c] + t, c) == t
  {
    var s := a + [c] + t;
    if t == [] {
      assert s[|s| - 1] == c;
    } else {
      var t' := t[..|t| - 1];
      assert s[..|s| - 1] == a + [c] + t';
      assert c !in t' by { assert forall x :: x in t' ==> x in t; }
      AfterLastAfterSeparator(a, t', c);
      assert t == t' + [t[|t| - 1]];
    }
  }

  /** filepath.Dir for paths without "." or ".." elements: what precedes
      the last separator without trailing separators, "." when there is no
      separator and "/" when only the root precedes it. */
  function Dir(p: string): (r: string)
    ensures r != ""
  {
    if '/' !in p then "."
    else
      var q := StripTrailingSlashes(p[..|p| - |AfterLast(p, '/')| - 1]);
      if q == "" then "/" else q
  }

  /** The directory of a name joined onto a directory is that directory. */
  lemma DirOfJoin(dir: string, name: string)
    requires name != "" && '/' !in name
    requires dir != "" && dir[|dir| - 1] != '/'
    ensures Dir(Join(dir, name)) == dir
  {
    var p := dir + ['/'] + name;
    assert Join(dir, name) == p;
    assert p[|dir|] == '/';
    assert AfterLast(p, '/') == name by { AfterLastAfterSeparator(dir, name, '/'); }
    assert p[..|p| - |name| - 1] == dir;
    assert StripTrailingSlashes(dir) == dir;
  }

  function ExtScan(p: string, i: nat): (r: string)
    requires i <= |p|
    requires forall k :: i <= k < |p| ==> p[k] != '/'
    ensures r == "" || (r[0] == '.' && HasSuffix(p, r) && '/' !in r)
  {
    if i == 0 then ""
    else if p[i - 1] == '/' then ""
    else if p[i - 1] == '.' then p[i - 1..]
    else ExtScan(p, i - 1)
  }

  /** filepath.Ext: the suffix starting at the last '.' of the last path element, or "". */
  function Ext(p: string): (r: string)
    ensures r == "" || (r[0] == '.' && HasSuffix(p, r) && '/' !in r)
  {
    ExtScan(p, |p|)
  }
}
