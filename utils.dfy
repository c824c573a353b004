/** utils/utils.go: the canonical form of an attachment reference. */
module Utils {
  import opened Strs

  predicate HasDoubleSlash(s: string) {
    exists k :: 0 <= k < |s| - 1 && s[k] == '/' && s[k + 1] == '/'
  }

  /** strings.ReplaceAll(s, "//", "/"): one left-to-right pass over
      non-overlapping occurrences, so "///" becomes "//". */
  function CollapseSlashes(s: string): (r: string)
    ensures |r| <= |s|
    ensures forall x :: x in r ==> x in s
    ensures !HasDoubleSlash(s) ==> r == s
  {
    if |s| >= 2 && s[0] == '/' && s[1] == '/' then "/" + CollapseSlashes(s[2..])
    else if s == [] then []
    else
      assert HasDoubleSlash(s[1..]) ==> HasDoubleSlash(s) by {
        if HasDoubleSlash(s[1..]) {
          var k :| 0 <= k < |s[1..]| - 1 && s[1..][k] == '/' && s[1..][k + 1] == '/';
          assert s[k + 1] == '/' && s[k + 2] == '/';
        }
      }
      [s[0]] + CollapseSlashes(s[1..])
  }

  /** CleanPath drops the query string, turns backslashes into slashes and
      collapses doubled slashes in a single pass. */
  function CleanPath(path: string): (r: string)
    ensures '?' !in r
    ensures '\\' !in r
    ensures |r| <= |path|
  {
    CollapseSlashes(ReplaceChar(BeforeFirst(path, '?'), '\\', "/"))
  }

  /** A path that is already canonical comes back unchanged. */
  lemma CleanPathKeepsCanonical(path: string)
    requires '?' !in path && '\\' !in path && !HasDoubleSlash(path)
    ensures CleanPath(path) == path
  {
  }

  lemma {:induction false} BeforeFirstOfJoined(a: string, c: char, b: string)
    requires c !in a
    ensures BeforeFirst(a + [c] + b, c) == a
  {
    if a != [] {
      assert (a + [c] + b)[1..] == a[1..] + [c] + b;
      BeforeFirstOfJoined(a[1..], c, b);
    }
  }

  /** Everything from the first '?' on is dropped from a canonical path. */
  lemma CleanPathDropsQuery(path: string, query: string)
    requires '?' !in path && '\\' !in path && !HasDoubleSlash(path)
    ensures CleanPath(path + ['?'] + query) == path
  {
    BeforeFirstOfJoined(path, '?', query);
  }

  lemma CleanPathDropsVersionQuery()
    ensures CleanPath("attachments/img.png?version=2") == "attachments/img.png"
  {
    var a := "attachments/img.png";
    assert "attachments/img.png?version=2" == a + ['?'] + "version=2";
    assert '\\' !in a && '?' !in a;
    assert !HasDoubleSlash(a) by {
      forall k | 0 <= k < |a| - 1 && a[k] == '/' ensures a[k + 1] != '/' {
        assert k == 11;
      }
    }
    CleanPathDropsQuery(a, "version=2");
  }

  lemma CollapseDouble()
    ensures CollapseSlashes("a//b") == "a/b"
  {
    var s := "a//b";
    assert s[1..] == "//b" && s[1..][2..] == "b";
    assert CollapseSlashes("b") == "b";
  }

  lemma CollapseTriple()
    ensures CollapseSlashes("a///b") == "a//b"
  {
    var s := "a///b";
    assert s[1..] == "///b" && s[1..][2..] == "/b" && "/b"[1..] == "b";
    assert CollapseSlashes("b") == "b";
    assert CollapseSlashes("/b") == "/b";
  }

  /** Without a query string or a backslash, CleanPath only collapses slashes. */
  lemma CleanIsCollapse(s: string)
    requires '?' !in s && '\\' !in s
    ensures CleanPath(s) == CollapseSlashes(s)
  {
  }

  lemma CleanPathDoubleSlash()
    ensures CleanPath("a//b") == "a/b"
  {
    assert '?' !in "a//b" && '\\' !in "a//b";
    CleanIsCollapse("a//b");
    CollapseDouble();
  }

  lemma CleanPathTripleSlash()
    ensures CleanPath("a///b") == "a//b"
  {
    assert '?' !in "a///b" && '\\' !in "a///b";
    CleanIsCollapse("a///b");
    CollapseTriple();
  }

  /** The slash collapse is a single pass: a triple slash keeps a double one,
      so CleanPath is not idempotent. */
  lemma CleanPathIsSinglePass()
    ensures CleanPath("a///b") == "a//b"
    ensures CleanPath("a//b") == "a/b"
  {
    CleanPathTripleSlash();
    CleanPathDoubleSlash();
  }
}
