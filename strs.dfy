/** The subset of Go's `strings` package that the migration core relies on,
    stated over `string == seq<char>`. */
module Strs {

  predicate HasPrefix(s: string, prefix: string) {
    |prefix| <= |s| && s[..|prefix|] == prefix
  }

  predicate HasSuffix(s: string, suffix: string) {
    |suffix| <= |s| && s[|s| - |suffix|..] == suffix
  }

  /** strings.TrimPrefix */
  function TrimPrefix(s: string, prefix: string): (r: string)
    ensures HasPrefix(s, prefix) ==> prefix + r == s
    ensures !HasPrefix(s, prefix) ==> r == s
  {
    if HasPrefix(s, prefix) then
      assert s == s[..|prefix|] + s[|prefix|..];
      s[|prefix|..]
    else s
  }

  /** strings.TrimSuffix */
  function TrimSuffix(s: string, suffix: string): (r: string)
    ensures HasSuffix(s, suffix) ==> r + suffix == s
    ensures !HasSuffix(s, suffix) ==> r == s
  {
    if HasSuffix(s, suffix) then
      assert s == s[..|s| - |suffix|] + s[|s| - |suffix|..];
      s[..|s| - |suffix|]
    else s
  }

  /** strings.ReplaceAll(s, string(c), rep) for a one-character pattern. */
  function ReplaceChar(s: string, c: char, rep: string): (r: string)
    ensures c !in s ==> r == s
    ensures c !in rep ==> c !in r
    ensures forall x :: x in r ==> x in s || x in rep
    ensures |rep| == 1 ==> |r| == |s|
    ensures |rep| == 1 ==> forall k :: 0 <= k < |s| ==> r[k] == (if s[k] == c then rep[0] else s[k])
  {
    if s == [] then []
    else (if s[0] == c then rep else [s[0]]) + ReplaceChar(s[1..], c, rep)
  }

  /** The prefix of `s` before the first `c`; all of `s` when there is none.
      This is `strings.Split(s, string(c))[0]`. */
  function BeforeFirst(s: string, c: char): (r: string)
    ensures c !in r
    ensures HasPrefix(s, r)
    ensures c in s ==> |r| < |s| && s[|r|] == c
    ensures c !in s ==> r == s
  {
    if s == [] then []
    else if s[0] == c then []
    else [s[0]] + BeforeFirst(s[1..], c)
  }

  /** Every position of `s` strictly after the last `c`; all of `s` when there is none.
      This is the last element of `strings.Split(s, string(c))`. */
  function AfterLast(s: string, c: char): (r: string)
    ensures c !in r
    ensures HasSuffix(s, r)
    ensures c in s ==> |r| < |s| && s[|s| - |r| - 1] == c
    ensures c !in s ==> r == s
  {
    if s == [] then []
    else if s[|s| - 1] == c then []
    else
      var r' := AfterLast(s[..|s| - 1], c);
      assert s == s[..|s| - 1] + [s[|s| - 1]];
      r' + [s[|s| - 1]]
  }

  /** strings.Split(s, string(c)): the pieces between the occurrences of `c`. */
  function Split(s: string, c: char): (parts: seq<string>)
    ensures |parts| >= 1
    ensures parts[0] == BeforeFirst(s, c)
    ensures c !in s ==> parts == [s]
    ensures forall k :: 0 <= k < |parts| ==> c !in parts[k]
    decreases |s|
  {
    var head := BeforeFirst(s, c);
    if |head| == |s| then [s]
    else [head] + Split(s[|head| + 1..], c)
  }

  /** Appending a character other than `c` extends what follows the last `c`. */
  lemma AfterLastSnoc(x: string, d: char, c: char)
    requires d != c
    ensures AfterLast(x + [d], c) == AfterLast(x, c) + [d]
  {
    assert (x + [d])[..|x|] == x;
  }

  /** What follows the last `c` is unaffected by anything before a `c`. */
  lemma {:induction false} AfterLastOfSuffix(a: string, t: string, c: char)
    ensures AfterLast(a + [c] + t, c) == AfterLast(t, c)
    decreases |t|
  {
    var s := a + [c] + t;
    if t == [] {
      assert s[|s| - 1] == c;
    } else {
      var front, last := t[..|t| - 1], t[|t| - 1];
      assert t == front + [last];
      assert s == (a + [c] + front) + [last];
      if last != c {
        AfterLastOfSuffix(a, front, c);
        AfterLastSnoc(a + [c] + front, last, c);
        AfterLastSnoc(front, last, c);
      } else {
        assert s[|s| - 1] == c;
      }
    }
  }

  /** strings.Split yields more than one piece exactly when `c` occurs, and
      its last piece is what follows the last `c`. */
  lemma {:induction false} SplitLast(s: string, c: char)
    ensures |Split(s, c)| > 1 <==> c in s
    ensures Split(s, c)[|Split(s, c)| - 1] == AfterLast(s, c)
    decreases |s|
  {
    var head := BeforeFirst(s, c);
    if c in s {
      var rest := s[|head| + 1..];
      assert s == head + [c] + rest;
      SplitLast(rest, c);
      AfterLastOfSuffix(head, rest, c);
    }
  }

  /** unicode.IsSpace: the Latin-1 spaces and the Unicode White_Space characters. */
  predicate IsSpace(c: char) {
    c == ' ' || c == '\t' || c == '\n' || c == '\r' || c == '\U{000B}' || c == '\U{000C}'
    || c == '\U{0085}' || c == '\U{00A0}' || c == '\U{1680}'
    || ('\U{2000}' <= c <= '\U{200A}') || c == '\U{2028}' || c == '\U{2029}'
    || c == '\U{202F}' || c == '\U{205F}' || c == '\U{3000}'
  }

  /** Drops the leading characters for which `cut` holds. */
  function TrimStart(s: string, cut: char -> bool): (r: string)
    ensures HasSuffix(s, r)
    ensures forall k :: 0 <= k < |s| - |r| ==> cut(s[k])
    ensures r == [] || !cut(r[0])
    ensures (s == [] || !cut(s[0])) ==> r == s
    ensures forall x :: x in r ==> x in s
  {
    if s != [] && cut(s[0]) then TrimStart(s[1..], cut) else s
  }

  /** Drops the trailing characters for which `cut` holds. */
  function TrimEnd(s: string, cut: char -> bool): (r: string)
    ensures HasPrefix(s, r)
    ensures forall k :: |r| <= k < |s| ==> cut(s[k])
    ensures r == [] || !cut(r[|r| - 1])
    ensures (s == [] || !cut(s[|s| - 1])) ==> r == s
    ensures forall x :: x in r ==> x in s
  {
    if s != [] && cut(s[|s| - 1]) then TrimEnd(s[..|s| - 1], cut) else s
  }

  /** strings.Trim / strings.TrimFunc: both ends stripped of `cut` characters. */
  function Trim(s: string, cut: char -> bool): (r: string)
    ensures r == [] || (!cut(r[0]) && !cut(r[|r| - 1]))
    ensures forall x :: x in r ==> x in s
    ensures |r| <= |s|
    ensures (s == [] || (!cut(s[0]) && !cut(s[|s| - 1]))) ==> r == s
  {
    TrimEnd(TrimStart(s, cut), cut)
  }

  /** strings.TrimSpace */
  function TrimSpace(s: string): (r: string)
    ensures r == [] || (!IsSpace(r[0]) && !IsSpace(r[|r| - 1]))
    ensures forall x :: x in r ==> x in s
  {
    Trim(s, IsSpace)
  }

  /** strings.ToLower restricted to ASCII letters; other characters are kept. */
  function ToLowerAscii(s: string): (r: string)
    ensures |r| == |s|
    ensures forall k :: 0 <= k < |s| ==>
      r[k] == (if 'A' <= s[k] <= 'Z' then (s[k] as int + 32) as char else s[k])
  {
    if s == [] then []
    else [if 'A' <= s[0] <= 'Z' then (s[0] as int + 32) as char else s[0]] + ToLowerAscii(s[1..])
  }
}
