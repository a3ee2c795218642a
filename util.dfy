/** Sequence and string helpers shared by every stage of the compiler model:
    Python's `list.index`, `str.split(sep)`, `str.strip()`, `str(n)` and the
    ASCII character classes that the source relies on. */
module Util {

  datatype Option<T> = None | Some(value: T)

  /** A computation that either produces a value or raises the error `error`. */
  datatype Result<T, E> = Ok(value: T) | Err(error: E)

  /** Python's `x in s` followed by `s.index(x)`: the first position of `x`. */
  function IndexOf<T(==)>(s: seq<T>, x: T): (i: nat)
    requires x in s
    ensures i < |s| && s[i] == x
    ensures forall k :: 0 <= k < i ==> s[k] != x
  {
    if s[0] == x then 0 else 1 + IndexOf(s[1..], x)
  }

  /** `s.index(x, from)`: the first position at or after `from` holding `x`. */
  function IndexFrom<T(==)>(s: seq<T>, x: T, from: nat): (i: nat)
    requires from <= |s| && x in s[from..]
    ensures from <= i < |s| && s[i] == x
    ensures forall k :: from <= k < i ==> s[k] != x
  {
    from + IndexOf(s[from..], x)
  }

  /** No element occurs twice. */
  predicate Distinct<T(==)>(s: seq<T>) {
    forall i, j :: 0 <= i < j < |s| ==> s[i] != s[j]
  }

  /** Appending fresh, distinct elements keeps a list free of duplicates. */
  lemma DistinctAppend<T>(s: seq<T>, t: seq<T>)
    requires Distinct(s) && Distinct(t)
    requires forall x :: x in t ==> x !in s
    ensures Distinct(s + t)
  {
    forall i, j | 0 <= i < j < |s + t| ensures (s + t)[i] != (s + t)[j] {
      if i < |s| && j >= |s| {
        assert (s + t)[j] == t[j - |s|];
        assert t[j - |s|] in t;
      }
    }
  }

  /** A list without duplicates inside a finite set is no longer than the set. */
  lemma {:induction false} DistinctBound<T>(s: seq<T>, u: set<T>)
    requires Distinct(s)
    requires forall x :: x in s ==> x in u
    ensures |s| <= |u|
  {
    if s != [] {
      var last := s[|s| - 1];
      var init := s[..|s| - 1];
      assert forall x :: x in init ==> x in u - {last} by {
        forall x | x in init ensures x in u - {last} {
          var k :| 0 <= k < |init| && init[k] == x;
          assert s[k] == x && s[|s| - 1] == last;
        }
      }
      DistinctBound(init, u - {last});
    }
  }

  /** The same bound against a list: a duplicate-free list drawn from `u` is no longer than `u`. */
  lemma DistinctBoundSeq<T>(s: seq<T>, u: seq<T>)
    requires Distinct(s)
    requires forall x :: x in s ==> x in u
    ensures |s| <= |u|
  {
    var us := set x | x in u;
    DistinctBound(s, us);
    SetOfSeqBound(u);
  }

  lemma {:induction false} SetOfSeqBound<T>(u: seq<T>)
    ensures |set x | x in u| <= |u|
  {
    if u != [] {
      var init := u[..|u| - 1];
      SetOfSeqBound(init);
      assert (set x | x in u) == (set x | x in init) + {u[|u| - 1]} by {
        assert u == init + [u[|u| - 1]];
      }
    }
  }

  function Reverse<T>(s: seq<T>): (r: seq<T>)
    ensures |r| == |s|
    ensures forall k :: 0 <= k < |s| ==> r[k] == s[|s| - 1 - k]
  {
    if s == [] then [] else [s[|s| - 1]] + Reverse(s[..|s| - 1])
  }

  lemma ReverseMultiset<T>(s: seq<T>)
    ensures multiset(Reverse(s)) == multiset(s)
  {
    if s != [] {
      ReverseMultiset(s[..|s| - 1]);
      assert s == s[..|s| - 1] + [s[|s| - 1]];
    }
  }

  lemma ReverseReverse<T>(s: seq<T>)
    ensures Reverse(Reverse(s)) == s
  {
  }

  /** Reversing a list that starts with `x` puts `x` last. */
  lemma ReversePrepend<T>(x: T, s: seq<T>)
    ensures Reverse([x] + s) == Reverse(s) + [x]
  {
  }

  /** Python's `s.split(sep)` on a list or a string: the maximal pieces between
      separators, empty pieces included; a separator-free input is one piece. */
  function Split<T(==)>(s: seq<T>, sep: T): (parts: seq<seq<T>>)
    ensures |parts| >= 1
    ensures forall k :: 0 <= k < |parts| ==> sep !in parts[k]
    decreases |s|
  {
    if sep !in s then [s]
    else
      var i := IndexOf(s, sep);
      [s[..i]] + Split(s[i + 1..], sep)
  }

  /** `sep.join(parts)`, the inverse of Split. */
  function Join<T>(parts: seq<seq<T>>, sep: T): seq<T>
    requires |parts| >= 1
  {
    if |parts| == 1 then parts[0] else parts[0] + [sep] + Join(parts[1..], sep)
  }

  lemma {:induction false} JoinSplit<T>(s: seq<T>, sep: T)
    ensures Join(Split(s, sep), sep) == s
    decreases |s|
  {
    if sep in s {
      var i := IndexOf(s, sep);
      var parts := Split(s, sep);
      assert parts == [s[..i]] + Split(s[i + 1..], sep);
      assert parts[1..] == Split(s[i + 1..], sep);
      JoinSplit(s[i + 1..], sep);
      assert Join(parts, sep) == s[..i] + [sep] + s[i + 1..];
      assert s == s[..i] + [sep] + s[i + 1..];
    }
  }

  lemma {:induction false} SplitJoin<T>(parts: seq<seq<T>>, sep: T)
    requires |parts| >= 1
    requires forall k :: 0 <= k < |parts| ==> sep !in parts[k]
    ensures Split(Join(parts, sep), sep) == parts
  {
    if |parts| > 1 {
      var p0, rest := parts[0], parts[1..];
      SplitJoin(rest, sep);
      assert Join(parts, sep) == p0 + [sep] + Join(rest, sep);
      SplitAtFirst(p0, sep, Join(rest, sep));
      assert parts == [p0] + rest;
    }
  }

  /** Splitting at a first separator. */
  lemma SplitAtFirst<T>(a: seq<T>, sep: T, b: seq<T>)
    requires sep !in a
    ensures Split(a + [sep] + b, sep) == [a] + Split(b, sep)
  {
    var s := a + [sep] + b;
    assert s[|a|] == sep && s[..|a|] == a;
    assert IndexOf(s, sep) == |a|;
    assert s[|a| + 1..] == b;
  }

  /** ASCII model of Python's `str.isspace` for one character. */
  predicate IsSpace(c: char) {
    c == ' ' || c == '\t' || c == '\n' || c == '\r' || c == '\U{000B}' || c == '\U{000C}'
    || ('\U{001C}' <= c <= '\U{001F}')
  }

  /** `str.isspace()`: non-empty and every character is white space. */
  predicate IsSpaceString(s: string) {
    |s| > 0 && forall k :: 0 <= k < |s| ==> IsSpace(s[k])
  }

  predicate IsDigit(c: char) { '0' <= c <= '9' }

  predicate IsAlpha(c: char) { ('a' <= c <= 'z') || ('A' <= c <= 'Z') }

  /** ASCII model of `str.isalnum` for one character. */
  predicate IsAlnum(c: char) { IsAlpha(c) || IsDigit(c) }

  /** `str.isdigit()` / `str.isnumeric()` on ASCII text. */
  predicate IsNumeric(s: string) {
    |s| > 0 && forall k :: 0 <= k < |s| ==> IsDigit(s[k])
  }

  /** ASCII model of `str.isidentifier()`. */
  predicate IsIdentifier(s: string) {
    |s| > 0 && (IsAlpha(s[0]) || s[0] == '_')
    && forall k :: 1 <= k < |s| ==> IsAlnum(s[k]) || s[k] == '_'
  }

  /** `str.strip()`: drop white space at both ends. */
  function Strip(s: string): (r: string)
    ensures |r| <= |s|
    ensures r == [] || (!IsSpace(r[0]) && !IsSpace(r[|r| - 1]))
    ensures exists i, j :: 0 <= i <= j <= |s| && r == s[i..j] && StrippedEnds(s, i, j)
    decreases |s|
  {
    if s == [] then
      assert StrippedEnds(s, 0, 0);
      []
    else if IsSpace(s[0]) then
      var r := Strip(s[1..]);
      var i, j :| 0 <= i <= j <= |s[1..]| && r == s[1..][i..j] && StrippedEnds(s[1..], i, j);
      StrippedFront(s, i, j);
      r
    else if IsSpace(s[|s| - 1]) then
      var r := Strip(s[..|s| - 1]);
      var i, j :| 0 <= i <= j <= |s| - 1 && r == s[..|s| - 1][i..j] && StrippedEnds(s[..|s| - 1], i, j);
      StrippedBack(s, i, j);
      r
    else
      assert s == s[0..|s|] && StrippedEnds(s, 0, |s|);
      s
  }

  /** A white-space character in front extends the stripped ends by one. */
  lemma StrippedFront(s: string, i: nat, j: nat)
    requires |s| > 0 && IsSpace(s[0]) && i <= j <= |s| - 1 && StrippedEnds(s[1..], i, j)
    ensures s[1..][i..j] == s[i + 1..j + 1] && StrippedEnds(s, i + 1, j + 1)
  {
    forall k | 0 <= k < i + 1 ensures IsSpace(s[k]) {
      if k > 0 { assert s[k] == s[1..][k - 1]; }
    }
    forall k | j + 1 <= k < |s| ensures IsSpace(s[k]) { assert s[k] == s[1..][k - 1]; }
  }

  /** A white-space character at the back keeps the stripped ends. */
  lemma StrippedBack(s: string, i: nat, j: nat)
    requires |s| > 0 && IsSpace(s[|s| - 1]) && i <= j <= |s| - 1 && StrippedEnds(s[..|s| - 1], i, j)
    ensures s[..|s| - 1][i..j] == s[i..j] && StrippedEnds(s, i, j)
  {
    forall k | 0 <= k < i ensures IsSpace(s[k]) { assert s[k] == s[..|s| - 1][k]; }
    forall k | j <= k < |s| ensures IsSpace(s[k]) {
      if k < |s| - 1 { assert s[k] == s[..|s| - 1][k]; }
    }
  }

  /** Everything of `s` before `i` and from `j` on is white space. */
  predicate StrippedEnds(s: string, i: nat, j: nat)
    requires i <= j <= |s|
  {
    (forall k :: 0 <= k < i ==> IsSpace(s[k])) && (forall k :: j <= k < |s| ==> IsSpace(s[k]))
  }

  function DigitChar(d: nat): (c: char)
    requires d < 10
    ensures IsDigit(c)
  {
    "0123456789"[d]
  }

  /** Python's `str(n)` for a natural number. */
  function NatToString(n: nat): (s: string)
    ensures IsNumeric(s)
    decreases n
  {
    if n < 10 then [DigitChar(n)] else NatToString(n / 10) + [DigitChar(n % 10)]
  }

  lemma {:induction false} NatToStringInjective(n: nat, m: nat)
    requires NatToString(n) == NatToString(m)
    ensures n == m
    decreases n
  {
    var s, t := NatToString(n), NatToString(m);
    if n < 10 && m < 10 {
      assert "0123456789"[n] == s[0] == t[0] == "0123456789"[m];
    } else if n < 10 || m < 10 {
      assert false;
    } else {
      assert s[..|s| - 1] == NatToString(n / 10);
      assert t[..|t| - 1] == NatToString(m / 10);
      NatToStringInjective(n / 10, m / 10);
      assert "0123456789"[n % 10] == s[|s| - 1] == t[|t| - 1] == "0123456789"[m % 10];
    }
  }
}
