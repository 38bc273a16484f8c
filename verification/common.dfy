/**
 Small vocabulary shared by the rest of the model: nullable values, the
 string operations of .NET that the services call (ordinal `Contains`,
 `ToLower`, case-insensitive `Equals`, `IsNullOrEmpty`), and LINQ's
 `Skip`/`Take` paging.
 */
module Common {

  /** A value that may be null in the source. */
  datatype Option<+T> = None | Some(value: T)

  /** A non-empty set of ids has an element to pick. */
  lemma NonEmptyHasElement(s: set<int>)
    requires s != {}
    ensures exists x :: x in s
  {
    if forall x :: x !in s {
      assert false;
    }
  }

  /** A non-empty set of strings has an element to pick. */
  lemma NonEmptyHasString(s: set<string>)
    requires s != {}
    ensures exists x :: x in s
  {
    if forall x :: x !in s {
      assert false;
    }
  }

  /** `IsNullOrEmpty` on a nullable string. */
  predicate IsNullOrEmpty(s: Option<string>) {
    s.None? || s.value == ""
  }

  /** `needle` sits in `s` starting at index `i`. */
  predicate OccursAt(s: string, needle: string, i: int) {
    0 <= i && i + |needle| <= |s| && s[i..i + |needle|] == needle
  }

  /** Ordinal `String.Contains`: some window of `s` equals `needle`. */
  predicate Contains(s: string, needle: string) {
    exists i :: 0 <= i <= |s| && OccursAt(s, needle, i)
  }

  lemma ContainsItself(s: string)
    ensures Contains(s, s)
  {
    assert OccursAt(s, s, 0);
  }

  /**
   Ordinal `String.Replace`: scanning left to right, each occurrence of
   `pattern` becomes `replacement`; occurrences do not overlap.
   */
  function Replace(s: string, pattern: string, replacement: string): string
    requires pattern != ""
    decreases |s|
  {
    if |s| == 0 then ""
    else if OccursAt(s, pattern, 0) then replacement + Replace(s[|pattern|..], pattern, replacement)
    else [s[0]] + Replace(s[1..], pattern, replacement)
  }

  /** A string with no occurrence of the pattern comes back unchanged. */
  lemma {:induction false} ReplaceWithoutOccurrence(s: string, pattern: string, replacement: string)
    requires pattern != ""
    requires !Contains(s, pattern)
    ensures Replace(s, pattern, replacement) == s
    decreases |s|
  {
    if |s| != 0 {
      assert !OccursAt(s, pattern, 0);
      assert !Contains(s[1..], pattern) by {
        if Contains(s[1..], pattern) {
          var i :| 0 <= i <= |s[1..]| && OccursAt(s[1..], pattern, i);
          assert s[i + 1..i + 1 + |pattern|] == s[1..][i..i + |pattern|];
          assert OccursAt(s, pattern, i + 1);
        }
      }
      ReplaceWithoutOccurrence(s[1..], pattern, replacement);
      assert [s[0]] + s[1..] == s;
    }
  }

  /**
   The first occurrence is replaced: when no occurrence starts inside `prefix`,
   `prefix + pattern + rest` becomes `prefix + replacement` followed by the
   replaced rest.
   */
  lemma {:induction false} ReplaceFirst(prefix: string, pattern: string, rest: string, replacement: string)
    requires pattern != ""
    requires forall i :: 0 <= i < |prefix| ==> !OccursAt(prefix + pattern + rest, pattern, i)
    ensures Replace(prefix + pattern + rest, pattern, replacement)
            == prefix + replacement + Replace(rest, pattern, replacement)
    decreases |prefix|
  {
    var s := prefix + pattern + rest;
    if |prefix| == 0 {
      assert s == pattern + rest;
      assert OccursAt(s, pattern, 0);
      assert s[|pattern|..] == rest;
    } else {
      assert !OccursAt(s, pattern, 0);
      var tail := prefix[1..];
      assert s[1..] == tail + pattern + rest;
      forall i | 0 <= i < |tail|
        ensures !OccursAt(tail + pattern + rest, pattern, i)
      {
        assert !OccursAt(s, pattern, i + 1);
      }
      ReplaceFirst(tail, pattern, rest, replacement);
      assert [prefix[0]] + tail == prefix;
    }
  }

  /** Culture-aware lower-casing of one character, modelled on ASCII letters only. */
  function LowerChar(c: char): char {
    if 'A' <= c <= 'Z' then (c as int + 32) as char else c
  }

  /**
   Culture-aware `ToLower`, modelled on ASCII: the result has no upper-case
   ASCII letter, each upper-case letter moves to its lower-case partner, and
   every other character stays where it was.
   */
  function Lower(s: string): (r: string)
    ensures |r| == |s|
    ensures forall i :: 0 <= i < |r| ==> !('A' <= r[i] <= 'Z')
    ensures forall i :: 0 <= i < |s| && 'A' <= s[i] <= 'Z' ==> r[i] as int == s[i] as int + 32
    ensures forall i :: 0 <= i < |s| && !('A' <= s[i] <= 'Z') ==> r[i] == s[i]
  {
    seq(|s|, i requires 0 <= i < |s| => LowerChar(s[i]))
  }

  /** Lower-casing twice is lower-casing once. */
  lemma LowerIdempotent(s: string)
    ensures Lower(Lower(s)) == Lower(s)
  {
  }

  /** Case-insensitive `String.Equals`. */
  predicate EqualsIgnoreCase(a: string, b: string) {
    Lower(a) == Lower(b)
  }

  /** The `AndAlso` combinator of the query-expression helpers: both predicates hold. */
  function AndAlso<T(!new)>(f: T -> bool, g: T -> bool): (h: T -> bool)
    ensures forall x :: h(x) <==> f(x) && g(x)
  {
    x => f(x) && g(x)
  }

  /** LINQ `Skip(n)`: drops the first `n` elements; a count of zero or less drops nothing. */
  function Skip<T>(s: seq<T>, n: int): (r: seq<T>)
    ensures n <= 0 ==> r == s
    ensures 0 < n <= |s| ==> r == s[n..]
    ensures |s| <= n ==> r == []
  {
    if n <= 0 then s else if n >= |s| then [] else s[n..]
  }

  /** LINQ `Take(n)`: keeps at most the first `n` elements; a count of zero or less keeps none. */
  function Take<T>(s: seq<T>, n: int): (r: seq<T>)
    ensures n <= 0 ==> r == []
    ensures 0 < n <= |s| ==> r == s[..n]
    ensures |s| <= n ==> r == s
  {
    if n <= 0 then [] else if n >= |s| then s else s[..n]
  }

  /** One page of `s`: `Skip((pageIndex - 1) * pageSize).Take(pageSize)`. */
  function Page<T>(s: seq<T>, pageIndex: int, pageSize: int): (r: seq<T>)
    ensures |r| <= |s|
    ensures pageSize <= 0 ==> r == []
    ensures 0 < pageSize ==> |r| <= pageSize
    ensures var start := Clamp((pageIndex - 1) * pageSize, |s|);
            start + |r| <= |s| && r == s[start..start + |r|]
    ensures var start := Clamp((pageIndex - 1) * pageSize, |s|);
            0 < pageSize && start + pageSize <= |s| ==> |r| == pageSize
    ensures var start := Clamp((pageIndex - 1) * pageSize, |s|);
            0 < pageSize && |s| < start + pageSize ==> r == s[start..]
  {
    Take(Skip(s, (pageIndex - 1) * pageSize), pageSize)
  }

  /** `n` brought into the range `0..len`. */
  function Clamp(n: int, len: nat): (r: nat)
    ensures r <= len
    ensures 0 <= n <= len ==> r == n
  {
    if n <= 0 then 0 else if n >= len then len else n
  }
}
