/**
 * The few iterator and `str` operations of Rust's standard library that the
 * core relies on: `iter().find`, `filter(..).collect()`, `str::split_once`,
 * `str::starts_with` and `str::trim_start_matches`.
 */
module Sequences {
  import opened Wrappers

  /** The position `iter().position(p)` finds: the first element satisfying `p`. */
  function FirstIndex<T>(s: seq<T>, p: T -> bool): (r: Option<nat>)
    ensures r.Some? ==> r.value < |s| && p(s[r.value])
    ensures r.Some? ==> forall j :: 0 <= j < r.value ==> !p(s[j])
    ensures r.None? <==> forall j :: 0 <= j < |s| ==> !p(s[j])
  {
    if s == [] then None
    else if p(s[0]) then Some(0)
    else match FirstIndex(s[1..], p)
      case None => None
      case Some(i) => Some(i + 1)
  }

  /** `iter().find(p).cloned()`: the first element satisfying `p`, if any. */
  function Find<T>(s: seq<T>, p: T -> bool): (r: Option<T>)
    ensures r.Some? ==> r.value in s && p(r.value)
    ensures r.Some? ==> exists i :: 0 <= i < |s| && s[i] == r.value && forall j :: 0 <= j < i ==> !p(s[j])
    ensures r.None? <==> forall i :: 0 <= i < |s| ==> !p(s[i])
  {
    match FirstIndex(s, p)
    case None => None
    case Some(i) => Some(s[i])
  }

  /** `into_iter().filter(p).collect()`: the elements satisfying `p`, in order. */
  function Filter<T>(s: seq<T>, p: T -> bool): (r: seq<T>)
    ensures |r| <= |s|
    ensures forall i :: 0 <= i < |r| ==> r[i] in s && p(r[i])
    ensures forall i :: 0 <= i < |s| && p(s[i]) ==> s[i] in r
  {
    if s == [] then []
    else if p(s[0]) then [s[0]] + Filter(s[1..], p)
    else Filter(s[1..], p)
  }

  /** Filtering keeps the order: it distributes over concatenation. */
  lemma {:induction false} FilterAppend<T>(a: seq<T>, b: seq<T>, p: T -> bool)
    ensures Filter(a + b, p) == Filter(a, p) + Filter(b, p)
  {
    if a == [] {
      assert a + b == b;
    } else {
      assert (a + b)[0] == a[0];
      assert (a + b)[1..] == a[1..] + b;
      FilterAppend(a[1..], b, p);
    }
  }

  /** What one filter keeps and its complement keeps together make up the whole. */
  lemma {:induction false} FilterPartition<T>(s: seq<T>, p: T -> bool, q: T -> bool)
    requires forall x :: q(x) == !p(x)
    ensures |Filter(s, p)| + |Filter(s, q)| == |s|
    ensures multiset(Filter(s, p)) + multiset(Filter(s, q)) == multiset(s)
  {
    if s != [] {
      FilterPartition(s[1..], p, q);
      assert s == [s[0]] + s[1..];
    }
  }

  /** `str::split_once(c)`: the text before the first `c` and the text after it. */
  function SplitOnce(s: string, c: char): (r: Option<(string, string)>)
    ensures r.None? <==> c !in s
    ensures r.Some? ==> s == r.value.0 + [c] + r.value.1 && c !in r.value.0
  {
    match FirstIndex(s, x => x == c)
    case None => None
    case Some(i) => Some((s[..i], s[i + 1..]))
  }

  /** Joining with a separator that the first part does not contain is undone by `split_once`. */
  lemma SplitOnceJoin(a: string, c: char, b: string)
    requires c !in a
    ensures SplitOnce(a + [c] + b, c) == Some((a, b))
  {
    var s := a + [c] + b;
    assert s[|a|] == c;
    var r := SplitOnce(s, c);
    assert r.Some?;
    assert s[..|a|] == a;
    assert s[|a| + 1..] == b;
  }

  predicate StartsWith(s: string, prefix: string) {
    |prefix| <= |s| && s[..|prefix|] == prefix
  }

  /** `str::trim_start_matches(prefix)`: strips the prefix as many times as it repeats. */
  function TrimStartMatches(s: string, prefix: string): (r: string)
    requires prefix != []
    ensures !StartsWith(r, prefix)
    decreases |s|
  {
    if StartsWith(s, prefix) then TrimStartMatches(s[|prefix|..], prefix) else s
  }

  /** What `trim_start_matches` leaves is a suffix of the text it started from. */
  lemma {:induction false} TrimIsSuffix(s: string, prefix: string)
    requires prefix != []
    ensures var r := TrimStartMatches(s, prefix); |r| <= |s| && r == s[|s| - |r|..]
    decreases |s|
  {
    if StartsWith(s, prefix) {
      var rest := s[|prefix|..];
      TrimIsSuffix(rest, prefix);
      var r := TrimStartMatches(rest, prefix);
      assert rest[|rest| - |r|..] == s[|s| - |r|..];
    }
  }

  lemma ConcatAssociative<T>(a: seq<T>, b: seq<T>, c: seq<T>)
    ensures (a + b) + c == a + (b + c)
  {
  }

  /** `n` copies of `s`, one after another. */
  function Repeat<T>(s: seq<T>, n: nat): seq<T> {
    if n == 0 then [] else s + Repeat(s, n - 1)
  }

  /** One copy of the prefix in front is stripped, and trimming goes on from there. */
  lemma TrimOnce(prefix: string, rest: string)
    requires prefix != []
    ensures TrimStartMatches(prefix + rest, prefix) == TrimStartMatches(rest, prefix)
  {
    var text := prefix + rest;
    assert text[..|prefix|] == prefix;
    assert text[|prefix|..] == rest;
  }

  /** With no copy of the prefix in front, nothing is stripped. */
  lemma TrimNone(prefix: string, rest: string)
    requires prefix != [] && !StartsWith(rest, prefix)
    ensures TrimStartMatches(Repeat(prefix, 0) + rest, prefix) == rest
  {
    assert Repeat(prefix, 0) + rest == rest;
  }

  /** Stripping the first of `n` copies of the prefix leaves `n - 1` of them to strip. */
  lemma TrimRepeatedStep(prefix: string, n: nat, rest: string)
    requires prefix != [] && n > 0
    ensures TrimStartMatches(Repeat(prefix, n) + rest, prefix) == TrimStartMatches(Repeat(prefix, n - 1) + rest, prefix)
  {
    var r := Repeat(prefix, n - 1);
    ConcatAssociative(prefix, r, rest);
    TrimOnce(prefix, r + rest);
  }

  /** Any number of copies of the prefix in front of a text that does not start with it are all stripped. */
  lemma {:induction false} TrimRepeated(prefix: string, n: nat, rest: string)
    requires prefix != [] && !StartsWith(rest, prefix)
    ensures TrimStartMatches(Repeat(prefix, n) + rest, prefix) == rest
  {
    if n == 0 {
      TrimNone(prefix, rest);
    } else {
      TrimRepeatedStep(prefix, n, rest);
      TrimRepeated(prefix, n - 1, rest);
    }
  }

  /** How many copies of the prefix `trim_start_matches` strips. */
  function TrimCount(s: string, prefix: string): nat
    requires prefix != []
    decreases |s|
  {
    if StartsWith(s, prefix) then 1 + TrimCount(s[|prefix|..], prefix) else 0
  }

  /** What `trim_start_matches` strips is a whole number of copies of the prefix. */
  lemma {:induction false} TrimDecomposes(s: string, prefix: string)
    requires prefix != []
    ensures s == Repeat(prefix, TrimCount(s, prefix)) + TrimStartMatches(s, prefix)
    decreases |s|
  {
    if StartsWith(s, prefix) {
      var rest := s[|prefix|..];
      var n := TrimCount(rest, prefix);
      var r := TrimStartMatches(rest, prefix);
      TrimDecomposes(rest, prefix);
      assert TrimCount(s, prefix) == n + 1;
      assert TrimStartMatches(s, prefix) == r;
      assert s == prefix + rest by {
        assert s == s[..|prefix|] + s[|prefix|..];
      }
      assert Repeat(prefix, n + 1) == prefix + Repeat(prefix, n);
      calc {
        Repeat(prefix, n + 1) + r;
        (prefix + Repeat(prefix, n)) + r;
        { ConcatAssociative(prefix, Repeat(prefix, n), r); }
        prefix + (Repeat(prefix, n) + r);
        { assert Repeat(prefix, n) + r == rest; }
        prefix + rest;
      }
    } else {
      assert s == Repeat(prefix, 0) + s;
    }
  }
}
