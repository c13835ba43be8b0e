// Shared result types and string helpers.
module Prelude {

  datatype Option<+T> = None | Some(value: T)

  datatype Result<+T, +E> = Ok(value: T) | Err(error: E)

  type byte = b: int | 0 <= b < 256

  type Bytes = seq<byte>

  /** `str.startswith`. */
  predicate StartsWith(s: string, p: string) {
    |p| <= |s| && s[..|p|] == p
  }

  /** The characters of `s` that satisfy `keep`, in order. */
  function Filter(s: string, keep: char -> bool): string {
    if s == [] then []
    else (if keep(s[0]) then [s[0]] else []) + Filter(s[1..], keep)
  }

  lemma {:induction false} FilterConcat(s: string, t: string, keep: char -> bool)
    ensures Filter(s + t, keep) == Filter(s, keep) + Filter(t, keep)
  {
    if s == [] {
      assert s + t == t;
    } else {
      var head := if keep(s[0]) then [s[0]] else [];
      FilterConcat(s[1..], t, keep);
      assert (s + t)[0] == s[0] && (s + t)[1..] == s[1..] + t;
      assert head + (Filter(s[1..], keep) + Filter(t, keep)) == head + Filter(s[1..], keep) + Filter(t, keep);
    }
  }

  function LowerChar(c: char): char {
    if 'A' <= c <= 'Z' then (c as int + 32) as char else c
  }

  /** `str.lower` on ASCII letters. */
  function Lower(s: string): (r: string)
    ensures |r| == |s|
  {
    seq(|s|, i requires 0 <= i < |s| => LowerChar(s[i]))
  }

  /** `str.rfind` of one character. */
  function LastIndex(s: string, c: char): (k: int)
    ensures -1 <= k < |s|
  {
    if s == [] then -1
    else if s[|s| - 1] == c then |s| - 1
    else LastIndex(s[..|s| - 1], c)
  }

  predicate Distinct<T(==)>(s: seq<T>) {
    forall i, j :: 0 <= i < j < |s| ==> s[i] != s[j]
  }

  /** `[x for x in s if keep(x)]`. */
  function Select<T>(s: seq<T>, keep: T -> bool): seq<T> {
    if s == [] then [] else (if keep(s[0]) then [s[0]] else []) + Select(s[1..], keep)
  }

  lemma {:induction false} SelectConcat<T>(s: seq<T>, t: seq<T>, keep: T -> bool)
    ensures Select(s + t, keep) == Select(s, keep) + Select(t, keep)
  {
    if s == [] {
      assert s + t == t;
    } else {
      var head := if keep(s[0]) then [s[0]] else [];
      SelectConcat(s[1..], t, keep);
      assert (s + t)[0] == s[0] && (s + t)[1..] == s[1..] + t;
      assert head + (Select(s[1..], keep) + Select(t, keep)) == head + Select(s[1..], keep) + Select(t, keep);
    }
  }

  lemma {:induction false} SelectCount<T>(s: seq<T>, keep: T -> bool, x: T)
    ensures multiset(Select(s, keep))[x] == if keep(x) then multiset(s)[x] else 0
  {
    if s != [] {
      SelectCount(s[1..], keep, x);
      assert s == [s[0]] + s[1..];
    }
  }

  lemma {:induction false} SelectSame<T>(s: seq<T>, keep: T -> bool, keep': T -> bool)
    requires forall x :: x in s ==> keep(x) == keep'(x)
    ensures Select(s, keep) == Select(s, keep')
  {
    if s != [] { SelectSame(s[1..], keep, keep'); }
  }

  /** `d[key] = value` on a dict given as its entries in insertion order. */
  function Put<T, K(==)>(d: seq<T>, keyOf: T -> K, entry: T): seq<T> {
    if d == [] then [entry]
    else if keyOf(d[0]) == keyOf(entry) then [entry] + d[1..]
    else [d[0]] + Put(d[1..], keyOf, entry)
  }

  lemma {:induction false} PutNew<T, K>(d: seq<T>, keyOf: T -> K, entry: T)
    requires forall i :: 0 <= i < |d| ==> keyOf(d[i]) != keyOf(entry)
    ensures Put(d, keyOf, entry) == d + [entry]
  {
    if d != [] {
      PutNew(d[1..], keyOf, entry);
      assert d == [d[0]] + d[1..];
    }
  }
}
