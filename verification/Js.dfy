/** The few JavaScript and lodash notions the modelled code leans on. */
module Js {

  datatype Option<+T> = None | Some(value: T)

  /** The outcome of code that may throw. */
  datatype Result<+T> = Ok(value: T) | Thrown(error: string)

  /** A value of type `string | null | undefined`. */
  datatype Text = Undefined | Null | Str(s: string)

  /** JavaScript truthiness: neither undefined, nor null, nor the empty string. */
  predicate Truthy(t: Text) {
    t.Str? && t.s != ""
  }

  function LowerChar(c: char): char {
    if 'A' <= c <= 'Z' then (c as int + 32) as char else c
  }

  /** `toLowerCase` on ASCII text. */
  function Lower(s: string): string {
    seq(|s|, i requires 0 <= i < |s| => LowerChar(s[i]))
  }

  function LowerAll(xs: seq<string>): seq<string> {
    seq(|xs|, i requires 0 <= i < |xs| => Lower(xs[i]))
  }

  function Min(a: int, b: int): int {
    if a <= b then a else b
  }

  function Max(a: int, b: int): int {
    if a <= b then b else a
  }

  function Flatten<T>(xss: seq<seq<T>>): seq<T> {
    if xss == [] then [] else xss[0] + Flatten(xss[1..])
  }

  lemma {:induction false} FlattenAppend<T>(xss: seq<seq<T>>, xs: seq<T>)
    ensures Flatten(xss + [xs]) == Flatten(xss) + xs
  {
    if xss == [] {
      assert xss + [xs] == [xs];
      assert Flatten([xs]) == xs + Flatten([]);
    } else {
      assert (xss + [xs])[1..] == xss[1..] + [xs];
      FlattenAppend(xss[1..], xs);
    }
  }

  /** An element is in a flattened sequence exactly when it is in one of the parts. */
  lemma {:induction false} InFlatten<T>(xss: seq<seq<T>>, x: T)
    ensures x in Flatten(xss) <==> exists k :: 0 <= k < |xss| && x in xss[k]
  {
    if xss != [] {
      InFlatten(xss[1..], x);
      if x in Flatten(xss[1..]) {
        var k :| 0 <= k < |xss[1..]| && x in xss[1..][k];
        assert x in xss[k + 1];
      }
      forall k | 0 <= k < |xss| && x in xss[k] ensures x in Flatten(xss) {
        if k > 0 {
          assert xss[1..][k - 1] == xss[k];
        }
      }
    }
  }

  function Filter<T>(s: seq<T>, keep: T -> bool): seq<T> {
    if s == [] then []
    else (if keep(s[0]) then [s[0]] else []) + Filter(s[1..], keep)
  }

  /** `filter` keeps exactly the elements that pass. */
  lemma {:induction false} InFilter<T>(s: seq<T>, keep: T -> bool, x: T)
    ensures x in Filter(s, keep) <==> x in s && keep(x)
  {
    if s != [] {
      InFilter(s[1..], keep, x);
      assert s == [s[0]] + s[1..];
    }
  }

  lemma {:induction false} FilterEmpty<T>(s: seq<T>, keep: T -> bool)
    ensures Filter(s, keep) == [] <==> forall x :: x in s ==> !keep(x)
  {
    if s != [] {
      FilterEmpty(s[1..], keep);
      assert s == [s[0]] + s[1..];
    }
  }

  lemma {:induction false} FilterConcat<T>(a: seq<T>, b: seq<T>, keep: T -> bool)
    ensures Filter(a + b, keep) == Filter(a, keep) + Filter(b, keep)
  {
    if a == [] {
      assert a + b == b;
    } else {
      var head, rest := if keep(a[0]) then [a[0]] else [], a[1..];
      assert (a + b)[0] == a[0] && (a + b)[1..] == rest + b;
      FilterConcat(rest, b, keep);
      var x, y := Filter(rest, keep), Filter(b, keep);
      assert head + (x + y) == (head + x) + y;
    }
  }

  /** lodash `uniqBy`: the first element of every key, in order. */
  function UniqBy<T, K(==)>(s: seq<T>, key: T -> K): seq<T> {
    if s == [] then []
    else
      var rest := UniqBy(s[..|s| - 1], key);
      var x := s[|s| - 1];
      if exists i :: 0 <= i < |rest| && key(rest[i]) == key(x) then rest else rest + [x]
  }

  ghost predicate DistinctKeys<T, K>(s: seq<T>, key: T -> K) {
    forall i, j :: 0 <= i < j < |s| ==> key(s[i]) != key(s[j])
  }

  /** `UniqBy` keeps only elements of its input. */
  lemma {:induction false} UniqByOnlyKeeps<T, K>(s: seq<T>, key: T -> K, x: T)
    requires x in UniqBy(s, key)
    ensures x in s
  {
    var front := s[..|s| - 1];
    assert s == front + [s[|s| - 1]];
    if x in UniqBy(front, key) {
      UniqByOnlyKeeps(front, key, x);
    }
  }

  /** `UniqBy` keeps an element for every key that occurs. */
  lemma {:induction false} UniqByRepresents<T, K>(s: seq<T>, key: T -> K, x: T) returns (y: T)
    requires x in s
    ensures y in UniqBy(s, key) && key(y) == key(x)
  {
    var front, last := s[..|s| - 1], s[|s| - 1];
    assert s == front + [last];
    var rest := UniqBy(front, key);
    if x in front {
      y := UniqByRepresents(front, key, x);
      assert UniqBy(s, key) == rest || UniqBy(s, key) == rest + [last];
    } else if i :| 0 <= i < |rest| && key(rest[i]) == key(last) {
      y := rest[i];
    } else {
      y := last;
      assert UniqBy(s, key)[|rest|] == last;
    }
  }

  /** `UniqBy` keeps no key twice. */
  lemma {:induction false} UniqByDistinct<T, K>(s: seq<T>, key: T -> K)
    ensures DistinctKeys(UniqBy(s, key), key)
  {
    if s != [] {
      UniqByDistinct(s[..|s| - 1], key);
    }
  }

  /** The positions of `s` whose key has not occurred before, ascending. */
  function FirstOccurrences<T, K(==)>(s: seq<T>, key: T -> K): seq<nat> {
    if s == [] then []
    else
      var rest := FirstOccurrences(s[..|s| - 1], key);
      if exists j :: 0 <= j < |s| - 1 && key(s[j]) == key(s[|s| - 1]) then rest else rest + [|s| - 1]
  }

  lemma {:induction false} FirstOccurrencesAscend<T, K>(s: seq<T>, key: T -> K)
    ensures forall k :: 0 <= k < |FirstOccurrences(s, key)| ==> FirstOccurrences(s, key)[k] < |s|
    ensures forall k, l :: 0 <= k < l < |FirstOccurrences(s, key)| ==>
              FirstOccurrences(s, key)[k] < FirstOccurrences(s, key)[l]
  {
    if s != [] {
      FirstOccurrencesAscend(s[..|s| - 1], key);
    }
  }

  /** The key of the last element is new exactly when `UniqBy` has not kept it yet. */
  lemma LastKeyIsNew<T, K>(s: seq<T>, key: T -> K)
    requires s != []
    ensures var rest := UniqBy(s[..|s| - 1], key);
            (exists i :: 0 <= i < |rest| && key(rest[i]) == key(s[|s| - 1])) <==>
            (exists j :: 0 <= j < |s| - 1 && key(s[j]) == key(s[|s| - 1]))
  {
    var front, x := s[..|s| - 1], s[|s| - 1];
    var rest := UniqBy(front, key);
    if j :| 0 <= j < |s| - 1 && key(s[j]) == key(x) {
      assert front[j] in front;
      var y := UniqByRepresents(front, key, front[j]);
      var i :| 0 <= i < |rest| && rest[i] == y;
    }
    if i :| 0 <= i < |rest| && key(rest[i]) == key(x) {
      UniqByOnlyKeeps(front, key, rest[i]);
      var j :| 0 <= j < |front| && front[j] == rest[i];
      assert s[j] == rest[i];
    }
  }

  /** `UniqBy` returns the first occurrences themselves, in their original order. */
  lemma {:induction false} UniqByKeepsFirsts<T, K>(s: seq<T>, key: T -> K)
    ensures |UniqBy(s, key)| == |FirstOccurrences(s, key)|
    ensures forall k :: 0 <= k < |UniqBy(s, key)| ==>
              FirstOccurrences(s, key)[k] < |s| && UniqBy(s, key)[k] == s[FirstOccurrences(s, key)[k]]
  {
    if s != [] {
      LastKeyIsNew(s, key);
      UniqByKeepsFirsts(s[..|s| - 1], key);
    }
  }
}
