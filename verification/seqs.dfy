/** Generic facts about sequences used by every component: the distinct
    elements of a sequence in first-seen order (what a JavaScript `Set` filled
    by repeated `add` yields when read back with `Array.from`), first
    occurrences, and flattening. */
module Seqs {

  /** No element occurs twice. */
  predicate Distinct<T(==)>(s: seq<T>)
  {
    forall i, j :: 0 <= i < j < |s| ==> s[i] != s[j]
  }

  /** The distinct elements of `xs`, each kept at its first occurrence. */
  function Dedup<T(==, !new)>(xs: seq<T>): (d: seq<T>)
    ensures Distinct(d)
    ensures forall x :: x in d <==> x in xs
    ensures |d| <= |xs|
  {
    if xs == [] then []
    else
      var p := Dedup(xs[..|xs| - 1]);
      if xs[|xs| - 1] in p then p else p + [xs[|xs| - 1]]
  }

  /** `a` is a prefix of `b`. */
  predicate IsPrefix<T(==)>(a: seq<T>, b: seq<T>)
  {
    |a| <= |b| && b[..|a|] == a
  }

  /** The position of the first occurrence of `x` in `xs`. */
  function FirstIndex<T(==)>(xs: seq<T>, x: T): (k: nat)
    requires x in xs
    ensures k < |xs| && xs[k] == x
    ensures x !in xs[..k]
  {
    if xs[0] == x then 0 else 1 + FirstIndex(xs[1..], x)
  }

  /** Appending an element moves no first occurrence, and a new element's
      first occurrence is the appended position. */
  lemma FirstIndexAppend<T>(xs: seq<T>, x: T, y: T)
    requires y in xs + [x]
    ensures y in xs ==> FirstIndex(xs + [x], y) == FirstIndex(xs, y)
    ensures y !in xs ==> FirstIndex(xs + [x], y) == |xs|
  {
    var k := FirstIndex(xs + [x], y);
    assert (xs + [x])[..k] == if k <= |xs| then xs[..k] else xs + [x];
    if y in xs {
      var m := FirstIndex(xs, y);
      assert (xs + [x])[..m] == xs[..m];
    }
  }

  /** `Dedup` lists the distinct elements in the order of their first
      occurrence in the input. */
  lemma {:induction false} DedupFirstSeen<T(!new)>(xs: seq<T>)
    ensures forall i, j :: 0 <= i < j < |Dedup(xs)| ==>
              FirstIndex(xs, Dedup(xs)[i]) < FirstIndex(xs, Dedup(xs)[j])
  {
    if xs != [] {
      var p := xs[..|xs| - 1];
      var x := xs[|xs| - 1];
      assert xs == p + [x];
      DedupFirstSeen(p);
      var d := Dedup(xs);
      forall i, j | 0 <= i < j < |d|
        ensures FirstIndex(xs, d[i]) < FirstIndex(xs, d[j])
      {
        FirstIndexAppend(p, x, d[i]);
        FirstIndexAppend(p, x, d[j]);
        if j < |Dedup(p)| {
          assert d[i] == Dedup(p)[i] && d[j] == Dedup(p)[j];
        } else {
          assert d[i] == Dedup(p)[i] && d[i] in p;
        }
      }
    }
  }

  /** `Dedup` of a sequence extended by one element. */
  lemma DedupSnoc<T(!new)>(xs: seq<T>, x: T)
    ensures Dedup(xs + [x]) == if x in xs then Dedup(xs) else Dedup(xs) + [x]
  {
    assert (xs + [x])[..|xs + [x]| - 1] == xs;
  }

  /** The elements of `xs` that are neither in `seen` nor earlier in `xs`,
      in order: what a `Set` already holding `seen` adds from `xs`. */
  function DedupAfter<T(==)>(seen: seq<T>, xs: seq<T>): seq<T>
  {
    if xs == [] then []
    else
      var p, x := xs[..|xs| - 1], xs[|xs| - 1];
      DedupAfter(seen, p) + (if x in seen || x in p then [] else [x])
  }

  /** `DedupAfter` of a sequence extended by one element. */
  lemma DedupAfterSnoc<T>(seen: seq<T>, p: seq<T>, x: T)
    ensures DedupAfter(seen, p + [x]) ==
              DedupAfter(seen, p) + (if x in seen || x in p then [] else [x])
  {
    assert (p + [x])[..|p|] == p;
  }

  /** Deduplicating a concatenation: the first part's distinct elements, then
      the second part's elements not seen before. */
  lemma {:induction false} DedupConcat<T(!new)>(s: seq<T>, t: seq<T>)
    ensures Dedup(s + t) == Dedup(s) + DedupAfter(s, t)
  {
    if t == [] {
      assert s + t == s;
    } else {
      var p, x := t[..|t| - 1], t[|t| - 1];
      AsSnoc(t);
      Assoc(s, p, [x]);
      DedupConcat(s, p);
      DedupSnoc(s + p, x);
      DedupAfterSnoc(s, p, x);
      var a, b := Dedup(s), DedupAfter(s, p);
      var c := if x in s || x in p then [] else [x];
      assert x in s + p <==> x in s || x in p;
      Assoc(a, b, c);
    }
  }

  /** A non-empty sequence is its prefix followed by its last element. */
  lemma AsSnoc<T>(t: seq<T>)
    requires t != []
    ensures t == t[..|t| - 1] + [t[|t| - 1]]
  {
  }

  /** A sequence with one more element, split back into its parts. */
  lemma OfSnoc<T>(s: seq<T>, x: T)
    ensures (s + [x])[..|s|] == s && (s + [x])[|s|] == x
  {
  }

  /** The prefix of length `j + 1` is the prefix of length `j` and `s[j]`. */
  lemma PrefixSnoc<T>(s: seq<T>, j: nat)
    requires j < |s|
    ensures s[..j + 1] == s[..j] + [s[j]]
    ensures s[..j + 1][..j] == s[..j]
  {
  }

  /** An element of a prefix is the element at the same place. */
  lemma PrefixIndex<T>(a: seq<T>, b: seq<T>, k: nat)
    requires IsPrefix(a, b) && k < |a|
    ensures b[k] == a[k]
  {
    assert b[..|a|][k] == b[k];
  }

  /** Indexing into `a + [x] + b` past `a`. */
  lemma Concat3Index<T>(a: seq<T>, x: T, b: seq<T>, j: nat)
    ensures (a + [x] + b)[|a|] == x
    ensures j < |b| ==> (a + [x] + b)[|a| + 1 + j] == b[j]
  {
  }

  /** Concatenation is associative. */
  lemma Assoc<T>(a: seq<T>, b: seq<T>, c: seq<T>)
    ensures (a + b) + c == a + (b + c)
  {
  }

  /** An empty piece drops out of a concatenation. */
  lemma AppendEmpty<T>(a: seq<T>, b: seq<T>)
    ensures a + [] + b == a + b
    ensures a + b + [] == a + b
    ensures a + [] == a
  {
  }

  /** Concatenation of a sequence of sequences (JavaScript's `flat`). */
  function Flatten<T>(ss: seq<seq<T>>): (r: seq<T>)
    ensures |ss| == 1 ==> r == ss[0]
  {
    if ss == [] then [] else Flatten(ss[..|ss| - 1]) + ss[|ss| - 1]
  }

  /** Every element of a flattened sequence comes from one of the parts, and
      every element of a part is in the flattened sequence. */
  lemma {:induction false} FlattenMembership<T(!new)>(ss: seq<seq<T>>, x: T)
    ensures x in Flatten(ss) <==> exists i :: 0 <= i < |ss| && x in ss[i]
  {
    if ss != [] {
      var p := ss[..|ss| - 1];
      FlattenMembership(p, x);
      if x in Flatten(ss) && x !in Flatten(p) {
        assert x in ss[|ss| - 1];
      }
      if exists i :: 0 <= i < |ss| && x in ss[i] {
        var i :| 0 <= i < |ss| && x in ss[i];
        if i < |p| {
          assert p[i] == ss[i];
        }
      }
    }
  }
}
