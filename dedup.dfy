// Deduplication tables of the level compiler.
//
// Every table in the compiler that turns a stream of values into "unique
// entries plus an id per value" follows one scheme: a vector of the entries
// seen so far and a hash map from entry to its position in that vector.  The
// texture palette, the texture-group layouts, the vertex list and the visible
// sets all use it.  `Distinct` is the specification of the vector (entries in
// order of first occurrence), `IndexOf` the specification of the id.

module Dedup {

  /** No value occurs twice in `s`. */
  ghost predicate NoDuplicates<T>(s: seq<T>) {
    forall i, j :: 0 <= i < j < |s| ==> s[i] != s[j]
  }

  /** The values of `s`, each once, in order of first occurrence. */
  function Distinct<T(==,!new)>(s: seq<T>): (r: seq<T>)
    ensures NoDuplicates(r)
    ensures |r| <= |s|
    decreases |s|
  {
    if s == [] then []
    else
      var d := Distinct(s[..|s| - 1]);
      if s[|s| - 1] in d then d else d + [s[|s| - 1]]
  }

  /** The table holds exactly the values of the input. */
  lemma {:induction false} DistinctMembers<T(!new)>(s: seq<T>, x: T)
    ensures x in Distinct(s) <==> x in s
    decreases |s|
  {
    if s != [] {
      var p := s[..|s| - 1];
      DistinctMembers(p, x);
      assert s == p + [s[|s| - 1]];
    }
  }

  /** A repeated value makes the table shorter than the input. */
  lemma {:induction false} DistinctRepeat<T(!new)>(s: seq<T>, i: nat, j: nat)
    requires i < j < |s| && s[i] == s[j]
    ensures |Distinct(s)| < |s|
    decreases |s|
  {
    var p := s[..|s| - 1];
    assert s == p + [s[|s| - 1]];
    DistinctSnoc(p, s[|s| - 1]);
    if j < |s| - 1 {
      DistinctRepeat(p, i, j);
    } else {
      assert p[i] == s[j];
      DistinctMembers(p, s[j]);
    }
  }

  /** Position of `x` in `s` (the first one). */
  function IndexOf<T(==)>(s: seq<T>, x: T): (i: nat)
    requires x in s
    ensures i < |s| && s[i] == x
    ensures forall j :: 0 <= j < i ==> s[j] != x
  {
    if s[0] == x then 0 else 1 + IndexOf(s[1..], x)
  }

  /** Appending a value to the input appends it to the table iff it is new. */
  lemma DistinctSnoc<T(!new)>(s: seq<T>, x: T)
    ensures Distinct(s + [x]) == if x in Distinct(s) then Distinct(s) else Distinct(s) + [x]
  {
    assert (s + [x])[..|s + [x]| - 1] == s;
  }

  /** In a table without duplicates the position of an entry is unique. */
  lemma IndexOfUnique<T>(s: seq<T>, i: nat)
    requires NoDuplicates(s) && i < |s|
    ensures IndexOf(s, s[i]) == i
  {
  }

  /** The first position holding `x` is its position. */
  lemma IndexOfIs<T>(s: seq<T>, x: T, j: nat)
    requires j < |s| && s[j] == x
    requires forall k :: 0 <= k < j ==> s[k] != x
    ensures IndexOf(s, x) == j
  {
  }

  /** A value already in `a` keeps its position when `a` is extended. */
  lemma {:induction false} IndexOfAppend<T>(a: seq<T>, b: seq<T>, x: T)
    requires x in a
    ensures IndexOf(a + b, x) == IndexOf(a, x)
  {
    if a[0] != x {
      assert (a + b)[1..] == a[1..] + b;
      IndexOfAppend(a[1..], b, x);
    }
  }

  /**
   * The first-occurrence numbering of `s`: each value is replaced by its
   * position in the table `Distinct(s)`.
   */
  function Numbering<T(==,!new)>(s: seq<T>): (r: seq<nat>)
    ensures |r| == |s|
    ensures forall i :: 0 <= i < |s| ==> r[i] < |Distinct(s)| && Distinct(s)[r[i]] == s[i]
  {
    seq(|s|, i requires 0 <= i < |s| => DistinctMembers(s, s[i]); IndexOf(Distinct(s), s[i]))
  }

  /** Appending a value leaves the earlier numbers alone. */
  lemma NumberingPrefix<T(!new)>(s: seq<T>, x: T, i: nat)
    requires i < |s|
    ensures Numbering(s + [x])[i] == Numbering(s)[i]
  {
    DistinctSnoc(s, x);
    var d := Distinct(s);
    var tail := if x in d then [] else [x];
    assert Distinct(s + [x]) == d + tail;
    DistinctMembers(s, s[i]);
    IndexOfAppend(d, tail, s[i]);
    assert (s + [x])[i] == s[i];
  }

  /** The appended value gets its earlier number, or the next free one. */
  lemma NumberingLast<T(!new)>(s: seq<T>, x: T)
    ensures Numbering(s + [x])[|s|] == if x in Distinct(s) then IndexOf(Distinct(s), x) else |Distinct(s)|
  {
    DistinctSnoc(s, x);
    var d := Distinct(s);
    assert (s + [x])[|s|] == x;
    if x !in d {
      IndexOfIs(d + [x], x, |d|);
    }
  }

  /** Appending a value appends its number and leaves the earlier numbers alone. */
  lemma NumberingSnoc<T(!new)>(s: seq<T>, x: T)
    ensures Numbering(s + [x]) == Numbering(s) + [if x in Distinct(s) then IndexOf(Distinct(s), x) else |Distinct(s)|]
  {
    forall i | 0 <= i < |s| ensures Numbering(s + [x])[i] == Numbering(s)[i] {
      NumberingPrefix(s, x, i);
    }
    NumberingLast(s, x);
  }

  /** Two sequences with the same equalities between positions. */
  ghost predicate SamePattern<T, U>(s: seq<T>, t: seq<U>) {
    && |s| == |t|
    && forall i, j :: 0 <= i < |s| && 0 <= j < |s| ==> (s[i] == s[j] <==> t[i] == t[j])
  }

  /** With equal patterns, the last value is new on one side iff it is new on the other. */
  lemma PatternNew<T, U>(s: seq<T>, x: T, t: seq<U>, y: U)
    requires SamePattern(s + [x], t + [y])
    ensures x in s <==> y in t
  {
    var n := |s|;
    assert forall i :: 0 <= i < n ==> (s + [x])[i] == s[i] && (t + [y])[i] == t[i];
    assert (s + [x])[n] == x && (t + [y])[n] == y;
    if x in s {
      var i :| 0 <= i < n && s[i] == x;
      assert t[i] == y;
    }
    if y in t {
      var i :| 0 <= i < n && t[i] == y;
      assert s[i] == x;
    }
  }

  /** A repeated value is numbered like its earlier occurrence `i`, on both sides. */
  lemma PatternRepeat<T(!new), U(!new)>(s: seq<T>, x: T, t: seq<U>, y: U, i: nat)
    requires i < |s| == |t| && s[i] == x && t[i] == y
    requires Numbering(s) == Numbering(t)
    ensures x in Distinct(s) && y in Distinct(t)
    ensures IndexOf(Distinct(s), x) == IndexOf(Distinct(t), y)
  {
    DistinctMembers(s, x);
    DistinctMembers(t, y);
    assert Numbering(s)[i] == IndexOf(Distinct(s), x);
    assert Numbering(t)[i] == IndexOf(Distinct(t), y);
  }

  /** One step of `PatternNumbering`: extending both sides by one position. */
  lemma PatternStep<T(!new), U(!new)>(s: seq<T>, x: T, t: seq<U>, y: U)
    requires SamePattern(s + [x], t + [y])
    requires Numbering(s) == Numbering(t) && |Distinct(s)| == |Distinct(t)|
    ensures Numbering(s + [x]) == Numbering(t + [y])
    ensures |Distinct(s + [x])| == |Distinct(t + [y])|
  {
    PatternNew(s, x, t, y);
    NumberingSnoc(s, x);
    NumberingSnoc(t, y);
    DistinctSnoc(s, x);
    DistinctSnoc(t, y);
    DistinctMembers(s, x);
    DistinctMembers(t, y);
    if x in s {
      var i :| 0 <= i < |s| && s[i] == x;
      assert (s + [x])[i] == x && (s + [x])[|s|] == x;
      assert (t + [y])[i] == t[i] && (t + [y])[|s|] == y;
      PatternRepeat(s, x, t, y, i);
    }
  }

  /**
   * The numbering only depends on which positions hold equal values: two
   * sequences with the same pattern are numbered alike.
   */
  lemma {:induction false} PatternNumbering<T(!new), U(!new)>(s: seq<T>, t: seq<U>)
    requires SamePattern(s, t)
    ensures Numbering(s) == Numbering(t)
    ensures |Distinct(s)| == |Distinct(t)|
    decreases |s|
  {
    if s != [] {
      var n := |s| - 1;
      var s', t' := s[..n], t[..n];
      assert s == s' + [s[n]] && t == t' + [t[n]];
      assert SamePattern(s', t');
      PatternNumbering(s', t');
      PatternStep(s', s[n], t', t[n]);
    }
  }

  /** The numbering is its own numbering: numbers are already in first-occurrence order. */
  lemma NumberingNumbering<T(!new)>(s: seq<T>)
    ensures Numbering(Numbering(s)) == Numbering(s)
  {
    var r := Numbering(s);
    assert SamePattern(s, r) by {
      forall i, j | 0 <= i < |s| && 0 <= j < |s| ensures s[i] == s[j] <==> r[i] == r[j] {
        if r[i] == r[j] {
          assert s[i] == Distinct(s)[r[i]];
        }
      }
    }
    PatternNumbering(s, r);
  }

  /**
   * The interning table: the entries in first-occurrence order and a map from
   * entry to its id.  `Intern` is the "look up, and if absent append and
   * record the new id" sequence the compiler writes out at every use.
   */
  class InternTable<T(==,!new)> {
    var entries: seq<T>
    var ids: map<T, nat>

    ghost predicate Valid()
      reads this
    {
      && NoDuplicates(entries)
      && (forall x :: x in ids <==> x in entries)
      && (forall x :: x in ids ==> ids[x] < |entries| && entries[ids[x]] == x)
    }

    constructor ()
      ensures Valid() && entries == [] && ids == map[]
    {
      entries := [];
      ids := map[];
    }

    /** Id of `x`, appending `x` when it has not been seen. */
    method Intern(x: T) returns (id: nat)
      requires Valid()
      modifies this
      ensures Valid()
      ensures entries == if x in old(entries) then old(entries) else old(entries) + [x]
      ensures id < |entries| && entries[id] == x
      ensures x in old(entries) ==> id == old(ids)[x]
      ensures x !in old(entries) ==> id == |old(entries)|
    {
      if x in ids {
        id := ids[x];
      } else {
        id := |entries|;
        entries := entries + [x];
        ids := ids[x := id];
      }
    }

    /** Whether `x` has been interned, without changing the table. */
    method Contains(x: T) returns (b: bool)
      requires Valid()
      ensures b <==> x in entries
    {
      b := x in ids;
    }
  }
}
