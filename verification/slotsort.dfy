/** `classes.sort((a, b) => a.slot - b.slot)`: JavaScript's sort is stable, so
    the result is ordered by slot and classes sharing a slot keep the order in
    which they were collected. */
module SlotSort {

  import opened Extract

  ghost predicate SortedBySlot(s: seq<ClassInfo>) {
    forall i, j :: 0 <= i < j < |s| ==> s[i].slot <= s[j].slot
  }

  /** The classes of `s` in slot `k`, in their order in `s`. */
  function WithSlot(s: seq<ClassInfo>, k: nat): seq<ClassInfo>
  {
    if s == [] then []
    else WithSlot(s[..|s| - 1], k) + (if s[|s| - 1].slot == k then [s[|s| - 1]] else [])
  }

  lemma {:induction false} WithSlotAppend(a: seq<ClassInfo>, b: seq<ClassInfo>, k: nat)
    ensures WithSlot(a + b, k) == WithSlot(a, k) + WithSlot(b, k)
    decreases |b|
  {
    if b == [] {
      assert a + b == a;
    } else {
      var b' := b[..|b| - 1];
      assert (a + b)[..|a + b| - 1] == a + b';
      assert (a + b)[|a + b| - 1] == b[|b| - 1];
      WithSlotAppend(a, b', k);
    }
  }

  /** Where `x` goes in a sorted sequence: after every class whose slot is not
      greater than its own, before every class whose slot is. */
  function InsertPos(s: seq<ClassInfo>, x: ClassInfo): (p: nat)
    requires SortedBySlot(s)
    ensures p <= |s|
    ensures forall i :: 0 <= i < p ==> s[i].slot <= x.slot
    ensures forall i :: p <= i < |s| ==> s[i].slot > x.slot
  {
    if s == [] || s[|s| - 1].slot <= x.slot then |s|
    else InsertPos(s[..|s| - 1], x)
  }

  function Insert(s: seq<ClassInfo>, x: ClassInfo): (r: seq<ClassInfo>)
    requires SortedBySlot(s)
    ensures SortedBySlot(r)
    ensures multiset(r) == multiset(s) + multiset{x}
    ensures |r| == |s| + 1
  {
    var p := InsertPos(s, x);
    assert s == s[..p] + s[p..];
    s[..p] + [x] + s[p..]
  }

  lemma WithSlotSingle(x: ClassInfo, k: nat)
    ensures WithSlot([x], k) == if x.slot == k then [x] else []
  {
    assert [x][..0] == [];
  }

  /** A sequence with no class in slot `k` contributes nothing to it. */
  lemma {:induction false} WithSlotNone(s: seq<ClassInfo>, k: nat)
    requires forall i :: 0 <= i < |s| ==> s[i].slot != k
    ensures WithSlot(s, k) == []
  {
    if s != [] {
      WithSlotNone(s[..|s| - 1], k);
    }
  }

  /** Putting `x` between `lo` and `hi`, where every class of `hi` comes in a
      later slot than `x`, adds `x` at the end of its own slot's classes. */
  lemma InsertBetween(lo: seq<ClassInfo>, x: ClassInfo, hi: seq<ClassInfo>, k: nat)
    requires forall i :: 0 <= i < |hi| ==> hi[i].slot > x.slot
    ensures WithSlot(lo + [x] + hi, k) == WithSlot(lo + hi, k) + (if x.slot == k then [x] else [])
  {
    WithSlotAppend(lo + [x], hi, k);
    WithSlotAppend(lo, [x], k);
    WithSlotAppend(lo, hi, k);
    WithSlotSingle(x, k);
    if x.slot == k {
      WithSlotNone(hi, k);
      assert WithSlot(lo + hi, k) == WithSlot(lo, k) + [];
      assert WithSlot(lo + [x] + hi, k) == WithSlot(lo, k) + [x] + [];
    } else {
      assert WithSlot(lo + [x], k) == WithSlot(lo, k) + [];
    }
  }

  lemma InsertWithSlot(s: seq<ClassInfo>, x: ClassInfo, k: nat)
    requires SortedBySlot(s)
    ensures WithSlot(Insert(s, x), k) == WithSlot(s, k) + (if x.slot == k then [x] else [])
  {
    var p := InsertPos(s, x);
    assert s == s[..p] + s[p..];
    InsertBetween(s[..p], x, s[p..], k);
  }

  /** Insertion sort, taking the classes in collection order. */
  function Sort(s: seq<ClassInfo>): (r: seq<ClassInfo>)
    ensures SortedBySlot(r)
    ensures multiset(r) == multiset(s)
    ensures |r| == |s|
  {
    if s == [] then []
    else
      var prefix := s[..|s| - 1];
      assert s == prefix + [s[|s| - 1]];
      Insert(Sort(prefix), s[|s| - 1])
  }

  /** Stability: for every slot, the sorted classes of that slot are exactly
      the collected classes of that slot, in collection order. Together with
      SortedBySlot and the multiset equality this fixes the result uniquely. */
  lemma {:induction false} SortIsStable(s: seq<ClassInfo>, k: nat)
    ensures WithSlot(Sort(s), k) == WithSlot(s, k)
  {
    if s != [] {
      var prefix := s[..|s| - 1];
      SortIsStable(prefix, k);
      InsertWithSlot(Sort(prefix), s[|s| - 1], k);
    }
  }
}
