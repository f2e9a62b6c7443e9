/** Open addressing with linear probing, independent of what a key is: `view` says which keys
    two handles stand for, and `hash` is a function of the key. */
module Probing {
  datatype Cell = Empty | Full(key: nat, hash: nat, value: int)

  type Table = seq<Cell>

  /** `k` lies on the cyclic way from `start` up to, but not including, `i`. */
  predicate OnWay(start: nat, k: nat, i: nat) {
    if start <= i then start <= k < i else k >= start || k < i
  }

  /** The slot after `i`, as computed with a remainder. */
  function Next(i: nat, cap: nat): (r: nat)
    requires i < cap
    ensures r < cap && r == if i + 1 == cap then 0 else i + 1
  {
    (i + 1) % cap
  }

  /** Every slot on the way from a key's home to where it is stored is taken. */
  ghost predicate Reachable(t: Table) {
    forall i, k :: 0 <= i < |t| && t[i].Full? && 0 <= k < |t| && OnWay(t[i].hash % |t|, k, i) ==> t[k].Full?
  }

  ghost predicate Unique<K(!new)>(t: Table, view: nat -> K) {
    forall i, j :: 0 <= i < j < |t| && t[i].Full? && t[j].Full? ==> view(t[i].key) != view(t[j].key)
  }

  ghost predicate Hashed<K(!new)>(t: Table, view: nat -> K, hash: K -> nat) {
    forall i :: 0 <= i < |t| && t[i].Full? ==> t[i].hash == hash(view(t[i].key))
  }

  ghost predicate Wf<K(!new)>(t: Table, view: nat -> K, hash: K -> nat) {
    |t| > 0 && Reachable(t) && Unique(t, view) && Hashed(t, view, hash)
  }

  /** The map that the table stands for. */
  ghost function Abs<K(!new)>(t: Table, view: nat -> K): (r: map<K, int>)
    requires Unique(t, view)
    ensures forall i :: 0 <= i < |t| && t[i].Full? ==> view(t[i].key) in r && r[view(t[i].key)] == t[i].value
    ensures forall k :: k in r ==> exists i :: 0 <= i < |t| && t[i].Full? && view(t[i].key) == k
  {
    map i | 0 <= i < |t| && t[i].Full? :: view(t[i].key) := t[i].value
  }

  /** How many slots are taken. */
  function Load(t: Table): (n: nat)
    ensures n <= |t|
  {
    if t == [] then 0 else Load(t[..|t| - 1]) + (if t[|t| - 1].Full? then 1 else 0)
  }

  lemma {:induction false} LoadUpdate(t: Table, i: nat, c: Cell)
    requires i < |t|
    ensures Load(t[i := c]) == Load(t) - (if t[i].Full? then 1 else 0) + (if c.Full? then 1 else 0)
  {
    var n := |t| - 1;
    if i == n {
      assert t[i := c][..n] == t[..n];
    } else {
      assert t[i := c][..n] == t[..n][i := c];
      LoadUpdate(t[..n], i, c);
    }
  }

  lemma {:induction false} LoadEmpty(t: Table)
    requires forall i :: 0 <= i < |t| ==> t[i].Empty?
    ensures Load(t) == 0
  {
    if t != [] { LoadEmpty(t[..|t| - 1]); }
  }

  /** A table that is not full has an empty slot. */
  lemma {:induction false} HasEmpty(t: Table) returns (i: nat)
    requires Load(t) < |t|
    ensures i < |t| && t[i].Empty?
  {
    var n := |t| - 1;
    if t[n].Empty? { i := n; } else { i := HasEmpty(t[..n]); }
  }

  // ---- Probing --------------------------------------------------------------------------------

  /** A probe for `key` has come to `idx` without meeting it or an empty slot. */
  ghost predicate Probed<K(!new)>(t: Table, view: nat -> K, start: nat, idx: nat, key: K) {
    forall k :: 0 <= k < |t| && OnWay(start, k, idx) ==> t[k].Full? && view(t[k].key) != key
  }

  /** Going one slot further. */
  lemma ProbeStep<K(!new)>(t: Table, view: nat -> K, start: nat, idx: nat, key: K)
    requires start < |t| && idx < |t| && Probed(t, view, start, idx, key)
    requires t[idx].Full? && view(t[idx].key) != key && Next(idx, |t|) != start
    ensures Probed(t, view, start, Next(idx, |t|), key)
  {
  }

  /** A probe that comes back to its start has seen every slot. */
  lemma ProbeAround<K(!new)>(t: Table, view: nat -> K, start: nat, idx: nat, key: K)
    requires start < |t| && idx < |t| && Probed(t, view, start, idx, key)
    requires t[idx].Full? && view(t[idx].key) != key && Next(idx, |t|) == start
    ensures forall k :: 0 <= k < |t| ==> t[k].Full? && view(t[k].key) != key
  {
  }

  /** A probe that ends at an empty slot proves the key absent. */
  lemma AbsentAtEmpty<K(!new)>(t: Table, view: nat -> K, hash: K -> nat, idx: nat, key: K)
    requires Wf(t, view, hash) && idx < |t| && t[idx].Empty? && Probed(t, view, hash(key) % |t|, idx, key)
    ensures key !in Abs(t, view)
  {
    var start := hash(key) % |t|;
    forall j | 0 <= j < |t| && t[j].Full? ensures view(t[j].key) != key {
      assert OnWay(start, j, idx) || OnWay(start, idx, j);
      assert !OnWay(start, j, idx) ==> t[j].hash % |t| != start;
    }
  }

  /** Storing an absent key at the end of its probe. */
  lemma InsertAt<K(!new)>(t: Table, view: nat -> K, hash: K -> nat, idx: nat, c: Cell)
    requires Wf(t, view, hash) && idx < |t| && t[idx].Empty? && c.Full? && c.hash == hash(view(c.key))
    requires Probed(t, view, c.hash % |t|, idx, view(c.key))
    ensures var u := t[idx := c];
            && Wf(u, view, hash) && Load(u) == Load(t) + 1
            && view(c.key) !in Abs(t, view) && Abs(u, view) == Abs(t, view)[view(c.key) := c.value]
  {
    var u := t[idx := c];
    AbsentAtEmpty(t, view, hash, idx, view(c.key));
    LoadUpdate(t, idx, c);
    assert Unique(u, view) by {
      forall i, j | 0 <= i < j < |u| && u[i].Full? && u[j].Full? ensures view(u[i].key) != view(u[j].key) {
        if i == idx { assert view(t[j].key) in Abs(t, view); }
        if j == idx { assert view(t[i].key) in Abs(t, view); }
      }
    }
    AbsAfter(t, u, view, idx, c);
  }

  /** Rewriting the slot of a present key. */
  lemma UpdateAt<K(!new)>(t: Table, view: nat -> K, hash: K -> nat, idx: nat, c: Cell)
    requires Wf(t, view, hash) && idx < |t| && t[idx].Full? && c.Full? && c.hash == t[idx].hash
    requires view(c.key) == view(t[idx].key)
    ensures var u := t[idx := c];
            Wf(u, view, hash) && Load(u) == Load(t) && Abs(u, view) == Abs(t, view)[view(c.key) := c.value]
  {
    var u := t[idx := c];
    LoadUpdate(t, idx, c);
    UpdateKeeps(t, view, hash, idx, c);
    AbsAfter(t, u, view, idx, c);
  }

  lemma UpdateKeeps<K(!new)>(t: Table, view: nat -> K, hash: K -> nat, idx: nat, c: Cell)
    requires Wf(t, view, hash) && idx < |t| && t[idx].Full? && c.Full? && c.hash == t[idx].hash
    requires view(c.key) == view(t[idx].key)
    ensures Wf(t[idx := c], view, hash)
  {
    var u := t[idx := c];
    assert forall i :: 0 <= i < |t| ==> u[i].Full? == t[i].Full?;
    assert forall i :: 0 <= i < |t| && t[i].Full? ==> u[i].hash == t[i].hash && view(u[i].key) == view(t[i].key);
  }

  lemma AbsAfter<K(!new)>(t: Table, u: Table, view: nat -> K, idx: nat, c: Cell)
    requires Unique(t, view) && Unique(u, view) && idx < |t| && u == t[idx := c] && c.Full?
    requires t[idx].Full? ==> view(t[idx].key) == view(c.key)
    ensures Abs(u, view) == Abs(t, view)[view(c.key) := c.value]
  {
    var a, b := Abs(t, view), Abs(u, view);
    var m := a[view(c.key) := c.value];
    forall k | k in b ensures k in m && m[k] == b[k] {
      var i :| 0 <= i < |u| && u[i].Full? && view(u[i].key) == k;
      SlotOf(t, u, view, idx, c, i);
    }
    forall k | k in m ensures k in b {
      if k in a {
        var i :| 0 <= i < |t| && t[i].Full? && view(t[i].key) == k;
        assert i != idx ==> u[i] == t[i];
      }
      assert u[idx] == c;
    }
  }

  lemma SlotOf<K(!new)>(t: Table, u: Table, view: nat -> K, idx: nat, c: Cell, i: nat)
    requires Unique(t, view) && Unique(u, view) && idx < |t| && u == t[idx := c] && c.Full?
    requires i < |u| && u[i].Full?
    ensures var m := Abs(t, view)[view(c.key) := c.value];
            view(u[i].key) in m && m[view(u[i].key)] == u[i].value
  {
    if i != idx {
      assert u[i] == t[i] && u[idx] == c;
    }
  }

  // ---- Tables in place -------------------------------------------------------------------------

  function Distance(start: nat, idx: nat, cap: nat): int {
    if idx >= start then cap - (idx - start) else start - idx
  }

  /** Stores an entry whose key is absent in the first free slot of its probe sequence. */
  method Place<K(!new)>(a: array<Cell>, c: Cell, ghost view: nat -> K, ghost hash: K -> nat)
    requires Wf(a[..], view, hash) && Load(a[..]) < a.Length
    requires c.Full? && c.hash == hash(view(c.key)) && view(c.key) !in Abs(a[..], view)
    modifies a
    ensures Wf(a[..], view, hash) && Load(a[..]) == old(Load(a[..])) + 1
    ensures Abs(a[..], view) == old(Abs(a[..], view))[view(c.key) := c.value]
  {
    var cap := a.Length;
    ghost var t := a[..];
    ghost var free := HasEmpty(t);
    var idx: nat := c.hash % cap;
    ghost var start := idx;
    assert forall i :: 0 <= i < |t| && t[i].Full? ==> view(t[i].key) != view(c.key);
    while a[idx].Full?
      invariant idx < cap && a[..] == t && Probed(t, view, start, idx, view(c.key))
      decreases Distance(start, idx, cap)
    {
      assert t[idx] == a[idx];
      ghost var seen := idx;
      idx := Next(idx, cap);
      if idx == start {
        ProbeAround(t, view, start, seen, view(c.key));
        assert false;
      }
      ProbeStep(t, view, start, seen, view(c.key));
    }
    InsertAt(t, view, hash, idx, c);
    a[idx] := c;
    assert a[..] == t[idx := c];
  }

  /** A fresh table with the contents of an old one. */
  method Rehash<K(!new)>(a: array<Cell>, newCap: nat, ghost view: nat -> K,
                         ghost hash: K -> nat) returns (b: array<Cell>)
    requires Wf(a[..], view, hash) && newCap > a.Length
    ensures fresh(b) && b.Length == newCap
    ensures Wf(b[..], view, hash) && Load(b[..]) == Load(a[..]) && Abs(b[..], view) == Abs(a[..], view)
  {
    b := new Cell[newCap](_ => Empty);
    LoadEmpty(b[..]);
    assert a[..0] == [];
    for i := 0 to a.Length
      invariant Wf(b[..], view, hash)
      invariant Unique(a[..i], view) && Abs(b[..], view) == Abs(a[..i], view)
      invariant Load(b[..]) == Load(a[..i])
      invariant fresh(b) && a[..] == old(a[..])
    {
      assert a[..i + 1][..i] == a[..i] && a[..i + 1][i] == a[i];
      PrefixUnique(a[..], view, i + 1);
      if a[i].Full? {
        PrefixAbs(a[..i + 1], view);
        Place(b, a[i], view, hash);
      } else {
        PrefixSkip(a[..i + 1], view);
      }
    }
    assert a[..a.Length] == a[..];
  }

  lemma PrefixUnique<K(!new)>(t: Table, view: nat -> K, n: nat)
    requires Unique(t, view) && n <= |t|
    ensures Unique(t[..n], view)
  {
  }

  /** Dropping the last entry removes its key. */
  lemma PrefixAbs<K(!new)>(t: Table, view: nat -> K)
    requires |t| > 0 && Unique(t, view) && t[|t| - 1].Full?
    ensures var n := |t| - 1;
            && Unique(t[..n], view) && view(t[n].key) !in Abs(t[..n], view)
            && Abs(t, view) == Abs(t[..n], view)[view(t[n].key) := t[n].value]
  {
    var n := |t| - 1;
    var s := t[..n];
    var u := s + [Empty];
    assert t == u[n := t[n]];
    assert u[..n] == s;
    PrefixUnique(t, view, n);
    PrefixSkip(u, view);
    AbsAfter(u, t, view, n, t[n]);
  }

  /** The load is the number of keys. */
  lemma {:induction false} LoadIsSize<K(!new)>(t: Table, view: nat -> K)
    requires Unique(t, view)
    ensures |Abs(t, view)| == Load(t)
  {
    if t != [] {
      var n := |t| - 1;
      PrefixUnique(t, view, n);
      LoadIsSize(t[..n], view);
      if t[n].Full? { PrefixAbs(t, view); } else { PrefixSkip(t, view); }
    }
  }

  lemma PrefixSkip<K(!new)>(t: Table, view: nat -> K)
    requires |t| > 0 && Unique(t, view) && t[|t| - 1].Empty?
    ensures Unique(t[..|t| - 1], view) && Abs(t, view) == Abs(t[..|t| - 1], view)
  {
    PrefixUnique(t, view, |t| - 1);
    var a, b := Abs(t[..|t| - 1], view), Abs(t, view);
    forall k | k in b ensures k in a && a[k] == b[k] {
      PrefixKeyKept(t, view, k);
    }
    forall k | k in a ensures k in b {
      PrefixKey(t, view, |t| - 1, k);
    }
  }

  lemma PrefixKeyKept<K(!new)>(t: Table, view: nat -> K, k: K)
    requires |t| > 0 && Unique(t, view) && t[|t| - 1].Empty? && Unique(t[..|t| - 1], view) && k in Abs(t, view)
    ensures k in Abs(t[..|t| - 1], view) && Abs(t[..|t| - 1], view)[k] == Abs(t, view)[k]
  {
    var i :| 0 <= i < |t| && t[i].Full? && view(t[i].key) == k;
    PrefixEntry(t, view, |t| - 1, i);
  }

  lemma PrefixEntry<K(!new)>(t: Table, view: nat -> K, n: nat, i: nat)
    requires Unique(t, view) && i < n <= |t| && Unique(t[..n], view) && t[i].Full?
    ensures view(t[i].key) in Abs(t[..n], view) && Abs(t[..n], view)[view(t[i].key)] == t[i].value
  {
    var s := t[..n];
    assert s[i] == t[i];
  }

  lemma PrefixKey<K(!new)>(t: Table, view: nat -> K, n: nat, k: K)
    requires Unique(t, view) && n <= |t| && Unique(t[..n], view) && k in Abs(t[..n], view)
    ensures k in Abs(t, view)
  {
    var s := t[..n];
    var i :| 0 <= i < |s| && s[i].Full? && view(s[i].key) == k;
    assert t[i] == s[i];
  }
}
