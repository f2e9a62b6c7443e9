/** The runtime's text index: an open-addressed table keyed by text content, grown at three
    quarters load. */
module TextIndex {
  import opened Probing
  import IndexSpec

  /** What a text handle stands for: nothing, or the bytes it points at. */
  datatype Key = Null | Chars(bytes: seq<bv8>)

  /** The immutable text memory that handles point into. */
  type Texts = nat -> seq<bv8>

  function Content(texts: Texts, handle: nat): Key {
    if handle == 0 then Null else Chars(texts(handle))
  }

  function View(texts: Texts): nat -> Key {
    (h: nat) => Content(texts, h)
  }

  const UINT64_MAX: nat := 0xFFFF_FFFF_FFFF_FFFF
  const ENTRY_SIZE: nat := 24

  // ---- Hashing and comparing handles ---------------------------------------------------------

  function FnvStep(h: bv32, b: bv8): bv32 {
    (h ^ (b as bv32)) * 16777619
  }

  function Fnv(bytes: seq<bv8>): bv32 {
    if bytes == [] then 2166136261 else FnvStep(Fnv(bytes[..|bytes| - 1]), bytes[|bytes| - 1])
  }

  /** The published values for the empty string, "a" and "foobar"; the length is mixed in after. */
  lemma FnvVectors()
    ensures Fnv([]) == 0x811c9dc5 && Fnv([97]) == 0xe40c292c && Fnv([102, 111, 111, 98, 97, 114]) == 0xbf9cf968
    ensures KeyHash(Null) == 0 && KeyHash(Chars([])) == 0x811c9dc5 && KeyHash(Chars([97])) == 0xe40c292d
  {
    FnvSnoc([], 97);
    assert [] + [97] == [97 as bv8];
    Foobar();
  }

  lemma Foobar()
    ensures Fnv([102, 111, 111, 98, 97, 114]) == 0xbf9cf968
  {
    FnvSnoc([], 102);
    assert [] + [102] == [102 as bv8];
    FnvSnoc([102], 111);
    assert [102] + [111] == [102 as bv8, 111];
    FnvSnoc([102, 111], 111);
    assert [102, 111] + [111] == [102 as bv8, 111, 111];
    FnvSnoc([102, 111, 111], 98);
    assert [102, 111, 111] + [98] == [102 as bv8, 111, 111, 98];
    FnvSnoc([102, 111, 111, 98], 97);
    assert [102, 111, 111, 98] + [97] == [102 as bv8, 111, 111, 98, 97];
    FnvSnoc([102, 111, 111, 98, 97], 114);
    assert [102, 111, 111, 98, 97] + [114] == [102 as bv8, 111, 111, 98, 97, 114];
  }

  lemma FnvSnoc(bytes: seq<bv8>, b: bv8)
    ensures Fnv(bytes + [b]) == FnvStep(Fnv(bytes), b)
  {
    assert (bytes + [b])[..|bytes|] == bytes;
  }

  function KeyHash(k: Key): nat {
    match k
    case Null => 0
    case Chars(bytes) => Finish(Fnv(bytes), |bytes|)
  }

  /** The length is mixed in last. */
  function Finish(h: bv32, len: nat): nat {
    (h ^ ((len % 0x1_0000_0000) as bv32)) as nat
  }

  /** The hash depends on the content alone, so content-equal handles hash alike. */
  method HashHandle(texts: Texts, key: nat) returns (hash: nat)
    ensures hash == KeyHash(Content(texts, key))
  {
    if key == 0 {
      return 0;
    }
    var bytes := texts(key);
    var h: bv32 := 2166136261;
    for i := 0 to |bytes|
      invariant h == Fnv(bytes[..i])
    {
      assert bytes[..i + 1][..i] == bytes[..i];
      h := FnvStep(h, bytes[i]);
    }
    assert bytes[..|bytes|] == bytes;
    hash := Finish(h, |bytes|);
  }

  predicate HandleEq(texts: Texts, left: nat, right: nat)
    ensures HandleEq(texts, left, right) <==> Content(texts, left) == Content(texts, right)
  {
    if left == right then true
    else if left == 0 || right == 0 then false
    else if |texts(left)| != |texts(right)| then false
    else if |texts(left)| == 0 then true
    else texts(left) == texts(right)
  }

  // ---- Capacity ------------------------------------------------------------------------------

  /** The load limit, computed without forming three times the capacity. */
  function Threshold(cap: nat): nat {
    cap / 4 * 3 + cap % 4 * 3 / 4
  }

  lemma ThresholdIsThreeQuarters(cap: nat)
    ensures Threshold(cap) == 3 * cap / 4
  {
  }

  /** Doubling makes room for another entry, and a table within the limit is never full. */
  lemma ThresholdGrows(cap: nat)
    requires cap >= 4
    ensures Threshold(cap) < Threshold(2 * cap) && Threshold(cap) < cap
  {
  }

  // ---- The index --------------------------------------------------------------------------------

  class Index {
    var len: nat
    var cap: nat
    var entries: array<Cell>
    const texts: Texts

    ghost predicate Valid()
      reads this, entries
    {
      && cap == entries.Length && cap >= 4
      && Wf(entries[..], View(texts), KeyHash)
      && len == Load(entries[..]) && len <= Threshold(cap)
    }

    /** The map from text content to value that the index stands for. */
    ghost function Map(): map<Key, int>
      requires Valid()
      reads this, entries
    {
      Abs(entries[..], View(texts))
    }

    constructor (texts: Texts)
      ensures Valid() && Map() == map[] && this.texts == texts && fresh(entries)
    {
      this.texts := texts;
      len, cap := 0, 64;
      entries := new Cell[64](_ => Empty);
      new;
      LoadEmpty(entries[..]);
    }

    /** Makes room for one more entry.  It fails only when the table has to grow and cannot. */
    method EnsureCapacity(allocates: bool) returns (ready: bool)
      requires Valid()
      modifies this
      ensures Valid() && Map() == old(Map()) && len == old(len)
      ensures entries == old(entries) || fresh(entries)
      ensures ready ==> len < Threshold(cap)
      ensures !ready ==> entries == old(entries) && entries[..] == old(entries[..]) && cap == old(cap)
      ensures ready <==> len < Threshold(old(cap)) || (2 * old(cap) <= UINT64_MAX / ENTRY_SIZE && allocates)
      ensures ready ==> cap == if len < Threshold(old(cap)) then old(cap) else 2 * old(cap)
    {
      if len < Threshold(cap) {
        return true;
      }
      if cap > UINT64_MAX / 2 || cap * 2 > UINT64_MAX / ENTRY_SIZE || !allocates {
        return false;
      }
      ThresholdGrows(cap);
      var b := Rehash(entries, cap * 2, View(texts), KeyHash);
      entries := b;
      cap := cap * 2;
      ready := true;
    }

    /** The slot of a key, or the free slot that ends its probe.  The probe never comes back to its
        start, because the table always has a free slot. */
    method FindEntry(key: nat, hash: nat) returns (idx: nat, found: bool)
      requires Valid() && hash == KeyHash(Content(texts, key))
      ensures idx < cap
      ensures found ==> entries[idx].Full? && Content(texts, entries[idx].key) == Content(texts, key)
      ensures !found ==> entries[idx].Empty? && Probed(entries[..], View(texts), hash % cap, idx, Content(texts, key))
      ensures found <==> Content(texts, key) in Map()
      ensures found ==> Map()[Content(texts, key)] == entries[idx].value
    {
      ghost var t, view, k := entries[..], View(texts), Content(texts, key);
      ThresholdGrows(cap);
      ghost var free := HasEmpty(t);
      idx := hash % cap;
      var start := idx;
      while entries[idx].Full?
        invariant idx < cap && Probed(t, view, start, idx, k)
        decreases Distance(start, idx, cap)
      {
        assert t[idx] == entries[idx];
        if entries[idx].hash == hash && HandleEq(texts, entries[idx].key, key) {
          return idx, true;
        }
        ghost var seen := idx;
        idx := Next(idx, cap);
        if idx == start {
          ProbeAround(t, view, start, seen, k);
          assert false;
        }
        ProbeStep(t, view, start, seen, k);
      }
      found := false;
      AbsentAtEmpty(t, view, KeyHash, idx, k);
    }

    /** Writes an entry to the slot that `FindEntry` gave for its key. */
    method Write(idx: nat, c: Cell, found: bool)
      requires Valid() && idx < cap && c.Full? && c.hash == KeyHash(Content(texts, c.key))
      requires found ==> entries[idx].Full? && Content(texts, entries[idx].key) == Content(texts, c.key)
      requires !found ==> entries[idx].Empty? && len < Threshold(cap)
      requires !found ==> Probed(entries[..], View(texts), c.hash % cap, idx, Content(texts, c.key))
      modifies this`len, entries
      ensures Valid() && Map() == old(Map())[Content(texts, c.key) := c.value]
    {
      ghost var t := entries[..];
      if found {
        UpdateAt(t, View(texts), KeyHash, idx, c);
      } else {
        InsertAt(t, View(texts), KeyHash, idx, c);
        len := len + 1;
      }
      entries[idx] := c;
      assert entries[..] == t[idx := c];
    }

    /** Binds a key; a failed growth leaves the map as it was. */
    method Set(key: nat, value: int, allocates: bool) returns (ok: bool)
      requires Valid()
      modifies this, entries
      ensures Valid() && (entries == old(entries) || fresh(entries))
      ensures ok ==> Map() == old(Map())[Content(texts, key) := value]
      ensures !ok ==> Map() == old(Map()) && len == old(len) && cap == old(cap)
      ensures ok <==> old(len) < Threshold(old(cap)) || (2 * old(cap) <= UINT64_MAX / ENTRY_SIZE && allocates)
    {
      ok := EnsureCapacity(allocates);
      if ok {
        Bind(key, value);
      }
    }

    method Bind(key: nat, value: int)
      requires Valid() && len < Threshold(cap)
      modifies this`len, entries
      ensures Valid() && Map() == old(Map())[Content(texts, key) := value]
    {
      var hash := HashHandle(texts, key);
      var idx, found := FindEntry(key, hash);
      Write(idx, Full(key, hash, value), found);
    }

    method Get(key: nat) returns (value: int)
      requires Valid()
      ensures value == if Content(texts, key) in Map() then Map()[Content(texts, key)] else -1
    {
      var hash := HashHandle(texts, key);
      var idx, found := FindEntry(key, hash);
      value := if found then entries[idx].value else -1;
    }

    method Contains(key: nat) returns (r: bool)
      requires Valid()
      ensures r <==> Content(texts, key) in Map()
    {
      var hash := HashHandle(texts, key);
      var _, found := FindEntry(key, hash);
      r := found;
    }

    /** The bound value, or `next` bound to the key; -1 when the table cannot grow. */
    method GetOrInsert(key: nat, next: int, allocates: bool) returns (value: int)
      requires Valid()
      modifies this, entries
      ensures Valid() && (entries == old(entries) || fresh(entries))
      ensures var k := Content(texts, key);
              if old(len) >= Threshold(old(cap)) && !(2 * old(cap) <= UINT64_MAX / ENTRY_SIZE && allocates)
              then value == -1 && Map() == old(Map()) && len == old(len) && cap == old(cap)
              else if k in old(Map()) then value == old(Map())[k] && Map() == old(Map())
              else value == next && Map() == old(Map())[k := next]
    {
      var ready := EnsureCapacity(allocates);
      if !ready {
        return -1;
      }
      var hash := HashHandle(texts, key);
      var idx, found := FindEntry(key, hash);
      if found {
        return entries[idx].value;
      }
      Write(idx, Full(key, hash, next), false);
      value := next;
    }

    /** A whole run, with an answer of the allocator for every call: up to the first call whose
        growth fails, the answers and the contents are those of a map keyed by text content. */
    method Run(ops: seq<IndexSpec.Op>, allocates: seq<bool>) returns (answers: seq<int>, done: nat)
      requires Valid() && |allocates| == |ops|
      modifies this, entries
      ensures Valid() && done <= |ops|
      ensures Map() == IndexSpec.After(old(Map()), View(texts), ops[..done])
      ensures answers == IndexSpec.Answers(old(Map()), View(texts), ops[..done], -1)
      ensures done < |ops| ==> (ops[done].Set? || ops[done].GetOrInsert?) && !CanGrow(allocates[done])
    {
      ghost var m := Map();
      answers, done := [], 0;
      while done < |ops|
        invariant Valid() && done <= |ops| && (entries == old(entries) || fresh(entries))
        invariant Map() == IndexSpec.After(m, View(texts), ops[..done])
        invariant answers == IndexSpec.Answers(m, View(texts), ops[..done], -1)
      {
        IndexSpec.OneMore(m, View(texts), ops, done, -1);
        var answer, ok := RunOne(ops[done], allocates[done]);
        if !ok { return; }
        answers := answers + [answer];
        done := done + 1;
      }
    }

    /** The table has room, or can be doubled. */
    ghost predicate CanGrow(allocates: bool)
      reads this
    {
      len < Threshold(cap) || (2 * cap <= UINT64_MAX / ENTRY_SIZE && allocates)
    }

    method RunOne(op: IndexSpec.Op, allocates: bool) returns (answer: int, ok: bool)
      requires Valid()
      modifies this, entries
      ensures Valid() && (entries == old(entries) || fresh(entries))
      ensures !ok ==> Map() == old(Map()) && !CanGrow(allocates)
      ensures ok <==> op.Get? || op.Contains? || old(CanGrow(allocates))
      ensures ok ==> Map() == IndexSpec.Step(old(Map()), View(texts), op)
      ensures ok ==> answer == IndexSpec.Answer(old(Map()), View(texts), op, -1)
    {
      answer, ok := 1, true;
      assert View(texts)(op.key) == Content(texts, op.key);
      match op
      case Set(key, value) =>
        ok := Set(key, value, allocates);
      case Get(key) =>
        answer := Get(key);
      case Contains(key) =>
        var r := Contains(key);
        answer := if r then 1 else 0;
      case GetOrInsert(key, value) =>
        answer, ok := TryInsert(key, value, allocates);
    }

    method TryInsert(key: nat, value: int, allocates: bool) returns (answer: int, ok: bool)
      requires Valid()
      modifies this, entries
      ensures Valid() && (entries == old(entries) || fresh(entries))
      ensures !ok ==> Map() == old(Map()) && !CanGrow(allocates)
      ensures ok <==> old(CanGrow(allocates))
      ensures ok ==> var k := Content(texts, key);
                     if k in old(Map()) then answer == old(Map())[k] && Map() == old(Map())
                     else answer == value && Map() == old(Map())[k := value]
    {
      ok := len < Threshold(cap) || (2 * cap <= UINT64_MAX / ENTRY_SIZE && allocates);
      answer := GetOrInsert(key, value, allocates);
    }
  }
}
