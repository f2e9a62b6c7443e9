/** The just-in-time runtime's text index: keyed by handle, capacity a power of two, probed for
    at most as many steps as there are slots, and grown when the load exceeds three quarters. */
module JitTextIndex {
  import opened Probing
  import Bits
  import TextIndex
  import IndexSpec

  function LittleEndian(key: nat, count: nat): seq<bv8> {
    if count == 0 then [] else [(key % 256) as bv8] + LittleEndian(key / 256, count - 1)
  }

  function HandleHash(key: nat): nat {
    TextIndex.Fnv(LittleEndian(key, 8)) as nat
  }

  function Handle(): nat -> nat {
    (h: nat) => h
  }

  ghost predicate PowerOfTwo(cap: nat) {
    exists k: nat :: cap == Bits.Pow2(k)
  }

  lemma DoublePower(cap: nat)
    requires PowerOfTwo(cap)
    ensures PowerOfTwo(2 * cap)
  {
    var k: nat :| cap == Bits.Pow2(k);
    assert Bits.Pow2(k + 1) == 2 * cap;
  }

  /** Masking with the capacity less one is the remainder. */
  lemma MaskIsRemainder(h: nat, cap: nat)
    requires PowerOfTwo(cap)
    ensures Bits.BitAnd(h, cap - 1) == h % cap
  {
    var k: nat :| cap == Bits.Pow2(k);
    Bits.MaskRun(h, 0, k);
  }

  class Index {
    var len: nat
    var cap: nat
    var entries: array<Cell>

    /** At most one entry above three quarters, so never full. */
    ghost predicate Valid()
      reads this, entries
    {
      && cap == entries.Length && cap >= 8 && PowerOfTwo(cap)
      && Wf(entries[..], Handle(), HandleHash)
      && len == Load(entries[..]) && 4 * len <= 3 * cap + 4
    }

    ghost function Map(): map<nat, int>
      requires Valid()
      reads this, entries
    {
      Abs(entries[..], Handle())
    }

    constructor ()
      ensures Valid() && Map() == map[] && fresh(entries)
    {
      len, cap := 0, 8;
      entries := new Cell[8](_ => Empty);
      new;
      LoadEmpty(entries[..]);
      assert Bits.Pow2(3) == 8;
    }

    /** A slot number from a hash or from the slot before. */
    method Masked(h: nat) returns (idx: nat)
      requires Valid()
      ensures idx == h % cap
    {
      MaskIsRemainder(h, cap);
      idx := Bits.BitAnd(h, cap - 1);
    }

    /** The slot of a key or the first free slot after its home; one of them turns up before the
        steps run out. */
    method Probe(key: nat) returns (idx: nat, found: bool)
      requires Valid()
      ensures idx < cap
      ensures found ==> entries[idx].Full? && entries[idx].key == key
      ensures !found ==> entries[idx].Empty? && Probed(entries[..], Handle(), HandleHash(key) % cap, idx, key)
      ensures found <==> key in Map()
      ensures found ==> Map()[key] == entries[idx].value
    {
      ghost var t := entries[..];
      ghost var free := HasEmpty(t);
      var h := HandleHash(key);
      idx := Masked(h);
      ghost var start := idx;
      for step := 0 to cap
        invariant idx < cap && Probed(t, Handle(), start, idx, key)
        invariant step == if idx >= start then idx - start else cap - start + idx
      {
        assert t[idx] == entries[idx];
        if entries[idx].Empty? {
          AbsentAtEmpty(t, Handle(), HandleHash, idx, key);
          return idx, false;
        }
        if entries[idx].hash == h && entries[idx].key == key {
          return idx, true;
        }
        ghost var seen := idx;
        idx := Masked(idx + 1);
        assert idx == Next(seen, cap);
        if idx == start {
          ProbeAround(t, Handle(), start, seen, key);
          assert false;
        }
        ProbeStep(t, Handle(), start, seen, key);
      }
      assert false;
    }

    method Grow()
      requires Valid()
      modifies this
      ensures Valid() && Map() == old(Map()) && len == old(len) && cap == 2 * old(cap) && fresh(entries)
    {
      DoublePower(cap);
      var b := Rehash(entries, cap * 2, Handle(), HandleHash);
      entries := b;
      cap := cap * 2;
    }

    method Get(key: nat) returns (value: int)
      requires Valid()
      ensures value == if key in Map() then Map()[key] else 0
    {
      var idx, found := Probe(key);
      value := if found then entries[idx].value else 0;
    }

    method Contains(key: nat) returns (r: bool)
      requires Valid()
      ensures r <==> key in Map()
    {
      var _, found := Probe(key);
      r := found;
    }

    /** Finds a key or a slot to put it in, growing on the way when the load is too high.  After
        one growth the load is low enough, so there is never a second one. */
    method FindOrMakeRoom(key: nat) returns (idx: nat, found: bool, grown: nat)
      requires Valid()
      modifies this
      ensures Valid() && Map() == old(Map()) && len == old(len)
      ensures entries == old(entries) || fresh(entries)
      ensures idx < cap && grown <= 1 && cap == (if grown == 1 then 2 * old(cap) else old(cap))
      ensures grown == 1 <==> key !in Map() && 4 * len > 3 * old(cap)
      ensures found ==> entries[idx].Full? && entries[idx].key == key && Map()[key] == entries[idx].value
      ensures !found ==> entries[idx].Empty? && 4 * len <= 3 * cap
      ensures !found ==> Probed(entries[..], Handle(), HandleHash(key) % cap, idx, key)
      ensures found <==> key in Map()
    {
      grown := 0;
      while true
        invariant Valid() && Map() == old(Map()) && len == old(len)
        invariant entries == old(entries) || fresh(entries)
        invariant grown <= 1 && cap == (if grown == 1 then 2 * old(cap) else old(cap))
        invariant grown == 1 ==> 4 * len <= 3 * cap && key !in Map() && 4 * len > 3 * old(cap)
        decreases 1 - grown
      {
        idx, found := Probe(key);
        if found {
          return;
        }
        if 4 * len > 3 * cap {
          Grow();
          grown := grown + 1;
        } else {
          return;
        }
      }
    }

    method Set(key: nat, value: int)
      requires Valid()
      modifies this, entries
      ensures Valid() && Map() == old(Map())[key := value] && (entries == old(entries) || fresh(entries))
    {
      var idx, found, _ := FindOrMakeRoom(key);
      if found {
        Write(idx, entries[idx].(value := value), true);
      } else {
        Write(idx, Full(key, HandleHash(key), value), false);
      }
    }

    method GetOrInsert(key: nat, default: int) returns (value: int)
      requires Valid()
      modifies this, entries
      ensures Valid() && (entries == old(entries) || fresh(entries))
      ensures if key in old(Map()) then value == old(Map())[key] && Map() == old(Map())
              else value == default && Map() == old(Map())[key := default]
    {
      var idx, found, _ := FindOrMakeRoom(key);
      if found {
        return entries[idx].value;
      }
      Write(idx, Full(key, HandleHash(key), default), false);
      value := default;
    }

    method Write(idx: nat, c: Cell, found: bool)
      requires Valid() && idx < cap && c.Full? && c.hash == HandleHash(c.key)
      requires found ==> entries[idx].Full? && entries[idx].key == c.key
      requires !found ==> entries[idx].Empty? && 4 * len <= 3 * cap
      requires !found ==> Probed(entries[..], Handle(), c.hash % cap, idx, c.key)
      modifies this`len, entries
      ensures Valid() && Map() == old(Map())[c.key := c.value]
    {
      ghost var t := entries[..];
      if found {
        UpdateAt(t, Handle(), HandleHash, idx, c);
      } else {
        InsertAt(t, Handle(), HandleHash, idx, c);
        len := len + 1;
      }
      entries[idx] := c;
      assert entries[..] == t[idx := c];
    }

    /** A whole run: the answers and the contents are those of a map keyed by handle. */
    method Run(ops: seq<IndexSpec.Op>) returns (answers: seq<int>)
      requires Valid()
      modifies this, entries
      ensures Valid() && Map() == IndexSpec.After(old(Map()), Handle(), ops)
      ensures answers == IndexSpec.Answers(old(Map()), Handle(), ops, 0)
    {
      ghost var m := Map();
      answers := [];
      for n := 0 to |ops|
        invariant Valid() && (entries == old(entries) || fresh(entries))
        invariant Map() == IndexSpec.After(m, Handle(), ops[..n])
        invariant answers == IndexSpec.Answers(m, Handle(), ops[..n], 0)
      {
        IndexSpec.OneMore(m, Handle(), ops, n, 0);
        var answer := RunOne(ops[n]);
        answers := answers + [answer];
      }
      assert ops[..|ops|] == ops;
    }

    method RunOne(op: IndexSpec.Op) returns (answer: int)
      requires Valid()
      modifies this, entries
      ensures Valid() && (entries == old(entries) || fresh(entries))
      ensures Map() == IndexSpec.Step(old(Map()), Handle(), op)
      ensures answer == IndexSpec.Answer(old(Map()), Handle(), op, 0)
    {
      answer := 1;
      assert Handle()(op.key) == op.key;
      match op
      case Set(key, value) =>
        Set(key, value);
      case Get(key) =>
        answer := Get(key);
      case Contains(key) =>
        var r := Contains(key);
        answer := if r then 1 else 0;
      case GetOrInsert(key, value) =>
        answer := GetOrInsert(key, value);
    }
  }
}
