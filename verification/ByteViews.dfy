/** Byte strings of the native runtime: owned blobs, and views that name an owned blob and a range
    of it.  The top bit of the header word tells them apart. */
module ByteViews {
  import opened Bits
  import TextMemory

  type Byte = TextMemory.Byte
  type Address = nat

  const NULL: Address := 0
  /** The shared empty blob. */
  const EMPTY: Address := 1
  const TAG: nat := 0x8000_0000_0000_0000
  const TWO64: nat := 0x1_0000_0000_0000_0000

  /** An object: its header word, the parent and offset words of a view, the bytes of a blob. */
  datatype Object = Object(header: nat, parent: Address, offset: nat, data: seq<Byte>)

  function IsView(o: Object): bool {
    BitAnd(o.header, TAG) != 0
  }

  function ViewLength(o: Object): nat {
    BitAnd(o.header, TWO64 - 1 - TAG)
  }

  function MakeView(len: nat, parent: Address, offset: nat): Object {
    Object(BitOr(len, TAG), parent, offset, [])
  }

  function MakeBlob(data: seq<Byte>): Object {
    Object(|data|, NULL, 0, data)
  }

  lemma TagPowers()
    ensures Pow2(63) == TAG && Pow2(64) == TWO64
  {
    Pow2Words();
    assert Pow2(64) == 2 * Pow2(63);
  }

  /** The header of a view gives back its length, and lengths below 2^63 are not taken for views. */
  lemma HeaderBits(len: nat)
    requires len < TAG
    ensures BitAnd(len, TAG) == 0 && BitOr(len, TAG) == len + TAG
    ensures BitAnd(len + TAG, TAG) == TAG && BitAnd(len + TAG, TWO64 - 1 - TAG) == len
  {
    TagPowers();
    TopBit(len, 63);
    TopBit(len + TAG, 63);
    WithTopBit(len, 63);
  }

  // ---- What addresses stand for ---------------------------------------------------------------------

  ghost predicate BlobOk(o: Object) {
    o.header == |o.data| < TAG
  }

  ghost predicate ViewOk(h: map<Address, Object>, o: Object) {
    && TAG <= o.header < TWO64 && o.parent in h && BlobOk(h[o.parent])
    && o.offset + (o.header - TAG) <= |h[o.parent].data|
  }

  /** Every object is a blob, or a view of a range of a blob: parents are never views. */
  ghost predicate HeapOk(h: map<Address, Object>) {
    && NULL !in h && EMPTY in h && h[EMPTY] == MakeBlob([])
    && forall a :: a in h ==> BlobOk(h[a]) || ViewOk(h, h[a])
  }

  ghost function Denotes(h: map<Address, Object>, a: Address): seq<Byte>
    requires HeapOk(h) && a in h
  {
    var o := h[a];
    if o.header < TAG then o.data else h[o.parent].data[o.offset..o.offset + (o.header - TAG)]
  }

  lemma Recognised(h: map<Address, Object>, a: Address)
    requires HeapOk(h) && a in h
    ensures IsView(h[a]) <==> h[a].header >= TAG
    ensures IsView(h[a]) ==> ViewOk(h, h[a]) && ViewLength(h[a]) == h[a].header - TAG == |Denotes(h, a)|
    ensures !IsView(h[a]) ==> BlobOk(h[a]) && Denotes(h, a) == h[a].data
  {
    var o := h[a];
    HeaderBits(if o.header < TAG then o.header else o.header - TAG);
  }

  function Clamp(n: nat, len: nat): nat {
    if n < len then n else len
  }

  /** Slicing a sequence, with both ends clamped. */
  function SliceSeq(s: seq<Byte>, start: nat, end: nat): seq<Byte> {
    var cs, ce := Clamp(start, |s|), Clamp(end, |s|);
    if ce <= cs then [] else s[cs..ce]
  }

  lemma SliceSeqIsBetween(s: seq<Byte>, start: nat, end: nat)
    ensures TextMemory.BytesBetween(s, start, end, SliceSeq(s, start, end))
  {
  }

  lemma SliceSeqValue(s: seq<Byte>, start: nat, end: nat, cs: nat, n: nat)
    requires cs == Clamp(start, |s|) && cs + n == Clamp(end, |s|)
    ensures SliceSeq(s, start, end) == s[cs..cs + n]
  {
  }

  /** Slicing by a start and a length, empty when one of them is negative. */
  function SliceFrom(s: seq<Byte>, start: int, length: int): seq<Byte> {
    if start < 0 || length < 0 then [] else SliceSeq(s, start, start + length)
  }

  /** The bytes from a start on, as many as there are up to a length; none when one is negative. */
  ghost predicate BytesFrom(s: seq<Byte>, start: int, length: int, r: seq<Byte>) {
    if start < 0 || length < 0 then r == [] else TextMemory.BytesBetween(s, start, start + length, r)
  }

  lemma SliceFromIsBetween(s: seq<Byte>, start: int, length: int)
    ensures BytesFrom(s, start, length, SliceFrom(s, start, length))
  {
  }

  /** Clamping the start and then the length is the same as clamping both ends. */
  lemma SliceFromValue(s: seq<Byte>, start: nat, length: nat, cs: nat, cl: nat)
    requires cs == Clamp(start, |s|) && cl == Clamp(length, |s| - cs)
    ensures SliceFrom(s, start, length) == s[cs..cs + cl]
  {
  }

  /** Slicing again and again. */
  function SliceAll(s: seq<Byte>, ranges: seq<(nat, nat)>): seq<Byte> {
    if ranges == [] then s
    else
      var (start, end) := ranges[|ranges| - 1];
      SliceSeq(SliceAll(s, ranges[..|ranges| - 1]), start, end)
  }

  /** Adding an object leaves the others as they are. */
  lemma AddObject(h: map<Address, Object>, a: Address, o: Object)
    requires HeapOk(h) && a !in h && a != NULL && (BlobOk(o) || ViewOk(h, o))
    ensures HeapOk(h[a := o])
    ensures forall b :: b in h ==> Denotes(h[a := o], b) == Denotes(h, b)
  {
    var g := h[a := o];
    forall b | b in g ensures BlobOk(g[b]) || ViewOk(g, g[b]) {
      assert b in h ==> BlobOk(h[b]) || ViewOk(h, h[b]);
    }
  }

  /** A view of a view names the blob and adds the offsets up. */
  lemma ViewOfView(data: seq<Byte>, offset: nat, len: nat, cs: nat, n: nat)
    requires offset + len <= |data| && cs + n <= len
    ensures data[offset..offset + len][cs..cs + n] == data[offset + cs..offset + cs + n]
  {
    var s := data[offset..offset + len];
    var t := s[cs..cs + n];
    assert forall i :: 0 <= i < n ==> t[i] == s[cs + i];
    assert forall i :: 0 <= i < n ==> t[i] == data[offset + cs + i];
  }

  class Heap {
    var objects: map<Address, Object>
    var next: Address

    ghost predicate Valid()
      reads this
    {
      HeapOk(objects) && next > EMPTY && forall a :: a in objects ==> a < next
    }

    ghost function Bytes(a: Address): seq<Byte>
      requires Valid() && a in objects
      reads this
    {
      Denotes(objects, a)
    }

    constructor ()
      ensures Valid()
    {
      objects, next := map[EMPTY := MakeBlob([])], 2;
    }

    method Add(o: Object) returns (a: Address)
      requires Valid() && (BlobOk(o) || ViewOk(objects, o))
      modifies this
      ensures Valid() && a !in old(objects) && a != NULL && objects == old(objects)[a := o]
      ensures forall b :: b in old(objects) ==> Bytes(b) == old(Denotes(objects, b))
    {
      a := next;
      AddObject(objects, a, o);
      objects, next := objects[a := o], next + 1;
    }

    method Length(a: Address) returns (n: nat)
      requires Valid() && (a == NULL || a in objects)
      ensures n == if a == NULL then 0 else |Bytes(a)|
    {
      if a == NULL { return 0; }
      Recognised(objects, a);
      n := if IsView(objects[a]) then ViewLength(objects[a]) else objects[a].header;
    }

    /** A byte of the sequence, zero outside it. */
    method ByteAt(a: Address, index: int) returns (b: Byte)
      requires Valid() && (a == NULL || a in objects)
      ensures b == if a != NULL && 0 <= index < |Bytes(a)| then Bytes(a)[index] else 0
    {
      if a == NULL { return 0; }
      Recognised(objects, a);
      var o := objects[a];
      var data, base, len := o.data, 0, o.header;
      if IsView(o) {
        data, base, len := objects[o.parent].data, o.offset, ViewLength(o);
      }
      if index < 0 || index >= len { return 0; }
      b := data[base + index];
    }

    /** The blob behind an address, and the range of it. */
    method Source(a: Address) returns (len: nat, parent: Address, offset: nat)
      requires Valid() && a in objects
      ensures parent in objects && BlobOk(objects[parent]) && offset + len <= |objects[parent].data|
      ensures Bytes(a) == objects[parent].data[offset..offset + len]
    {
      Recognised(objects, a);
      var o := objects[a];
      len, parent, offset := o.header, a, 0;
      if IsView(o) {
        len, parent, offset := ViewLength(o), o.parent, o.offset;
      }
    }

    method AddView(parent: Address, offset: nat, len: nat) returns (r: Address)
      requires Valid() && parent in objects && BlobOk(objects[parent]) && offset + len <= |objects[parent].data|
      modifies this
      ensures Valid() && forall b :: b in old(objects) ==> b in objects && Bytes(b) == old(Denotes(objects, b))
      ensures r != NULL && r in objects && Bytes(r) == old(objects[parent].data[offset..offset + len])
    {
      HeaderBits(len);
      r := Add(MakeView(len, parent, offset));
    }

    /** A slice is the empty blob or a new view, and denotes the slice of the sequence. */
    method Slice(a: Address, start: nat, end: nat, heap: bool) returns (r: Address)
      requires Valid() && (a == NULL || a in objects)
      modifies this
      ensures Valid() && forall b :: b in old(objects) ==> b in objects && Bytes(b) == old(Denotes(objects, b))
      ensures a == NULL ==> r == NULL
      ensures r == NULL ==> a == NULL || !heap
      ensures r != NULL ==> r in objects && Bytes(r) == SliceSeq(old(Denotes(objects, a)), start, end)
      ensures r != NULL ==> TextMemory.BytesBetween(old(Denotes(objects, a)), start, end, Bytes(r))
    {
      if a != NULL { SliceSeqIsBetween(Bytes(a), start, end); }
      if a == NULL { return NULL; }
      var len, parent, offset := Source(a);
      var cs := if start < len then start else len;
      var ce := if end < len then end else len;
      if ce <= cs { return EMPTY; }
      if !heap { return NULL; }
      var n := ce - cs;
      assert SliceSeq(Bytes(a), start, end) == objects[parent].data[offset + cs..offset + cs + n] by {
        SliceSeqValue(Bytes(a), start, end, cs, n);
        ViewOfView(objects[parent].data, offset, len, cs, n);
      }
      r := AddView(parent, offset + cs, n);
    }

    /** The form that takes a start and a length. */
    method SliceLength(a: Address, start: int, length: int, heap: bool) returns (r: Address)
      requires Valid() && (a == NULL || a in objects)
      modifies this
      ensures Valid() && forall b :: b in old(objects) ==> b in objects && Bytes(b) == old(Denotes(objects, b))
      ensures a == NULL ==> r == NULL
      ensures r == NULL ==> a == NULL || !heap
      ensures r != NULL ==> r in objects && Bytes(r) == SliceFrom(old(Denotes(objects, a)), start, length)
      ensures r != NULL ==> BytesFrom(old(Denotes(objects, a)), start, length, Bytes(r))
    {
      if a != NULL { SliceFromIsBetween(Bytes(a), start, length); }
      if a == NULL { return NULL; }
      if start < 0 || length < 0 { return EMPTY; }
      var len, parent, offset := Source(a);
      var cs := if start < len then start else len;
      var cl := if length > len - cs then len - cs else length;
      assert SliceFrom(Bytes(a), start, length) == objects[parent].data[offset + cs..offset + cs + cl] by {
        SliceFromValue(Bytes(a), start, length, cs, cl);
        ViewOfView(objects[parent].data, offset, len, cs, cl);
      }
      if cl == 0 { return EMPTY; }
      if !heap { return NULL; }
      r := AddView(parent, offset + cs, cl);
    }

    /** A blob of its own with the same bytes.  The copy runs past the end of its block, and the
        address is of no blob, if and only if there are more than 2^32 - 24 of them. */
    method Materialize(a: Address, heap: bool) returns (r: Address, past: bool)
      requires Valid() && (a == NULL || a in objects)
      modifies this
      ensures Valid() && forall b :: b in old(objects) ==> b in objects && Bytes(b) == old(Denotes(objects, b))
      ensures past <==> a != NULL && heap && |old(Denotes(objects, a))| > TextMemory.LONGEST
      ensures r == NULL <==> a == NULL || !heap
      ensures r != NULL ==> r !in old(objects) && (past <==> r !in objects)
      ensures r in objects ==> objects[r] == MakeBlob(old(Denotes(objects, a)))
      ensures r in objects ==> Bytes(r) == old(Denotes(objects, a))
    {
      if a == NULL { return NULL, false; }
      Recognised(objects, a);
      var o := objects[a];
      var data := if IsView(o) then objects[o.parent].data[o.offset..o.offset + ViewLength(o)] else o.data;
      var stored := TextMemory.StoreText(data, heap);
      if stored.NoText? { return NULL, false; }
      if stored.PastEnd? { return next, true; }
      past := false;
      r := Add(MakeBlob(stored.bytes));
    }

    /** A chain of slices, while there is memory, denotes the sequence sliced again and again. */
    method SliceChain(a: Address, ranges: seq<(nat, nat)>) returns (r: Address)
      requires Valid() && a in objects
      modifies this
      ensures Valid() && r in objects && Bytes(r) == SliceAll(old(Denotes(objects, a)), ranges)
    {
      r := a;
      for n := 0 to |ranges|
        invariant Valid() && r in objects && Bytes(r) == SliceAll(old(Denotes(objects, a)), ranges[..n])
      {
        assert ranges[..n + 1][..n] == ranges[..n];
        r := Slice(r, ranges[n].0, ranges[n].1, true);
      }
      assert ranges[..|ranges|] == ranges;
    }
  }
}
