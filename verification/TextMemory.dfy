/** How the native runtime stores a text: a length word and the bytes, in a block of the record
    arena whose size is rounded with a 32-bit mask. */
module TextMemory {
  import CArena
  import Mir

  type Option<T> = Mir.Option<T>

  type Byte = x: nat | x < 256

  /** Exactly the bytes whose offset is from `start` up to, but not including, `end`, in order. */
  ghost predicate BytesBetween(s: seq<Byte>, start: nat, end: nat, r: seq<Byte>) {
    && (forall i :: 0 <= i < |r| ==> start + i < end && start + i < |s| && r[i] == s[start + i])
    && (forall k :: 0 <= k < |s| && start <= k < end ==> k - start < |r| && r[k - start] == s[k])
  }

  /** The length word in front of the bytes. */
  const HEADER: nat := 8

  /** The longest text whose block is long enough. */
  const LONGEST: nat := 0xFFFF_FFE8

  /** The size of the block that a text of a length gets, none when the request is refused. */
  function BlockFor(len: nat): Option<nat> {
    if len > CArena.SIZE_MAX - HEADER || HEADER + len > CArena.SIZE_MAX - 15 then Mir.None
    else Mir.Some(CArena.Round(HEADER + len))
  }

  /** A request is refused exactly when it is within 23 bytes of 2^64; the block holds header and
      bytes if and only if the text has at most 2^32 - 24 of them. */
  lemma BlockCoversIff(len: nat)
    ensures BlockFor(len).None? <==> len > CArena.SIZE_MAX - 23
    ensures BlockFor(len).Some? && BlockFor(len).value >= HEADER + len <==> len <= LONGEST
  {
    CArena.RoundCoversIff(HEADER + len);
  }

  /** One byte more, and the block has no bytes at all. */
  lemma FirstShortBlock()
    ensures BlockFor(LONGEST + 1) == Mir.Some(0)
  {
    CArena.RoundOfWord(HEADER + (LONGEST + 1));
  }

  /** What storing a text leaves behind: nothing, the whole text, or a block that ends before the
      text does, so that the rest was written past it. */
  datatype Stored = NoText | InFull(bytes: seq<Byte>) | PastEnd(block: nat)

  /** Stored in full if and only if the text has at most 2^32 - 24 bytes and there is memory. */
  ghost predicate StoredAs(data: seq<Byte>, heap: bool, r: Stored) {
    && (r.NoText? <==> !heap || |data| > CArena.SIZE_MAX - 23)
    && (r.InFull? <==> heap && |data| <= LONGEST)
    && (r.InFull? ==> r.bytes == data)
    && (r.PastEnd? ==> r.block < HEADER + |data|)
  }

  /** Allocation and copy; `heap` says whether the arena can give the block. */
  method StoreText(data: seq<Byte>, heap: bool) returns (r: Stored)
    ensures StoredAs(data, heap, r)
  {
    BlockCoversIff(|data|);
    var block := BlockFor(|data|);
    if block.None? || !heap { return NoText; }
    if HEADER + |data| <= block.value {
      r := InFull(data);
    } else {
      r := PastEnd(block.value);
    }
  }
}
