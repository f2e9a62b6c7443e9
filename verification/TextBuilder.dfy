/** The growing text builder of the native runtime.  `heap` says whether the system can give the
    memory that a call asks for; a failed call gives back a null builder. */
module TextBuilder {
  import Mir
  import Utf8
  import Decimal
  import opened TextMemory

  type Option<T> = Mir.Option<T>
  type Byte = TextMemory.Byte

  const UINT64_MAX: nat := 0xFFFF_FFFF_FFFF_FFFF
  const CHUNK: nat := 256

  // ---- Pieces -------------------------------------------------------------------------------------

  datatype Piece =
    | Whole(text: seq<Byte>)
    | CodePoint(cp: int)
    | Ascii(byte: int)
    | Slice(source: seq<Byte>, start: int, end: int)
    | Integer(value: int)

  /** The bytes that an append adds, none when it is refused. */
  function Added(p: Piece): Option<seq<Byte>> {
    match p
    case Whole(text) => Mir.Some(text)
    case CodePoint(cp) => Utf8.Encode(cp)
    case Ascii(byte) => if 0 <= byte <= 0xff then Mir.Some([byte]) else Mir.None
    case Slice(source, start, end) => if 0 <= start <= end <= |source| then Mir.Some(source[start..end]) else Mir.None
    case Integer(value) => Mir.Some(Decimal.Printed(value))
  }

  /** What each append adds, byte by byte. */
  ghost predicate Adds(p: Piece, bytes: seq<Byte>) {
    match p
    case Whole(text) => bytes == text
    case CodePoint(cp) => Utf8.Scalar(cp) && bytes == Utf8.Layout(cp)
    case Ascii(byte) => 0 <= byte <= 255 && bytes == [byte]
    case Slice(source, start, end) => 0 <= start <= end <= |source| && BytesBetween(source, start, end, bytes)
    case Integer(value) => bytes == Decimal.Printed(value)
  }

  /** What is refused: surrogates and numbers past the last code point, numbers that are no byte, and
      ranges that are not inside the text. */
  predicate Refused(p: Piece) {
    match p
    case CodePoint(cp) => cp < 0 || 0xd800 <= cp <= 0xdfff || cp > 0x10ffff
    case Ascii(byte) => byte < 0 || byte > 255
    case Slice(source, start, end) => start < 0 || end < start || end > |source|
    case _ => false
  }

  lemma AddedMeans(p: Piece)
    ensures Added(p).None? <==> Refused(p)
    ensures Added(p).Some? ==> Adds(p, Added(p).value)
  {
    if p.CodePoint? { Utf8.EncodeIsLayout(p.cp); }
  }

  /** The concatenation of the pieces, none when one of them is refused. */
  function Joined(ps: seq<Piece>): Option<seq<Byte>> {
    if ps == [] then Mir.Some([])
    else
      var rest, last := Joined(ps[..|ps| - 1]), Added(ps[|ps| - 1]);
      if rest.Some? && last.Some? then Mir.Some(rest.value + last.value) else Mir.None
  }

  /** A refused or overlong prefix stays so. */
  lemma {:induction false} JoinedPrefix(ps: seq<Piece>, n: nat)
    requires n <= |ps| && Joined(ps).Some?
    ensures Joined(ps[..n]).Some? && |Joined(ps[..n]).value| <= |Joined(ps).value|
  {
    if n == |ps| {
      assert ps[..n] == ps;
    } else {
      JoinedPrefix(ps[..|ps| - 1], n);
      assert ps[..|ps| - 1][..n] == ps[..n];
    }
  }

  // ---- Validity -----------------------------------------------------------------------------------

  predicate OnBoundary(s: seq<Byte>, i: int) {
    0 <= i <= |s| && (i < |s| ==> !Utf8.IsTail(s[i]))
  }

  /** Pieces that keep a text valid: valid texts, bytes below 0x80, and slices on boundaries. */
  predicate Keeps(p: Piece) {
    match p
    case Whole(text) => Utf8.Valid(text)
    case CodePoint(_) => true
    case Ascii(byte) => byte <= 0x7f
    case Slice(source, start, end) => Utf8.Valid(source) && OnBoundary(source, start) && OnBoundary(source, end)
    case Integer(_) => true
  }

  lemma {:induction false} AsciiValid(s: seq<Byte>)
    requires forall i :: 0 <= i < |s| ==> s[i] <= 0x7f
    ensures Utf8.Valid(s)
  {
    if s != [] { AsciiValid(s[1..]); }
  }

  lemma AddedValid(p: Piece)
    requires Keeps(p) && Added(p).Some?
    ensures Utf8.Valid(Added(p).value)
  {
    match p
    case Whole(text) =>
    case CodePoint(cp) => CodePointValid(cp);
    case Ascii(byte) => AsciiValid([byte]);
    case Slice(source, start, end) => SliceValid(source, start, end);
    case Integer(value) => PrintedValid(value);
  }

  lemma CodePointValid(cp: int)
    requires Utf8.Encode(cp).Some?
    ensures Utf8.Valid(Utf8.Encode(cp).value)
  {
    Utf8.EncodeIsLayout(cp);
    Utf8.TextValid([cp]);
    assert Utf8.Text([cp]) == Utf8.Layout(cp) + Utf8.Text([cp][1..]);
  }

  lemma SliceValid(source: seq<Byte>, start: nat, end: nat)
    requires Utf8.Valid(source) && start <= end && OnBoundary(source, start) && OnBoundary(source, end)
    ensures Utf8.Valid(source[start..end])
  {
    Utf8.SliceValid(source, start, end);
    assert Utf8.Slice(source, start, end) == source[start..end];
  }

  lemma PrintedValid(v: int)
    ensures Utf8.Valid(Decimal.Printed(v))
  {
    Decimal.NumberOfDigits(if v < 0 then -v else v);
    AsciiValid(Decimal.Printed(v));
  }

  /** What is built from such pieces is valid. */
  lemma {:induction false} JoinedValid(ps: seq<Piece>)
    requires Joined(ps).Some? && forall i :: 0 <= i < |ps| ==> Keeps(ps[i])
    ensures Utf8.Valid(Joined(ps).value)
  {
    if ps != [] {
      JoinedValid(ps[..|ps| - 1]);
      AddedValid(ps[|ps| - 1]);
      Utf8.ValidConcat(Joined(ps[..|ps| - 1]).value, Added(ps[|ps| - 1]).value);
    }
  }

  // ---- The builder --------------------------------------------------------------------------------

  /** The growth loop: whatever it starts from, it ends at the larger of the two, and no sum on the
      way exceeds 64 bits. */
  method GrownCapacity(cap: nat, required: nat) returns (next: nat)
    requires cap <= UINT64_MAX && required <= UINT64_MAX
    ensures next == if cap < required then required else cap
  {
    next := cap;
    if next == 0 {
      return required;
    }
    while next < required
      invariant next <= UINT64_MAX && (next == cap || next <= required)
      decreases required - next
    {
      var growth := next / 2 + 1;
      if required - next <= growth {
        next := required;
        break;
      }
      if UINT64_MAX - next < growth {
        next := required;
        break;
      }
      assert next + growth <= UINT64_MAX;
      next := next + growth;
    }
  }

  class Builder {
    var len: nat
    var cap: nat
    var bytes: array<Byte>

    ghost predicate Valid()
      reads this
    {
      len <= cap <= UINT64_MAX && bytes.Length == cap
    }

    ghost function Contents(): seq<Byte>
      requires Valid()
      reads this, bytes
    {
      bytes[..len]
    }

    constructor ()
      ensures Valid() && fresh(bytes) && Contents() == []
    {
      len, cap := 0, CHUNK;
      bytes := new Byte[CHUNK](_ => 0);
    }

    /** There is room for that many more bytes, or memory for a larger buffer. */
    ghost predicate Fits(more: nat, heap: bool)
      reads this
    {
      more == 0 || (len + more <= UINT64_MAX && (len + more <= cap || heap))
    }

    /** Makes room for more bytes; the contents stay, in the old buffer or in a new one. */
    method Reserve(more: nat, heap: bool) returns (ok: bool)
      requires Valid()
      modifies this
      ensures Valid() && len == old(len) && Contents() == old(Contents())
      ensures bytes == old(bytes) || fresh(bytes)
      ensures ok ==> len + more <= cap
      ensures ok <==> old(Fits(more, heap))
    {
      if more == 0 { return true; }
      if len > UINT64_MAX - more { return false; }
      var required := len + more;
      if required <= cap { return true; }
      var next := GrownCapacity(cap, required);
      if !heap { return false; }
      var grown := new Byte[next](_ => 0);
      for i := 0 to len
        invariant bytes == old(bytes) && len == old(len) && cap == old(cap)
        invariant bytes[..] == old(bytes[..])
        invariant grown[..i] == bytes[..i]
      {
        grown[i] := bytes[i];
      }
      bytes, cap := grown, next;
      return true;
    }

    /** Copies bytes behind the contents. */
    method Put(piece: seq<Byte>, heap: bool) returns (ok: bool)
      requires Valid()
      modifies this, bytes
      ensures Valid() && (bytes == old(bytes) || fresh(bytes))
      ensures Contents() == old(Contents()) + if ok then piece else []
      ensures ok <==> old(Fits(|piece|, heap))
    {
      ok := Reserve(|piece|, heap);
      if !ok { return; }
      ghost var before := Contents();
      for i := 0 to |piece|
        invariant len == |before| && len + |piece| <= cap == bytes.Length <= UINT64_MAX
        invariant bytes == old(bytes) || fresh(bytes)
        invariant bytes[..len + i] == before + piece[..i]
      {
        bytes[len + i] := piece[i];
      }
      len := len + |piece|;
      assert piece[..|piece|] == piece;
    }

    /** One append: adds the bytes of the piece, or is refused and changes nothing. */
    method Append(p: Piece, heap: bool) returns (ok: bool)
      requires Valid() && (p.Integer? ==> -Decimal.TWO63 <= p.value < Decimal.TWO63)
      modifies this, bytes
      ensures Valid() && (bytes == old(bytes) || fresh(bytes))
      ensures ok ==> Added(p).Some? && Contents() == old(Contents()) + Added(p).value
      ensures !ok ==> Contents() == old(Contents())
      ensures ok <==> Added(p).Some? && old(Fits(|Added(p).value|, heap))
      ensures ok ==> !Refused(p) && Adds(p, Contents()[old(len)..])
    {
      AddedMeans(p);
      match p
      case Whole(text) =>
        if |text| == 0 { return true; }
        ok := Put(text, heap);
      case CodePoint(cp) =>
        var encoded := Utf8.Encode(cp);
        if encoded.None? { return false; }
        ok := Put(encoded.value, heap);
      case Ascii(byte) =>
        if byte < 0 || byte > 0xff { return false; }
        ok := Put([byte], heap);
      case Slice(source, start, end) =>
        if start < 0 || end < start || end > |source| { return false; }
        if start == end { return true; }
        ok := Put(source[start..end], heap);
      case Integer(value) =>
        var scratch := new Byte[Decimal.DECIMAL_WIDTH + 1](_ => 0);
        var n := Decimal.FormatI64(scratch, value);
        ok := Put(scratch[Decimal.DECIMAL_WIDTH - n..Decimal.DECIMAL_WIDTH], heap);
    }

    /** Copies the contents to a text of the record arena. */
    method Finish(heap: bool) returns (text: Stored)
      requires Valid()
      ensures StoredAs(Contents(), heap, text)
    {
      text := StoreText(bytes[..len], heap);
    }
  }

  /** A whole run while there is memory: the concatenation of the pieces is stored in full if and
      only if no piece is refused and it has at most 2^32 - 24 bytes. */
  method Build(ps: seq<Piece>) returns (text: Stored)
    requires forall i :: 0 <= i < |ps| && ps[i].Integer? ==> -Decimal.TWO63 <= ps[i].value < Decimal.TWO63
    ensures Joined(ps).None? ==> text.NoText?
    ensures Joined(ps).Some? ==> StoredAs(Joined(ps).value, true, text)
  {
    var builder := new Builder();
    for n := 0 to |ps|
      invariant builder.Valid() && fresh(builder) && fresh(builder.bytes)
      invariant Joined(ps[..n]) == Mir.Some(builder.Contents())
    {
      assert ps[..n + 1][..n] == ps[..n];
      if Joined(ps).Some? { JoinedPrefix(ps, n + 1); }
      var ok := builder.Append(ps[n], true);
      if !ok { return NoText; }
    }
    assert ps[..|ps|] == ps;
    text := builder.Finish(true);
  }

  /** A run of appends that is not stored in full: one text of 2^32 - 23 bytes gets no block. */
  lemma TooLongToStore(text: seq<Byte>)
    requires |text| == LONGEST + 1
    ensures Joined([Whole(text)]) == Mir.Some(text) && BlockFor(|text|) == Mir.Some(0)
  {
    FirstShortBlock();
    var ps := [Whole(text)];
    assert ps[..0] == [] && [] + text == text;
  }
}
