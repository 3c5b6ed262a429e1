/** The decoder: total on arbitrary bytes, reading nothing outside the declared total size. */
module DzFlatDecoder {
  import opened Basics
  import opened DzFlatWire
  import opened DzFlatSchema
  import opened DzFlatWriter

  datatype Header = Header(hash: nat, rootSize: nat, total: nat, id: nat)

  function ReadLE(buf: seq<byte>, at: nat, n: nat): nat
    requires at + n <= |buf|
  {
    FromLE(buf[at..at + n])
  }

  /** None for anything that is not a segment header, or one that contradicts itself or the buffer. */
  function ParseHeader(buf: seq<byte>): (h: Option<Header>)
    ensures h.Some? ==> HEADER + h.value.rootSize <= h.value.total <= |buf|
  {
    if |buf| < HEADER then None
    else
      var (rsize, total) := (ReadLE(buf, 12, 4), ReadLE(buf, 16, 4));
      if ReadLE(buf, 0, 4) != MAGIC || ReadLE(buf, 20, 2) != LAYOUT_VER then None
      else if ReadLE(buf, 8, 4) != HEADER || total > |buf| then None
      else if total < HEADER + rsize then None
      else Some(Header(ReadLE(buf, 4, 4), rsize, total, ReadLE(buf, 24, 4)))
  }

  predicate HasMagic(buf: seq<byte>) {
    |buf| >= 4 && ReadLE(buf, 0, 4) == MAGIC
  }

  /** `cnt` elements of `stride` bytes at `off` lie inside the segment; offset 0 is the empty field. */
  predicate InBounds(total: nat, off: nat, cnt: nat, stride: nat) {
    off != 0 && off < total && (stride == 0 || cnt <= (total - off) / stride)
  }

  lemma QuotientBound(cnt: nat, room: nat, stride: nat)
    requires stride > 0
    ensures cnt <= room / stride <==> cnt * stride <= room
  {
    var q, r := room / stride, room % stride;
    assert room == q * stride + r;
    if cnt <= q {
      assert cnt * stride <= q * stride;
    } else {
      assert (q + 1) * stride <= cnt * stride;
    }
  }

  /** The division in the check is exact: it holds just when the last byte is inside. */
  lemma InBoundsMeans(total: nat, off: nat, cnt: nat, stride: nat)
    requires stride > 0
    ensures InBounds(total, off, cnt, stride) <==> 0 < off < total && off + Times(cnt, stride) <= total
  {
    if off < total {
      QuotientBound(cnt, total - off, stride);
      TimesIsProduct(cnt, stride);
    }
  }

  /** A string or an array of scalars behind the reference at `at`: None stands for the empty value. */
  function Block(buf: seq<byte>, total: nat, at: nat, stride: nat): (r: Option<(nat, nat)>)
    requires at + REF_SIZE <= total <= |buf| && stride > 0
    ensures r.Some? ==> r.value.0 + Times(r.value.1, stride) <= total
  {
    var (off, n) := ReadRef(buf, at);
    InBoundsMeans(total, off, n, stride);
    if n == 0 || !InBounds(total, off, n, stride) then None else Some((off, n))
  }

  function DecodeFields(fs: Fields, buf: seq<byte>, total: nat, root: nat, off: nat, zero: bool): Values
    requires root + End(fs, off) <= total <= |buf|
    decreases fs, 0, 0
  {
    hide AlignUp, AlignOf, SizeOf;
    match fs
    case Nil => VNil
    case Cons(f, rest) =>
      var at := AlignUp(off, AlignOf(f));
      VCons(DecodeField(f, buf, total, root + at, zero), DecodeFields(rest, buf, total, root, at + SizeOf(f), zero))
  }

  function DecodeField(f: Field, buf: seq<byte>, total: nat, at: nat, zero: bool): Value
    requires at + SizeOf(f) <= total <= |buf|
    decreases f, 1, 0
  {
    match f
    case Scalar(b) => VInt(FromBits(b, ReadLE(buf, at, Size(b))))
    case FixedArray(b, count) => VInts(DecodeInts(b, count, buf[at..at + SizeOf(f)]))
    case Str => VBytes(DecodeBytes(buf, total, at))
    case VarArray(b) => VInts(DecodeArray(b, buf, total, at, zero))
    case StrArray =>
      var r := Block(buf, total, at, REF_SIZE);
      VStrs(if r.None? then [] else DecodeStrs(buf, total, r.value.0, r.value.1))
    case Nested(s) => VMsg(DecodeFields(s.fields, buf, total, at, 0, zero))
    case NestedArray(s) =>
      var r := Block(buf, total, at, RootSize(s.fields));
      VMsgs(if r.None? then [] else DecodeElems(s.fields, buf, total, r.value.0, r.value.1, zero))
  }

  function DecodeBytes(buf: seq<byte>, total: nat, at: nat): seq<byte>
    requires at + REF_SIZE <= total <= |buf|
  {
    var r := Block(buf, total, at, 1);
    if r.None? then []
    else
      TimesIsProduct(r.value.1, 1);
      buf[r.value.0..r.value.0 + r.value.1]
  }

  /** With `zero` a view of the bytes, otherwise a list in which booleans are normalised. */
  function DecodeArray(b: Base, buf: seq<byte>, total: nat, at: nat, zero: bool): seq<int>
    requires at + REF_SIZE <= total <= |buf|
  {
    var r := Block(buf, total, at, Size(b));
    if r.None? then []
    else
      var bytes := buf[r.value.0..r.value.0 + Times(r.value.1, Size(b))];
      if zero then ViewInts(b, r.value.1, bytes) else DecodeInts(b, r.value.1, bytes)
  }

  /** The first `n` strings of the table at `tbl`. */
  function DecodeStrs(buf: seq<byte>, total: nat, tbl: nat, n: nat): (ss: seq<seq<byte>>)
    requires tbl + Times(n, REF_SIZE) <= total <= |buf|
    ensures |ss| == n
  {
    if n == 0 then []
    else
      ElemInside(n - 1, n, REF_SIZE);
      DecodeStrs(buf, total, tbl, n - 1) + [DecodeBytes(buf, total, tbl + Times(n - 1, REF_SIZE))]
  }

  /** The first `n` records of the block at `blk`. */
  function DecodeElems(fs: Fields, buf: seq<byte>, total: nat, blk: nat, n: nat, zero: bool): (ms: seq<Values>)
    requires blk + Times(n, RootSize(fs)) <= total <= |buf|
    ensures |ms| == n
    decreases fs, 1, n
  {
    hide Times, RootSize;
    if n == 0 then []
    else
      ElemInside(n - 1, n, RootSize(fs));
      DecodeElems(fs, buf, total, blk, n - 1, zero)
      + [DecodeFields(fs, buf, total, blk + Times(n - 1, RootSize(fs)), 0, zero)]
  }

  datatype Outcome = Accepted(m: Values) | NotDzFlat | HeaderBad | SchemaUnknown | SchemaMismatch

  /** `decode`, with the registry looked up by hash unless a schema is given. */
  function Decode(registry: map<nat, Schema>, given: Option<Schema>, buf: seq<byte>, zero: bool): Outcome {
    var h := ParseHeader(buf);
    if h.None? then (if HasMagic(buf) then HeaderBad else NotDzFlat)
    else if given.None? && h.value.hash !in registry then SchemaUnknown
    else
      var s := if given.Some? then given.value else registry[h.value.hash];
      if given.Some? && s.hash != h.value.hash then SchemaMismatch
      else if h.value.rootSize != RootSize(s.fields) then SchemaMismatch
      else Accepted(DecodeFields(s.fields, buf, h.value.total, HEADER, 0, zero))
  }

  // ---------------------------------------------------------------- locality

  lemma BlockLocal(a: seq<byte>, b: seq<byte>, total: nat, at: nat, stride: nat)
    requires at + REF_SIZE <= total && Agree(a, b, 0, total) && stride > 0
    ensures Block(a, total, at, stride) == Block(b, total, at, stride)
  {
    AgreeRef(a, b, at);
  }

  lemma BytesLocal(a: seq<byte>, b: seq<byte>, total: nat, at: nat)
    requires at + REF_SIZE <= total && Agree(a, b, 0, total)
    ensures DecodeBytes(a, total, at) == DecodeBytes(b, total, at)
  {
    hide Block;
    BlockLocal(a, b, total, at, 1);
    var r := Block(a, total, at, 1);
    if r.Some? {
      TimesIsProduct(r.value.1, 1);
      AgreeSlice(a, b, r.value.0, r.value.0 + r.value.1);
    }
  }

  lemma ArrayLocal(t: Base, a: seq<byte>, b: seq<byte>, total: nat, at: nat, zero: bool)
    requires at + REF_SIZE <= total && Agree(a, b, 0, total)
    ensures DecodeArray(t, a, total, at, zero) == DecodeArray(t, b, total, at, zero)
  {
    hide Block, DecodeInts, ViewInts;
    BlockLocal(a, b, total, at, Size(t));
    var r := Block(a, total, at, Size(t));
    if r.Some? { AgreeSlice(a, b, r.value.0, r.value.0 + Times(r.value.1, Size(t))); }
  }

  lemma {:induction false} StrsLocal(a: seq<byte>, b: seq<byte>, total: nat, tbl: nat, n: nat)
    requires tbl + Times(n, REF_SIZE) <= total && Agree(a, b, 0, total)
    ensures DecodeStrs(a, total, tbl, n) == DecodeStrs(b, total, tbl, n)
  {
    hide DecodeBytes, Times;
    if n > 0 {
      ElemInside(n - 1, n, REF_SIZE);
      StrsLocal(a, b, total, tbl, n - 1);
      BytesLocal(a, b, total, tbl + Times(n - 1, REF_SIZE));
    }
  }

  lemma {:induction false} ElemsLocal(fs: Fields, a: seq<byte>, b: seq<byte>, total: nat, blk: nat, n: nat, zero: bool)
    requires blk + Times(n, RootSize(fs)) <= total && Agree(a, b, 0, total)
    ensures DecodeElems(fs, a, total, blk, n, zero) == DecodeElems(fs, b, total, blk, n, zero)
    decreases fs, 1, n
  {
    hide Agree, DecodeFields, End, RootSize, Times;
    if n > 0 {
      ElemInside(n - 1, n, RootSize(fs));
      ElemsLocal(fs, a, b, total, blk, n - 1, zero);
      FieldsLocal(fs, a, b, total, blk + Times(n - 1, RootSize(fs)), 0, zero);
    }
  }

  lemma {:induction false} FieldLocal(f: Field, a: seq<byte>, b: seq<byte>, total: nat, at: nat, zero: bool)
    requires at + SizeOf(f) <= total && Agree(a, b, 0, total)
    ensures DecodeField(f, a, total, at, zero) == DecodeField(f, b, total, at, zero)
    decreases f, 1, 0
  {
    hide DecodeFields, DecodeElems, DecodeStrs, DecodeBytes, DecodeArray, DecodeInts, Block, RootSize, FromLE;
    if f.Scalar? || f.FixedArray? {
      AgreeSlice(a, b, at, at + SizeOf(f));
    } else if f.Str? {
      BytesLocal(a, b, total, at);
    } else if f.VarArray? {
      ArrayLocal(f.b, a, b, total, at, zero);
    } else if f.StrArray? {
      BlockLocal(a, b, total, at, REF_SIZE);
      var r := Block(a, total, at, REF_SIZE);
      if r.Some? { StrsLocal(a, b, total, r.value.0, r.value.1); }
    } else if f.Nested? {
      FieldsLocal(f.s.fields, a, b, total, at, 0, zero);
    } else if f.NestedArray? {
      BlockLocal(a, b, total, at, RootSize(f.s.fields));
      var r := Block(a, total, at, RootSize(f.s.fields));
      if r.Some? { ElemsLocal(f.s.fields, a, b, total, r.value.0, r.value.1, zero); }
    }
  }

  /** Decoding looks at nothing beyond the declared total size. */
  lemma {:induction false} FieldsLocal(fs: Fields, a: seq<byte>, b: seq<byte>, total: nat, root: nat, off: nat,
                                       zero: bool)
    requires root + End(fs, off) <= total && Agree(a, b, 0, total)
    ensures DecodeFields(fs, a, total, root, off, zero) == DecodeFields(fs, b, total, root, off, zero)
    decreases fs, 0, 0
  {
    hide DecodeField, SizeOf, AlignOf, AlignUp;
    if fs.Cons? {
      var at := AlignUp(off, AlignOf(fs.f));
      FieldLocal(fs.f, a, b, total, root + at, zero);
      FieldsLocal(fs.rest, a, b, total, root, at + SizeOf(fs.f), zero);
    }
  }

  lemma HeaderLocal(a: seq<byte>, b: seq<byte>)
    requires ParseHeader(a).Some? && ParseHeader(a).value.total <= |b| && Agree(a, b, 0, HEADER)
    ensures ParseHeader(b) == ParseHeader(a)
  {
    hide FromLE;
    AgreeSlice(a, b, 0, 4);
    AgreeSlice(a, b, 4, 8);
    AgreeSlice(a, b, 8, 12);
    AgreeSlice(a, b, 12, 16);
    AgreeSlice(a, b, 16, 20);
    AgreeSlice(a, b, 20, 22);
    AgreeSlice(a, b, 24, 28);
  }

  /** Whatever bytes a segment is made of: what decoding gives depends on nothing outside the total size
      its header declares. (That decoding ends, and reads inside the buffer only, is part of the
      definition being accepted.) */
  lemma DecodeLocal(registry: map<nat, Schema>, given: Option<Schema>, a: seq<byte>, b: seq<byte>, zero: bool)
    requires ParseHeader(a).Some? && Agree(a, b, 0, ParseHeader(a).value.total)
    ensures Decode(registry, given, a, zero) == Decode(registry, given, b, zero)
  {
    hide ParseHeader, HasMagic, DecodeFields, RootSize, End;
    HeaderLocal(a, b);
    var h := ParseHeader(a).value;
    if given.Some? || h.hash in registry {
      var s := if given.Some? then given.value else registry[h.hash];
      if h.rootSize == RootSize(s.fields) { FieldsLocal(s.fields, a, b, h.total, HEADER, 0, zero); }
    }
  }
}
