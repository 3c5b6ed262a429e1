/** What becomes of an arbitrary buffer, told from its bytes alone. */
module DzFlatOutcome {
  import opened Basics
  import opened DzFlatWire
  import opened DzFlatSchema
  import opened DzFlatWriter
  import opened DzFlatDecoder

  function U16At(buf: seq<byte>, at: nat): nat
    requires at + 2 <= |buf|
  {
    buf[at] as int + 0x100 * buf[at + 1] as int
  }

  function U32At(buf: seq<byte>, at: nat): nat
    requires at + 4 <= |buf|
  {
    buf[at] as int + 0x100 * buf[at + 1] as int + 0x1_0000 * buf[at + 2] as int + 0x100_0000 * buf[at + 3] as int
  }

  lemma LittleEndian(buf: seq<byte>, at: nat)
    ensures at + 2 <= |buf| ==> ReadLE(buf, at, 2) == U16At(buf, at)
    ensures at + 4 <= |buf| ==> ReadLE(buf, at, 4) == U32At(buf, at)
  {
    if at + 2 <= |buf| {
      var s := buf[at..at + 2];
      assert FromLE(s[1..]) == s[1] + 256 * FromLE(s[1..][1..]);
    }
    if at + 4 <= |buf| {
      var s := buf[at..at + 4];
      var (s1, s2, s3) := (s[1..], s[1..][1..], s[1..][1..][1..]);
      assert FromLE(s) == s[0] + 256 * FromLE(s1) && FromLE(s1) == s[1] + 256 * FromLE(s2);
      assert FromLE(s2) == s[2] + 256 * FromLE(s3) && FromLE(s3) == s[3] + 256 * FromLE(s3[1..]);
    }
  }

  /** The letters DZFL. */
  predicate StartsWithMagic(buf: seq<byte>) {
    |buf| >= 4 && buf[0] == 0x44 && buf[1] == 0x5A && buf[2] == 0x46 && buf[3] == 0x4C
  }

  /** Version 1, the record right behind a header of 32 bytes, and a declared total that lies inside the
      buffer and holds the record. */
  predicate IsSegment(buf: seq<byte>) {
    && |buf| >= 32 && StartsWithMagic(buf) && U16At(buf, 20) == 1 && U32At(buf, 8) == 32
    && 32 + U32At(buf, 12) <= U32At(buf, 16) <= |buf|
  }

  /** Schemas are registered under their own hash. */
  predicate WellKeyed(registry: map<nat, Schema>) {
    forall h <- registry :: registry[h].hash == h
  }

  /** The schema the segment is read with: the one given, otherwise the one registered under its hash. */
  function SchemaFor(registry: map<nat, Schema>, given: Option<Schema>, buf: seq<byte>): Option<Schema>
    requires |buf| >= 32
  {
    if given.Some? then given
    else if U32At(buf, 4) in registry then Some(registry[U32At(buf, 4)])
    else None
  }

  /** The segment was written with this hash and this record size. */
  predicate WrittenWith(buf: seq<byte>, s: Schema)
    requires |buf| >= 32
  {
    s.hash == U32At(buf, 4) && RootSize(s.fields) == U32At(buf, 12)
  }

  lemma MagicBytes(buf: seq<byte>)
    ensures HasMagic(buf) <==> StartsWithMagic(buf)
  {
    LittleEndian(buf, 0);
  }

  lemma HeaderBytesRead(buf: seq<byte>)
    ensures ParseHeader(buf).Some? <==> IsSegment(buf)
    ensures IsSegment(buf) ==>
              ParseHeader(buf).value == Header(U32At(buf, 4), U32At(buf, 12), U32At(buf, 16), U32At(buf, 24))
  {
    hide ReadLE;
    if |buf| >= 32 {
      MagicBytes(buf);
      LittleEndian(buf, 0);
      LittleEndian(buf, 4);
      LittleEndian(buf, 8);
      LittleEndian(buf, 12);
      LittleEndian(buf, 16);
      LittleEndian(buf, 20);
      LittleEndian(buf, 24);
    }
  }

  /** Every outcome of `decode`, exactly, from the bytes: a message comes back if and only if they are a
      segment that was written with the schema it is read with; otherwise why not. */
  lemma OutcomeFromBytes(registry: map<nat, Schema>, given: Option<Schema>, buf: seq<byte>, zero: bool)
    requires WellKeyed(registry)
    ensures var o := Decode(registry, given, buf, zero);
            && (o.NotDzFlat? <==> !StartsWithMagic(buf))
            && (o.HeaderBad? <==> StartsWithMagic(buf) && !IsSegment(buf))
            && (o.SchemaUnknown? <==> IsSegment(buf) && SchemaFor(registry, given, buf).None?)
            && (o.SchemaMismatch? <==>
                  && IsSegment(buf) && SchemaFor(registry, given, buf).Some?
                  && !WrittenWith(buf, SchemaFor(registry, given, buf).value))
            && (o.Accepted? <==>
                  && IsSegment(buf) && SchemaFor(registry, given, buf).Some?
                  && WrittenWith(buf, SchemaFor(registry, given, buf).value))
  {
    hide ParseHeader, HasMagic, DecodeFields, RootSize, End;
    MagicBytes(buf);
    HeaderBytesRead(buf);
  }

  /** What lies behind a reference, exactly: `n` elements at `off`, both read from the reference, when there
      are any and the last byte of them is inside the segment; otherwise the field is empty. */
  lemma BlockFromBytes(buf: seq<byte>, total: nat, at: nat, stride: nat)
    requires at + REF_SIZE <= total <= |buf| && stride > 0
    ensures var (off, n) := (U32At(buf, at), U32At(buf, at + 4));
            Block(buf, total, at, stride) == if n > 0 && 0 < off < total && off + n * stride <= total
                                             then Some((off, n)) else None
  {
    hide FromLE;
    LittleEndian(buf, at);
    LittleEndian(buf, at + 4);
    InBoundsMeans(total, U32At(buf, at), U32At(buf, at + 4), stride);
    TimesIsProduct(U32At(buf, at + 4), stride);
  }

  /** An array of scalars from arbitrary bytes: viewed, it is the bytes of its block; listed, values of the type,
      which are again those bytes, but for booleans, of which all except 0 become 1. */
  lemma ArrayFromBytes(b: Base, buf: seq<byte>, total: nat, at: nat, zero: bool)
    requires at + REF_SIZE <= total <= |buf|
    ensures var r := Block(buf, total, at, Size(b)); var vs := DecodeArray(b, buf, total, at, zero);
            var t := if b.Bool? && zero then UInt8 else b;
            && (r.None? ==> vs == [])
            && (r.Some? ==>
                  var bytes := buf[r.value.0..r.value.0 + Times(r.value.1, Size(b))];
                  && |vs| == r.value.1 && (forall v <- vs :: InRange(t, v))
                  && (!t.Bool? ==> EncodeInts(t, vs) == bytes)
                  && (t.Bool? ==>
                        && |bytes| == |vs|
                        && forall i :: 0 <= i < |vs| ==> vs[i] == if bytes[i] == 0 then 0 else 1))
  {
    hide Block, InRange, EncodeInts, DecodeInts, ViewInts;
    var r := Block(buf, total, at, Size(b));
    if r.Some? {
      var bytes := buf[r.value.0..r.value.0 + Times(r.value.1, Size(b))];
      if zero { ViewShowsBytes(b, r.value.1, bytes); } else { AnyBytesAreInts(b, r.value.1, bytes); }
    }
  }

  // ---------------------------------------------------------------- what a writer leaves, byte by byte

  lemma WordAt(h: seq<byte>, at: nat, n: nat, w: nat)
    requires at + n <= |h| && h[at..at + n] == ToLE(n, w) && (n == 2 || n == 4) && w < Pow256(n)
    ensures n == 2 ==> U16At(h, at) == w
    ensures n == 4 ==> U32At(h, at) == w
  {
    LERoundTrip(n, w);
    LittleEndian(h, at);
  }

  /** Every word of the header is at its place in the wire format; flags and the last word are 0. */
  lemma HeaderWords(hash: nat, rootSize: nat, total: nat, id: nat)
    requires hash < U32 && rootSize < U32 && total < U32 && id < U32
    ensures var h := HeaderBytes(hash, rootSize, total, id);
            && StartsWithMagic(h) && U32At(h, 4) == hash && U32At(h, 8) == 32 && U32At(h, 12) == rootSize
            && U32At(h, 16) == total && U16At(h, 20) == 1 && U16At(h, 22) == 0 && U32At(h, 24) == id
            && U32At(h, 28) == 0
  {
    hide ToLE, Pow256, U32At, U16At, StartsWithMagic;
    U32IsPow256();
    Pow256Of2();
    var h := HeaderBytes(hash, rootSize, total, id);
    assert h[..32] == h;
    HeaderParts(h, ToLE(4, MAGIC), ToLE(4, hash), ToLE(4, HEADER), ToLE(4, rootSize), ToLE(4, total),
                ToLE(2, LAYOUT_VER), ToLE(2, 0), ToLE(4, id), ToLE(4, 0));
    WordAt(h, 0, 4, MAGIC);
    WordAt(h, 4, 4, hash);
    WordAt(h, 8, 4, HEADER);
    WordAt(h, 12, 4, rootSize);
    WordAt(h, 16, 4, total);
    WordAt(h, 20, 2, LAYOUT_VER);
    WordAt(h, 22, 2, 0);
    WordAt(h, 24, 4, id);
    WordAt(h, 28, 4, 0);
    MagicWord(h);
  }

  lemma Pow256Of2()
    ensures Pow256(2) == 0x1_0000
  {
  }

  lemma MagicWord(h: seq<byte>)
    requires |h| >= 4 && U32At(h, 0) == 0x4C465A44
    ensures StartsWithMagic(h)
  {
  }

  /** An empty string or array takes no block: its reference is 8 zero bytes. */
  lemma EmptyIsZero(f: Field, v: Value, at: nat, w: Writer)
    requires FieldHasType(f, v) && Sane(w) && at + SizeOf(f) <= w.cur
    requires v == VBytes([]) || (v == VInts([]) && f.VarArray?) || v == VStrs([]) || v == VMsgs([])
    ensures EmitField(f, v, at, false, w) == Some(PutAt(w, at, Zeros(8)))
  {
    assert RefBytes(0, 0) == Zeros(8) by { assert ToLE(4, 0) == [0, 0, 0, 0]; }
  }

  /** Blocks start at multiples of 8, so that a view can be taken of any of them. */
  lemma BlocksAligned(bs: seq<byte>, w: Writer)
    requires Sane(w) && bs != [] && EmitBlock(bs, w).Some?
    ensures var (w', off) := EmitBlock(bs, w).value; off % 8 == 0 && w.cur <= off && w'.buf[off..off + |bs|] == bs
  {
    Align8(w.cur);
  }

  // ---------------------------------------------------------------- what comes back is a message

  lemma {:induction false} ElemsTyped(fs: Fields, buf: seq<byte>, total: nat, blk: nat, n: nat)
    requires blk + Times(n, RootSize(fs)) <= total <= |buf|
    ensures forall m <- DecodeElems(fs, buf, total, blk, n, false) :: HasType(fs, m)
    decreases fs, 1, n
  {
    hide Times, RootSize, DecodeFields, HasType, End;
    if n > 0 {
      ElemInside(n - 1, n, RootSize(fs));
      ElemsTyped(fs, buf, total, blk, n - 1);
      FieldsTyped(fs, buf, total, blk + Times(n - 1, RootSize(fs)), 0);
    }
  }

  lemma {:induction false} FieldTyped(f: Field, buf: seq<byte>, total: nat, at: nat)
    requires at + SizeOf(f) <= total <= |buf|
    ensures FieldHasType(f, DecodeField(f, buf, total, at, false))
    decreases f, 1, 0
  {
    hide DecodeFields, DecodeElems, DecodeStrs, DecodeBytes, DecodeInts, DecodeArray, FromLE, FromBits, InRange,
         HasType, RootSize, Block, EncodeInts, Times;
    if f.Scalar? {
      ScalarInRange(f.b, buf[at..at + Size(f.b)]);
    } else if f.FixedArray? {
      AnyBytesAreInts(f.b, f.count, buf[at..at + SizeOf(f)]);
    } else if f.VarArray? {
      ArrayFromBytes(f.b, buf, total, at, false);
    } else if f.Nested? {
      FieldsTyped(f.s.fields, buf, total, at, 0);
    } else if f.NestedArray? {
      var r := Block(buf, total, at, RootSize(f.s.fields));
      if r.Some? { ElemsTyped(f.s.fields, buf, total, r.value.0, r.value.1); }
    }
  }

  lemma {:induction false} FieldsTyped(fs: Fields, buf: seq<byte>, total: nat, root: nat, off: nat)
    requires root + End(fs, off) <= total <= |buf|
    ensures HasType(fs, DecodeFields(fs, buf, total, root, off, false))
    decreases fs, 0, 0
  {
    hide DecodeField, FieldHasType, SizeOf, AlignOf, AlignUp;
    if fs.Cons? {
      var at := AlignUp(off, AlignOf(fs.f));
      FieldTyped(fs.f, buf, total, root + at);
      FieldsTyped(fs.rest, buf, total, root, at + SizeOf(fs.f));
    }
  }

  /** Whatever bytes are accepted, what comes back (copied, not viewed) is a message of the schema they were
      read with: every scalar in range, every array of the length its schema fixes. */
  lemma AcceptedIsTyped(registry: map<nat, Schema>, given: Option<Schema>, buf: seq<byte>)
    requires WellKeyed(registry) && Decode(registry, given, buf, false).Accepted?
    ensures |buf| >= 32 && SchemaFor(registry, given, buf).Some?
    ensures HasType(SchemaFor(registry, given, buf).value.fields, Decode(registry, given, buf, false).m)
  {
    hide ParseHeader, HasMagic, DecodeFields, HasType;
    OutcomeFromBytes(registry, given, buf, false);
    HeaderBytesRead(buf);
    var s := SchemaFor(registry, given, buf).value;
    FieldsTyped(s.fields, buf, U32At(buf, 16), HEADER, 0);
  }
}
