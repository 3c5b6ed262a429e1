/** The receiving side as the Python module has it: the decoding loops, the schema registry and the
    counters of what came in. */
module DzFlatReceiver {
  import opened Basics
  import opened DzFlatWire
  import opened DzFlatSchema
  import opened DzFlatWriter
  import opened DzFlatDecoder
  import opened DzFlatOutcome
  import opened DzFlatCapacity
  import opened DzFlatRoundTrip

  function Prepend(vs: seq<Value>, rest: Values): Values {
    if vs == [] then rest else VCons(vs[0], Prepend(vs[1..], rest))
  }

  lemma {:induction false} PrependOne(vs: seq<Value>, v: Value, rest: Values)
    ensures Prepend(vs + [v], rest) == Prepend(vs, VCons(v, rest))
  {
    if vs != [] {
      PrependOne(vs[1..], v, rest);
      assert (vs + [v])[1..] == vs[1..] + [v];
    } else {
      assert vs + [v] == [v];
    }
  }

  method DecodeStrTable(buf: seq<byte>, total: nat, at: nat) returns (items: seq<seq<byte>>)
    requires at + REF_SIZE <= total <= |buf|
    ensures VStrs(items) == DecodeField(StrArray, buf, total, at, false)
  {
    hide DecodeBytes, Times, InBounds;
    var (off, n) := ReadRef(buf, at);
    items := [];
    if n == 0 || !InBounds(total, off, n, REF_SIZE) { return; }
    InBoundsMeans(total, off, n, REF_SIZE);
    TimesIsProduct(0, REF_SIZE);
    var i := 0;
    while i < n
      invariant i <= n && off + Times(i, REF_SIZE) <= total
      invariant items == DecodeStrs(buf, total, off, i)
    {
      ElemInside(i, n, REF_SIZE);
      items := items + [DecodeBytes(buf, total, off + Times(i, REF_SIZE))];
      i := i + 1;
    }
  }

  method DecodeMsgArray(s: Schema, buf: seq<byte>, total: nat, at: nat, zero: bool) returns (elems: seq<Values>)
    requires at + REF_SIZE <= total <= |buf|
    ensures VMsgs(elems) == DecodeField(NestedArray(s), buf, total, at, zero)
    decreases s.fields, 2
  {
    hide DecodeFields, Times, InBounds, RootSize, End, FromLE;
    var (off, n) := ReadRef(buf, at);
    elems := [];
    if n == 0 || !InBounds(total, off, n, RootSize(s.fields)) { return; }
    InBoundsMeans(total, off, n, RootSize(s.fields));
    TimesIsProduct(0, RootSize(s.fields));
    var i := 0;
    while i < n
      invariant i <= n && off + Times(i, RootSize(s.fields)) <= total
      invariant elems == DecodeElems(s.fields, buf, total, off, i, zero)
    {
      ElemInside(i, n, RootSize(s.fields));
      var m := DecodeRecord(s.fields, buf, total, off + Times(i, RootSize(s.fields)), zero);
      elems := elems + [m];
      i := i + 1;
    }
  }

  method DecodeOne(f: Field, buf: seq<byte>, total: nat, at: nat, zero: bool) returns (v: Value)
    requires at + SizeOf(f) <= total <= |buf|
    ensures v == DecodeField(f, buf, total, at, zero)
    decreases f, 3
  {
    hide DecodeInts, DecodeBytes, DecodeArray, DecodeFields, FromLE, RootSize, Times, Block, DecodeStrs, DecodeElems;
    match f {
      case Scalar(b) => v := VInt(FromBits(b, ReadLE(buf, at, Size(b))));
      case FixedArray(b, count) => v := VInts(DecodeInts(b, count, buf[at..at + SizeOf(f)]));
      case Str => v := VBytes(DecodeBytes(buf, total, at));
      case VarArray(b) => v := VInts(DecodeArray(b, buf, total, at, zero));
      case StrArray =>
        var items := DecodeStrTable(buf, total, at);
        v := VStrs(items);
      case Nested(s) =>
        var m := DecodeRecord(s.fields, buf, total, at, zero);
        v := VMsg(m);
      case NestedArray(s) =>
        var elems := DecodeMsgArray(s, buf, total, at, zero);
        v := VMsgs(elems);
    }
  }

  /** The loop over the fields of a record, each appended to what has been read so far. */
  method DecodeRecord(fs: Fields, buf: seq<byte>, total: nat, root: nat, zero: bool) returns (m: Values)
    requires root + End(fs, 0) <= total <= |buf|
    ensures m == DecodeFields(fs, buf, total, root, 0, zero)
    decreases fs, 1
  {
    hide AlignUp, AlignOf, SizeOf, DecodeField, RootSize;
    var out, rest, off: nat := [], fs, 0;
    while rest.Cons?
      invariant rest == fs || rest < fs
      invariant root + End(rest, off) <= total
      invariant DecodeFields(fs, buf, total, root, 0, zero) ==
                  Prepend(out, DecodeFields(rest, buf, total, root, off, zero))
      decreases rest
    {
      var at := AlignUp(off, AlignOf(rest.f));
      var v := DecodeOne(rest.f, buf, total, root + at, zero);
      off := at + SizeOf(rest.f);
      PrependOne(out, v, DecodeFields(rest.rest, buf, total, root, off, zero));
      out, rest := out + [v], rest.rest;
    }
    m := Prepend(out, VNil);
  }

  /** The registry of a process, and how many segments it has seen of each fate. */
  class Receiver {
    var byHash: map<nat, Schema>
    var accepted: nat
    var notDzFlat: nat
    var headerBad: nat
    var schemaUnknown: nat
    var schemaMismatch: nat

    /** The five counters, in the order of the outcomes. */
    ghost function Counts(): seq<nat>
      reads this
    {
      [accepted, notDzFlat, headerBad, schemaUnknown, schemaMismatch]
    }

    static ghost function Kind(o: Outcome): nat {
      match o
      case Accepted(_) => 0
      case NotDzFlat => 1
      case HeaderBad => 2
      case SchemaUnknown => 3
      case SchemaMismatch => 4
    }

    constructor ()
      ensures Valid() && byHash == map[] && Counts() == [0, 0, 0, 0, 0]
    {
      byHash := map[];
      accepted, notDzFlat, headerBad, schemaUnknown, schemaMismatch := 0, 0, 0, 0, 0;
    }

    ghost predicate Valid()
      reads this
    {
      WellKeyed(byHash)
    }

    method Register(s: Schema)
      requires Valid()
      modifies this`byHash
      ensures Valid() && byHash == old(byHash)[s.hash := s]
    {
      byHash := byHash[s.hash := s];
    }

    method ResetStats()
      modifies this
      ensures byHash == old(byHash) && Counts() == [0, 0, 0, 0, 0]
    {
      accepted, notDzFlat, headerBad, schemaUnknown, schemaMismatch := 0, 0, 0, 0, 0;
    }

    /** Exactly one counter moves, the one that tells why there is no message; each of them is told from
        the bytes of the buffer, and so is whether a message comes back. */
    method Decode(buf: seq<byte>, given: Option<Schema>, zero: bool) returns (r: Option<Values>)
      requires Valid()
      modifies this
      ensures byHash == old(byHash)
      ensures notDzFlat == old(notDzFlat) + (if StartsWithMagic(buf) then 0 else 1)
      ensures headerBad == old(headerBad) + (if StartsWithMagic(buf) && !IsSegment(buf) then 1 else 0)
      ensures schemaUnknown == old(schemaUnknown)
                + (if IsSegment(buf) && SchemaFor(byHash, given, buf).None? then 1 else 0)
      ensures schemaMismatch == old(schemaMismatch)
                + (if && IsSegment(buf) && SchemaFor(byHash, given, buf).Some?
                      && !WrittenWith(buf, SchemaFor(byHash, given, buf).value) then 1 else 0)
      ensures accepted == old(accepted) + (if r.Some? then 1 else 0)
      ensures r.Some? <==> && IsSegment(buf) && SchemaFor(byHash, given, buf).Some?
                           && WrittenWith(buf, SchemaFor(byHash, given, buf).value)
      ensures var o := DzFlatDecoder.Decode(byHash, given, buf, zero);
              && Counts() == old(Counts())[Kind(o) := old(Counts())[Kind(o)] + 1]
              && r == if o.Accepted? then Some(o.m) else None
    {
      hide ParseHeader, HasMagic, DecodeFields, RootSize, End, IsSegment, StartsWithMagic, SchemaFor, WrittenWith,
           WellKeyed;
      OutcomeFromBytes(byHash, given, buf, zero);
      var h := ParseHeader(buf);
      if h.None? {
        if HasMagic(buf) { headerBad := headerBad + 1; } else { notDzFlat := notDzFlat + 1; }
        return None;
      }
      var schema := given;
      if schema.None? {
        if h.value.hash !in byHash {
          schemaUnknown := schemaUnknown + 1;
          return None;
        }
        schema := Some(byHash[h.value.hash]);
      } else if schema.value.hash != h.value.hash {
        schemaMismatch := schemaMismatch + 1;
        return None;
      }
      if h.value.rootSize != RootSize(schema.value.fields) {
        schemaMismatch := schemaMismatch + 1;
        return None;
      }
      var m := DecodeRecord(schema.value.fields, buf, h.value.total, HEADER, zero);
      accepted := accepted + 1;
      return Some(m);
    }
  }

  /** A message written into a segment of its own size comes out again, once its schema is registered. */
  method Transfer(s: Schema, m: Values, seg: seq<byte>, id: nat, zero: bool) returns (back: Option<Values>)
    requires HasType(s.fields, m) && MsgSize(s.fields, m) < U32 && s.hash < U32 && id < U32
    requires |seg| == MsgSize(s.fields, m)
    ensures back == Some(m)
  {
    hide HasType, VarlenSize, RootSize, VarlenStart, DzFlatWriter.Write, DzFlatDecoder.Decode;
    WriteFits(s, m, seg, |seg|, id, false);
    var w := DzFlatWriter.Write(s, m, seg, |seg|, id, false);
    var rx := new Receiver();
    rx.Register(s);
    RoundTrip(s, m, seg, |seg|, id, false, rx.byHash, None, w.value.buf, zero);
    back := rx.Decode(w.value.buf, None, zero);
  }
}
