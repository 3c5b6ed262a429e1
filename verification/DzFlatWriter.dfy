/** The generated writer, as an interpreter over the schema. `Write` is stated for messages whose
    size is below 2^32; every block it reserves is a summand of that size, so the 32-bit casts in the
    generated code lose nothing there. The flag `always` is false in the generated code; true is the
    variant that clears every block of element records before filling it. */
module DzFlatWriter {
  import opened Basics
  import opened DzFlatWire
  import opened DzFlatSchema

  /** The segment, its capacity and the first free byte. */
  datatype Writer = Writer(buf: seq<byte>, cap: nat, cur: nat, ok: bool)

  predicate Sane(w: Writer) {
    w.ok && w.cur <= w.cap <= |w.buf|
  }

  /** The writer moved on; below the old first free byte only `[lo, hi)` was written, and nothing was
      from the new one on. */
  ghost predicate Grown(w: Writer, w': Writer, lo: nat, hi: nat) {
    && Ahead(w, w')
    && (forall p :: 0 <= p < w.cur && !(lo <= p < hi) ==> w'.buf[p] == w.buf[p])
    && (forall p :: w'.cur <= p < |w.buf| ==> w'.buf[p] == w.buf[p])
  }

  predicate Ahead(w: Writer, w': Writer) {
    Sane(w') && |w'.buf| == |w.buf| && w'.cap == w.cap && w.cur <= w'.cur
  }

  lemma GrownThen(w: Writer, w1: Writer, w2: Writer, lo: nat, hi: nat, lo1: nat, hi1: nat)
    requires Sane(w) && Grown(w, w1, lo, hi) && Grown(w1, w2, lo1, hi1)
    requires (lo <= lo1 && hi1 <= hi) || w.cur <= lo1
    ensures Grown(w, w2, lo, hi)
  {
  }

  lemma GrownWiden(w: Writer, w': Writer, lo: nat, hi: nat, lo1: nat, hi1: nat)
    requires Sane(w) && Grown(w, w', lo1, hi1) && ((lo <= lo1 && hi1 <= hi) || w.cur <= lo1 || hi1 <= lo1)
    ensures Grown(w, w', lo, hi)
  {
  }

  /** Writing one range, then the range after it. */
  lemma GrownBoth(w: Writer, w1: Writer, w2: Writer, lo: nat, at: nat, next: nat, hi: nat)
    requires Sane(w) && Grown(w, w1, at, next) && Grown(w1, w2, next, hi) && lo <= at <= next <= hi
    ensures Grown(w, w2, lo, hi)
  {
  }

  lemma GrownFacts(w: Writer, w': Writer, lo: nat, hi: nat)
    requires Sane(w) && Grown(w, w', lo, hi)
    ensures Sane(w') && w'.cap == w.cap && w.cur <= w'.cur <= |w'.buf|
  {
  }

  /** Place `n` bytes at the next multiple of 8, zeroing the gap; offset 0 is failure. */
  function Reserve(w: Writer, n: nat): (r: (Writer, nat))
    requires Sane(w)
    ensures r.1 != 0 ==> Grown(w, r.0, 0, 0) && r.1 == AlignUp(w.cur, 8) && r.0.cur == r.1 + n
  {
    var at := AlignUp(w.cur, 8) % U32;
    if at < w.cur || n > w.cap || at > w.cap - n then (w.(ok := false), 0)
    else (w.(buf := Put(w.buf, w.cur, Zeros(at - w.cur)), cur := at + n), at)
  }

  function PutAt(w: Writer, at: nat, bs: seq<byte>): (w': Writer)
    requires Sane(w) && at + |bs| <= w.cur
    ensures Grown(w, w', at, at + |bs|) && w'.cur == w.cur
  {
    w.(buf := Put(w.buf, at, bs))
  }

  /** A block of bytes of its own: nothing is placed for the empty one. */
  function EmitBlock(bs: seq<byte>, w: Writer): (r: Option<(Writer, nat)>)
    requires Sane(w)
    ensures r.Some? ==> Grown(w, r.value.0, 0, 0)
  {
    if bs == [] then Some((w, 0))
    else
      var (w1, off) := Reserve(w, |bs|);
      if off == 0 then None
      else
        GrownThen(w, w1, PutAt(w1, off, bs), 0, 0, off, off + |bs|);
        Some((PutAt(w1, off, bs), off))
  }

  /** Finish a block field: its reference goes into the record. */
  function PutRef(w: Writer, w1: Writer, at: nat, off: nat, cnt: nat): (w': Writer)
    requires Sane(w) && at + REF_SIZE <= w.cur && Grown(w, w1, 0, 0)
    ensures Grown(w, w', at, at + REF_SIZE) && w'.cur == w1.cur
  {
    GrownWiden(w, w1, at, at + REF_SIZE, 0, 0);
    GrownThen(w, w1, PutAt(w1, at, RefBytes(off, cnt)), at, at + REF_SIZE, at, at + REF_SIZE);
    PutAt(w1, at, RefBytes(off, cnt))
  }

  lemma RefGrows(w: Writer, w1: Writer, at: nat, off: nat, n: nat)
    requires Sane(w) && at + REF_SIZE <= w.cur && Grown(w, w1, 0, 0)
    ensures Grown(w1, PutRef(w, w1, at, off, n), at, at + REF_SIZE) && PutRef(w, w1, at, off, n).cur == w1.cur
  {
    hide RefBytes;
  }

  /** One field of a record and the rest of it. */
  lemma Step(fs: Fields, m: Values, off: nat)
    requires HasType(fs, m) && fs.Cons?
    ensures m.VCons? && FieldHasType(fs.f, m.v) && HasType(fs.rest, m.rest)
    ensures End(fs, off) == End(fs.rest, AlignUp(off, AlignOf(fs.f)) + SizeOf(fs.f))
  {
    hide FieldHasType, SizeOf, AlignOf, AlignUp;
  }

  /** The fields of a record at `root`, from layout position `off` on. */
  function EmitFields(fs: Fields, m: Values, root: nat, off: nat, always: bool, w: Writer): (r: Option<Writer>)
    requires HasType(fs, m) && Sane(w) && root + End(fs, off) <= w.cur
    ensures r.Some? ==> Ahead(w, r.value)
    decreases fs, 0, 0
  {
    if fs.Nil? then Some(w)
    else
      Step(fs, m, off);
      var at := AlignUp(off, AlignOf(fs.f));
      var r := EmitField(fs.f, m.v, root + at, always, w);
      if r.None? then None else EmitFields(fs.rest, m.rest, root, at + SizeOf(fs.f), always, r.value)
  }

  function EmitField(f: Field, v: Value, at: nat, always: bool, w: Writer): (r: Option<Writer>)
    requires FieldHasType(f, v) && Sane(w) && at + SizeOf(f) <= w.cur
    ensures r.Some? ==> Ahead(w, r.value)
    decreases f, 1, 0
  {
    match f
    case Scalar(b) => Some(PutAt(w, at, ScalarBytes(b, v.v)))
    case FixedArray(b, count) => Some(PutAt(w, at, EncodeInts(b, v.vs)))
    case Str => EmitBytes(v.bs, |v.bs|, at, w)
    case VarArray(b) => EmitBytes(EncodeInts(b, v.vs), |v.vs|, at, w)
    case StrArray => EmitStrArray(v.ss, at, w)
    case Nested(s) => EmitFields(s.fields, v.m, at, 0, always, w)
    case NestedArray(s) => EmitMsgArray(s.fields, v.ms, at, always, w)
  }

  function ScalarBytes(b: Base, v: int): (s: seq<byte>)
    requires InRange(b, v)
    ensures |s| == Size(b)
  {
    BitsRoundTrip(b, v);
    ToLE(Size(b), ToBits(b, v))
  }

  function EmitBytes(bs: seq<byte>, cnt: nat, at: nat, w: Writer): (r: Option<Writer>)
    requires Sane(w) && at + REF_SIZE <= w.cur
    ensures r.Some? ==> Grown(w, r.value, at, at + REF_SIZE)
  {
    var r := EmitBlock(bs, w);
    if r.None? then None else Some(PutRef(w, r.value.0, at, r.value.1, cnt))
  }

  function EmitStrArray(ss: seq<seq<byte>>, at: nat, w: Writer): (r: Option<Writer>)
    requires Sane(w) && at + REF_SIZE <= w.cur
    ensures r.Some? ==> Grown(w, r.value, at, at + REF_SIZE)
  {
    if ss == [] then Some(PutRef(w, w, at, 0, 0))
    else
      var n := Times(|ss|, REF_SIZE);
      var (w1, tbl) := Reserve(w, n);
      if tbl == 0 then None
      else
        var r := EmitStrs(ss, tbl, 0, w1);
        if r.None? then None
        else
          GrownThen(w, w1, r.value, 0, 0, tbl, tbl + n);
          Some(PutRef(w, r.value, at, tbl, |ss|))
  }

  /** The strings of a `string[]` from index `i` on, with their table entries. */
  function EmitStrs(ss: seq<seq<byte>>, tbl: nat, i: nat, w: Writer): (r: Option<Writer>)
    requires i <= |ss| && Sane(w) && tbl + Times(|ss|, REF_SIZE) <= w.cur
    ensures r.Some? ==> Grown(w, r.value, tbl + Times(i, REF_SIZE), tbl + Times(|ss|, REF_SIZE))
    decreases |ss| - i
  {
    if i == |ss| then Some(w)
    else
      ElemInside(i, |ss|, REF_SIZE);
      var at := tbl + Times(i, REF_SIZE);
      var r := EmitBytes(ss[i], |ss[i]|, at, w);
      if r.None? then None
      else
        var r1 := EmitStrs(ss, tbl, i + 1, r.value);
        if r1.None? then None
        else
          GrownBoth(w, r.value, r1.value, at, at, at + REF_SIZE, tbl + Times(|ss|, REF_SIZE));
          r1
  }

  function EmitMsgArray(fs: Fields, ms: seq<Values>, at: nat, always: bool, w: Writer): (r: Option<Writer>)
    requires (forall k :: 0 <= k < |ms| ==> HasType(fs, ms[k])) && Sane(w) && at + REF_SIZE <= w.cur
    ensures r.Some? ==> Ahead(w, r.value)
    decreases fs, 2, 0
  {
    if ms == [] then Some(PutRef(w, w, at, 0, 0))
    else
      var n := Times(|ms|, RootSize(fs));
      var (w1, blk) := Reserve(w, n);
      if blk == 0 then None
      else
        var r := EmitElems(fs, ms, blk, 0, always, Cleared(fs, blk, n, always, w1));
        if r.None? then None else Some(PutAt(r.value, at, RefBytes(blk, |ms|)))
  }

  /** Clear a block of element records, unless every byte of it is about to be written anyway. */
  function Cleared(fs: Fields, blk: nat, n: nat, always: bool, w: Writer): (w': Writer)
    requires Sane(w) && blk + n <= w.cur
    ensures Grown(w, w', blk, blk + n) && w'.cur == w.cur
  {
    if Tight(fs) && !always then w else PutAt(w, blk, Zeros(n))
  }

  /** The element records of a nested array from index `i` on. */
  function EmitElems(fs: Fields, ms: seq<Values>, blk: nat, i: nat, always: bool, w: Writer): (r: Option<Writer>)
    requires i <= |ms| && (forall k :: 0 <= k < |ms| ==> HasType(fs, ms[k]))
    requires Sane(w) && blk + Times(|ms|, RootSize(fs)) <= w.cur
    ensures r.Some? ==> Ahead(w, r.value)
    decreases fs, 1, |ms| - i
  {
    if i == |ms| then Some(w)
    else
      ElemInside(i, |ms|, RootSize(fs));
      var r := EmitFields(fs, ms[i], blk + Times(i, RootSize(fs)), 0, always, w);
      if r.None? then None else EmitElems(fs, ms, blk, i + 1, always, r.value)
  }

  lemma ElemInside(i: nat, n: nat, size: nat)
    requires i < n
    ensures Times(i, size) + size == Times(i + 1, size) <= Times(n, size)
  {
    TimesMonotone(i + 1, n, size);
  }

  const MAGIC: nat := 0x4C465A44
  const LAYOUT_VER: nat := 1

  /** `write_header`: magic, hash, root offset, root size, total size, version, flags, id, reserved. */
  function HeaderBytes(hash: nat, rootSize: nat, total: nat, id: nat): (s: seq<byte>)
    ensures |s| == HEADER
  {
    ToLE(4, MAGIC) + ToLE(4, hash) + ToLE(4, HEADER) + ToLE(4, rootSize) + ToLE(4, total)
    + ToLE(2, LAYOUT_VER) + ToLE(2, 0) + ToLE(4, id) + ToLE(4, 0)
  }

  lemma HeaderParts(buf: seq<byte>, a: seq<byte>, b: seq<byte>, c: seq<byte>, d: seq<byte>, e: seq<byte>,
                    f: seq<byte>, g: seq<byte>, h: seq<byte>, i: seq<byte>)
    requires |a| == |b| == |c| == |d| == |e| == |h| == |i| == 4 && |f| == |g| == 2
    requires |buf| >= 32 && buf[..32] == a + b + c + d + e + f + g + h + i
    ensures buf[0..4] == a && buf[4..8] == b && buf[8..12] == c && buf[12..16] == d && buf[16..20] == e
    ensures buf[20..22] == f && buf[22..24] == g && buf[24..28] == h && buf[28..32] == i
  {
    var s := buf[..32];
    assert buf[0..4] == s[0..4] && buf[4..8] == s[4..8] && buf[8..12] == s[8..12] && buf[12..16] == s[12..16];
    assert buf[16..20] == s[16..20] && buf[20..22] == s[20..22] && buf[22..24] == s[22..24];
    assert buf[24..28] == s[24..28] && buf[28..32] == s[28..32];
  }

  /** The writer `write` starts with: the record cleared, the variable part empty. */
  function Opened(fs: Fields, seg: seq<byte>, cap: nat): (w: Writer)
    requires VarlenStart(fs) <= cap <= |seg|
    ensures Sane(w) && w.cur == VarlenStart(fs) && w.cap == cap && |w.buf| == |seg|
    ensures forall p :: HEADER <= p < w.cur ==> w.buf[p] == 0
  {
    Writer(Put(seg, HEADER, Zeros(VarlenStart(fs) - HEADER)), cap, VarlenStart(fs), true)
  }

  /** The emitted `write`: the segment afterwards, None when it returns false. */
  function Write(s: Schema, m: Values, seg: seq<byte>, cap: nat, id: nat, always: bool): (r: Option<Writer>)
    requires HasType(s.fields, m) && MsgSize(s.fields, m) < U32
    requires cap <= |seg| && cap < U32
    ensures r.Some? ==> |r.value.buf| == |seg| && HEADER <= r.value.cur <= cap
  {
    if cap < VarlenStart(s.fields) then None
    else
      var r := EmitFields(s.fields, m, HEADER, 0, always, Opened(s.fields, seg, cap));
      if r.None? then None
      else Some(PutAt(r.value, 0, HeaderBytes(s.hash, RootSize(s.fields), r.value.cur, id)))
  }

  // ---------------------------------------------------------------- what emission leaves alone

  /** Emitting a record writes its fields and whatever comes after the old end, nothing else. */
  lemma {:induction false} FieldsGrow(fs: Fields, m: Values, root: nat, off: nat, always: bool, w: Writer)
    requires HasType(fs, m) && Sane(w) && root + End(fs, off) <= w.cur && EmitFields(fs, m, root, off, always, w).Some?
    ensures Grown(w, EmitFields(fs, m, root, off, always, w).value, root + off, root + End(fs, off))
    decreases fs, 0, 0
  {
    hide AlignOf, AlignUp, EmitField, End, FieldHasType, HasType, Sane, SizeOf;
    if fs.Cons? {
      Step(fs, m, off);
      var at := AlignUp(off, AlignOf(fs.f));
      var next := at + SizeOf(fs.f);
      var w1 := EmitField(fs.f, m.v, root + at, always, w).value;
      FieldGrows(fs.f, m.v, root + at, always, w);
      FieldsGrow(fs.rest, m.rest, root, next, always, w1);
      GrownBoth(w, w1, EmitFields(fs, m, root, off, always, w).value, root + off, root + at, root + next,
                root + End(fs, off));
    } else {
    }
  }

  lemma {:induction false} FieldGrows(f: Field, v: Value, at: nat, always: bool, w: Writer)
    requires FieldHasType(f, v) && Sane(w) && at + SizeOf(f) <= w.cur && EmitField(f, v, at, always, w).Some?
    ensures Grown(w, EmitField(f, v, at, always, w).value, at, at + SizeOf(f))
    decreases f, 1, 0
  {
    hide Ahead, EmitBytes, EmitFields, EmitMsgArray, EmitStrArray, EncodeInts, End, Grown, HasType, InRange, PutAt,
         RootSize, Sane, ScalarBytes, Size, Times;
    if f.Nested? {
      FieldsGrow(f.s.fields, v.m, at, 0, always, w);
      GrownWiden(w, EmitField(f, v, at, always, w).value, at, at + SizeOf(f), at, at + End(f.s.fields, 0));
    } else if f.NestedArray? {
      MsgArrayGrows(f.s.fields, v.ms, at, always, w);
    }
  }

  lemma {:induction false} MsgArrayGrows(fs: Fields, ms: seq<Values>, at: nat, always: bool, w: Writer)
    requires (forall k :: 0 <= k < |ms| ==> HasType(fs, ms[k])) && Sane(w) && at + REF_SIZE <= w.cur
    requires EmitMsgArray(fs, ms, at, always, w).Some?
    ensures Grown(w, EmitMsgArray(fs, ms, at, always, w).value, at, at + REF_SIZE)
    decreases fs, 2, 0
  {
    hide AlignUp, Cleared, EmitElems, End, HasType, PutAt, RefBytes, Reserve, RootSize, Sane, Times;
    if ms != [] {
      var n := Times(|ms|, RootSize(fs));
      var (w1, blk) := Reserve(w, n);
      var w2 := Cleared(fs, blk, n, always, w1);
      var w3 := EmitElems(fs, ms, blk, 0, always, w2).value;
      MsgBlockGrows(fs, ms, blk, always, w, w1);
      assert EmitMsgArray(fs, ms, at, always, w).value == PutRef(w, w3, at, blk, |ms|);
    }
  }

  lemma {:induction false} MsgBlockGrows(fs: Fields, ms: seq<Values>, blk: nat, always: bool, w: Writer, w1: Writer)
    requires (forall k :: 0 <= k < |ms| ==> HasType(fs, ms[k])) && Sane(w) && Grown(w, w1, 0, 0) && w.cur <= blk
    requires blk + Times(|ms|, RootSize(fs)) == w1.cur
    requires var w2 := Cleared(fs, blk, Times(|ms|, RootSize(fs)), always, w1);
             EmitElems(fs, ms, blk, 0, always, w2).Some?
    ensures var w2 := Cleared(fs, blk, Times(|ms|, RootSize(fs)), always, w1);
            var w3 := EmitElems(fs, ms, blk, 0, always, w2).value;
            Grown(w, w2, 0, 0) && Grown(w2, w3, blk, w1.cur) && Grown(w, w3, 0, 0)
    decreases fs, 1, |ms| + 1
  {
    hide Cleared, EmitElems, End, Grown, HasType, RootSize, Sane, Times;
    var n := Times(|ms|, RootSize(fs));
    GrownFacts(w, w1, 0, 0);
    var w2 := Cleared(fs, blk, n, always, w1);
    GrownFacts(w1, w2, blk, blk + n);
    GrownThen(w, w1, w2, 0, 0, blk, blk + n);
    ElemsGrow(fs, ms, blk, 0, always, w2);
    TimesIsProduct(0, RootSize(fs));
    GrownThen(w, w2, EmitElems(fs, ms, blk, 0, always, w2).value, 0, 0, blk, blk + n);
  }

  lemma {:induction false} ElemsGrow(fs: Fields, ms: seq<Values>, blk: nat, i: nat, always: bool, w: Writer)
    requires i <= |ms| && (forall k :: 0 <= k < |ms| ==> HasType(fs, ms[k]))
    requires Sane(w) && blk + Times(|ms|, RootSize(fs)) <= w.cur && EmitElems(fs, ms, blk, i, always, w).Some?
    ensures Grown(w, EmitElems(fs, ms, blk, i, always, w).value, blk + Times(i, RootSize(fs)),
                  blk + Times(|ms|, RootSize(fs)))
    decreases fs, 1, |ms| - i
  {
    hide EmitFields, End, HasType, RootSize, Sane, Times;
    if i < |ms| {
      ElemInside(i, |ms|, RootSize(fs));
      var at, end := blk + Times(i, RootSize(fs)), blk + Times(|ms|, RootSize(fs));
      var w1 := EmitFields(fs, ms[i], at, 0, always, w).value;
      FieldsGrow(fs, ms[i], at, 0, always, w);
      GrownWiden(w, w1, at, at + RootSize(fs), at, at + End(fs, 0));
      ElemsGrow(fs, ms, blk, i + 1, always, w1);
      GrownBoth(w, w1, EmitElems(fs, ms, blk, i, always, w).value, at, at, at + RootSize(fs), end);
    } else {
    }
  }

  /** The two steps of `EmitFields`. */
  lemma FieldsSteps(fs: Fields, m: Values, root: nat, off: nat, always: bool, w: Writer, w1: Writer, w2: Writer)
    requires HasType(fs, m) && fs.Cons? && Sane(w) && root + End(fs, off) <= w.cur
    requires m.VCons? && FieldHasType(fs.f, m.v) && AlignUp(off, AlignOf(fs.f)) + SizeOf(fs.f) <= End(fs, off)
    requires EmitField(fs.f, m.v, root + AlignUp(off, AlignOf(fs.f)), always, w) == Some(w1)
    requires EmitFields(fs, m, root, off, always, w) == Some(w2)
    ensures Sane(w1) && Sane(w2) && w1.cap == w.cap && w.cur <= w1.cur <= w2.cur
    ensures var at := root + AlignUp(off, AlignOf(fs.f));
            Grown(w, w1, at, at + SizeOf(fs.f)) && Grown(w1, w2, at + SizeOf(fs.f), root + End(fs, off))
  {
    hide AlignOf, AlignUp, EmitField, End, FieldHasType, Grown, HasType, Sane, SizeOf;
    Step(fs, m, off);
    var at := AlignUp(off, AlignOf(fs.f));
    FieldGrows(fs.f, m.v, root + at, always, w);
    FieldsGrow(fs.rest, m.rest, root, at + SizeOf(fs.f), always, w1);
  }

  /** The two steps of `EmitElems`. */
  lemma ElemsSteps(fs: Fields, ms: seq<Values>, blk: nat, i: nat, always: bool, w: Writer)
    requires i < |ms| && (forall k :: 0 <= k < |ms| ==> HasType(fs, ms[k]))
    requires Sane(w) && blk + Times(|ms|, RootSize(fs)) <= w.cur && EmitElems(fs, ms, blk, i, always, w).Some?
    ensures var (at, end) := (blk + Times(i, RootSize(fs)), blk + Times(|ms|, RootSize(fs)));
            var w2 := EmitElems(fs, ms, blk, i, always, w).value;
            && at + RootSize(fs) <= end && EmitFields(fs, ms[i], at, 0, always, w).Some?
            && var w1 := EmitFields(fs, ms[i], at, 0, always, w).value;
               && Ahead(w, w1) && Ahead(w1, w2) && Sane(w1) && Sane(w2) && w1.cap == w.cap && w.cur <= w1.cur <= w2.cur
               && Grown(w, w1, at, at + RootSize(fs)) && Grown(w1, w2, at + RootSize(fs), end)
  {
    hide EmitFields, End, Grown, HasType, RootSize, Sane, Times;
    ElemInside(i, |ms|, RootSize(fs));
    var at := blk + Times(i, RootSize(fs));
    var w1 := EmitFields(fs, ms[i], at, 0, always, w).value;
    FieldsGrow(fs, ms[i], at, 0, always, w);
    GrownWiden(w, w1, at, at + RootSize(fs), at, at + End(fs, 0));
    ElemsGrow(fs, ms, blk, i + 1, always, w1);
  }
}
