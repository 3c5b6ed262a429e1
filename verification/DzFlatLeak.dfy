/** Exactly which schemas have segments that depend on the message alone. */
module DzFlatLeak {
  import opened Basics
  import opened DzFlatWire
  import opened DzFlatSchema
  import opened DzFlatWriter
  import opened DzFlatCapacity
  import opened DzFlatDeterminism

  // ---------------------------------------------------------------- sufficiency

  /** The same result, and the same bytes in the segment. */
  ghost predicate SameSegment(r: Option<Writer>, q: Option<Writer>) {
    && (r.None? <==> q.None?)
    && (r.Some? ==> r.value.cur == q.value.cur && Agree(r.value.buf, q.value.buf, 0, r.value.cur))
  }

  /** Whatever the chunk held before, and whether or not every element block is cleared first, a
      determinate schema gives the same segment. */
  lemma SegmentIsTheMessage(s: Schema, m: Values, seg: seq<byte>, seg': seq<byte>, cap: nat, id: nat, a: bool, b: bool)
    requires HasType(s.fields, m) && MsgSize(s.fields, m) < U32 && cap <= |seg| && cap <= |seg'| && cap < U32
    requires Determinate(s.fields)
    ensures SameSegment(Write(s, m, seg, cap, id, a), Write(s, m, seg', cap, id, b))
  {
    hide EmitFields, HasType, VarlenSize, RootSize, Determinate, HeaderBytes, Covered, AlignUp, Put;
    var fs := s.fields;
    if VarlenStart(fs) <= cap {
      var (w, x) := (Opened(fs, seg, cap), Opened(fs, seg', cap));
      var (r, q) := (EmitFields(fs, m, HEADER, 0, a, w), EmitFields(fs, m, HEADER, 0, b, x));
      RecordTwin(fs, m, HEADER, a, b, w, x);
      if r.Some? {
        var bs := HeaderBytes(s.hash, RootSize(fs), r.value.cur, id);
        PutTwin(r.value, q.value, 0, bs);
        RootAgrees(fs, w, x, r.value, q.value);
        AgreeStays(r.value, q.value, PutAt(r.value, 0, bs), PutAt(q.value, 0, bs), 0, HEADER, HEADER, r.value.cur);
        AgreeJoin(PutAt(r.value, 0, bs).buf, PutAt(q.value, 0, bs).buf, 0, HEADER, r.value.cur);
      }
    }
  }

  lemma RootAgrees(fs: Fields, w: Writer, x: Writer, w': Writer, x': Writer)
    requires Twin(w, x) && Twin(w', x') && w.cur == VarlenStart(fs)
    requires Agree(w.buf, x.buf, HEADER, w.cur)
    requires Settles(w, x, Some(w'), Some(x'), HEADER, HEADER + RootSize(fs), Covered(fs))
    requires Grown(w, w', HEADER, HEADER + RootSize(fs)) && Grown(x, x', HEADER, HEADER + RootSize(fs))
    ensures Agree(w'.buf, x'.buf, HEADER, w'.cur)
  {
    hide RootSize, AlignUp;
    var top := HEADER + RootSize(fs);
    AgreeStays(w, x, w', x', HEADER, top, top, w.cur);
    AgreeJoin(w'.buf, x'.buf, HEADER, top, w.cur);
    AgreeJoin(w'.buf, x'.buf, HEADER, w.cur, w'.cur);
  }

  // ---------------------------------------------------------------- necessity

  /** Default values, with one element in every array of records. */
  function Probe(fs: Fields): (m: Values)
    ensures HasType(fs, m)
    decreases fs, 0
  {
    match fs
    case Nil => VNil
    case Cons(f, rest) => VCons(ProbeValue(f), Probe(rest))
  }

  function ProbeValue(f: Field): (v: Value)
    ensures FieldHasType(f, v)
    decreases f, 1
  {
    match f
    case Scalar(b) => VInt(0)
    case FixedArray(b, count) => VInts(seq(count, _ => 0))
    case Str => VBytes([])
    case VarArray(b) => VInts([])
    case StrArray => VStrs([])
    case Nested(s) => VMsg(Probe(s.fields))
    case NestedArray(s) => VMsgs([Probe(s.fields)])
  }

  /** A byte of the record that emission leaves alone. */
  function Hole(fs: Fields): nat
    requires Tight(fs) && !Covered(fs)
    decreases fs, 1
  {
    if fs.Nil? then 0 else InlineHole(fs, 0)
  }

  function InlineHole(fs: Fields, off: nat): nat
    requires AllTight(fs) && !InlineCovered(fs)
    decreases fs, 0
  {
    var at := AlignUp(off, AlignOf(fs.f));
    if fs.f.Nested? && !Covered(fs.f.s.fields) then at + Hole(fs.f.s.fields)
    else InlineHole(fs.rest, at + SizeOf(fs.f))
  }

  lemma {:induction false} HoleInside(fs: Fields)
    requires Tight(fs) && !Covered(fs)
    ensures Hole(fs) < RootSize(fs)
    decreases fs, 1
  {
    hide AllTight, End, InlineCovered, InlineHole, RootSize, SumSizes;
    if fs.Cons? { InlineHoleInside(fs, 0); }
  }

  lemma EndStep(fs: Fields, off: nat)
    requires fs.Cons?
    ensures End(fs, off) == End(fs.rest, AlignUp(off, AlignOf(fs.f)) + SizeOf(fs.f))
  {
    hide AlignUp, AlignOf, SizeOf;
  }

  lemma {:induction false} InlineHoleInside(fs: Fields, off: nat)
    requires AllTight(fs) && !InlineCovered(fs)
    ensures off <= InlineHole(fs, off) < End(fs, off)
    decreases fs, 0
  {
    hide AlignOf, AlignUp, Covered, End, Hole, RootSize, Size, Tight, Times;
    EndStep(fs, off);
    var at := AlignUp(off, AlignOf(fs.f));
    if fs.f.Nested? && !Covered(fs.f.s.fields) {
      assert SizeOf(fs.f) == RootSize(fs.f.s.fields);
      HoleInside(fs.f.s.fields);
    } else {
      InlineHoleInside(fs.rest, at + SizeOf(fs.f));
    }
  }

  lemma {:induction false} HoleStays(fs: Fields, m: Values, root: nat, a: bool, w: Writer)
    requires Tight(fs) && !Covered(fs) && HasType(fs, m) && Sane(w) && root + RootSize(fs) <= w.cur
    requires EmitFields(fs, m, root, 0, a, w).Some? && Hole(fs) < RootSize(fs)
    ensures EmitFields(fs, m, root, 0, a, w).value.buf[root + Hole(fs)] == w.buf[root + Hole(fs)]
    decreases fs, 1
  {
    hide Ahead, AlignOf, AlignUp, AllTight, EmitField, End, FieldHasType, HasType, InlineCovered, InlineHole,
         RootSize, Sane, SizeOf, SumSizes;
    if fs.Cons? {
      InlineHoleInside(fs, 0);
      InlineHoleStays(fs, m, root, 0, a, w);
    }
  }

  lemma {:induction false} InlineHoleStays(fs: Fields, m: Values, root: nat, off: nat, a: bool, w: Writer)
    requires AllTight(fs) && !InlineCovered(fs) && HasType(fs, m) && Sane(w) && root + End(fs, off) <= w.cur
    requires EmitFields(fs, m, root, off, a, w).Some? && off <= InlineHole(fs, off) < End(fs, off)
    ensures EmitFields(fs, m, root, off, a, w).value.buf[root + InlineHole(fs, off)]
            == w.buf[root + InlineHole(fs, off)]
    decreases fs, 0
  {
    hide Ahead, AlignOf, AlignUp, Covered, EmitBytes, EmitMsgArray, EmitStrArray, EncodeInts, End, Grown, HasType,
         Hole, InRange, PutAt, RootSize, Sane, ScalarBytes, Size, Tight, Times;
    Step(fs, m, off);
    var f := fs.f;
    var at := AlignUp(off, AlignOf(f));
    var next := at + SizeOf(f);
    var w1 := EmitField(f, m.v, root + at, a, w).value;
    var w2 := EmitFields(fs, m, root, off, a, w).value;
    FieldsSteps(fs, m, root, off, a, w, w1, w2);
    if f.Nested? && !Covered(f.s.fields) {
      HoleInside(f.s.fields);
      HoleStays(f.s.fields, m.v.m, root + at, a, w);
      Untouched(w1, w2, root + next, root + End(fs, off), root + at + Hole(f.s.fields));
    } else {
      InlineHoleInside(fs.rest, next);
      InlineHoleStays(fs.rest, m.rest, root, next, a, w1);
      Untouched(w, w1, root + at, root + next, root + InlineHole(fs.rest, next));
    }
  }

  lemma Untouched(w: Writer, w': Writer, lo: nat, hi: nat, p: nat)
    requires Sane(w) && Grown(w, w', lo, hi)
    requires (p < w.cur && !(lo <= p < hi)) || w'.cur <= p < |w.buf|
    ensures p < |w'.buf| == |w.buf| && w'.buf[p] == w.buf[p]
  {
  }

  /** Byte `p`, beyond the old end, still has the contents it had. */
  ghost predicate Leaks(w: Writer, r: Option<Writer>, p: nat) {
    r.Some? ==> w.cur <= p < r.value.cur <= |r.value.buf| == |w.buf| && r.value.buf[p] == w.buf[p]
  }

  lemma LeakStays(w: Writer, w1: Writer, w2: Writer, lo: nat, hi: nat, p: nat)
    requires Sane(w) && Sane(w1) && Leaks(w, Some(w1), p) && Grown(w1, w2, lo, hi) && hi <= w.cur
    ensures Leaks(w, Some(w2), p)
  {
  }

  lemma LeakLater(w: Writer, w1: Writer, r: Option<Writer>, lo: nat, hi: nat, p: nat)
    requires Sane(w) && Grown(w, w1, lo, hi) && Leaks(w1, r, p)
    ensures Leaks(w, r, p)
  {
  }

  /** For a schema that is not determinate, one position leaks in every run. */
  lemma {:induction false} FieldsLeak(fs: Fields, root: nat, off: nat, w: Writer, x: Writer) returns (p: nat)
    requires !Determinate(fs) && Twin(w, x) && root + End(fs, off) <= w.cur
    ensures Leaks(w, EmitFields(fs, Probe(fs), root, off, false, w), p)
    ensures Leaks(x, EmitFields(fs, Probe(fs), root, off, false, x), p)
    decreases fs, 0
  {
    hide Ahead, AlignOf, AlignUp, EmitField, End, FieldCovered, FieldDeterminate, FieldHasType, Grown, HasType,
         ProbeValue, Sane, Settles, SizeOf;
    Step(fs, Probe(fs), off);
    var (f, v) := (fs.f, ProbeValue(fs.f));
    var at := AlignUp(off, AlignOf(f));
    var next := at + SizeOf(f);
    var (r, q) := (EmitField(f, v, root + at, false, w), EmitField(f, v, root + at, false, x));
    if FieldDeterminate(f) {
      FieldTwin(f, v, root + at, false, false, w, x);
      if r.Some? {
        FieldGrows(f, v, root + at, false, w);
        FieldGrows(f, v, root + at, false, x);
        GrownFacts(w, r.value, root + at, root + next);
        p := FieldsLeak(fs.rest, root, next, r.value, q.value);
        LeakLater(w, r.value, EmitFields(fs.rest, Probe(fs.rest), root, next, false, r.value), root + at,
                  root + next, p);
        LeakLater(x, q.value, EmitFields(fs.rest, Probe(fs.rest), root, next, false, q.value), root + at,
                  root + next, p);
      } else {
        p := 0;
      }
    } else {
      p := FieldLeaks(f, root + at, w, x);
      RestLeaks(fs, root, off, w, p);
      RestLeaks(fs, root, off, x, p);
    }
  }

  lemma RestLeaks(fs: Fields, root: nat, off: nat, w: Writer, p: nat)
    requires fs.Cons? && Sane(w) && root + End(fs, off) <= w.cur
    requires var at := AlignUp(off, AlignOf(fs.f));
             root + at + SizeOf(fs.f) <= w.cur && Leaks(w, EmitField(fs.f, ProbeValue(fs.f), root + at, false, w), p)
    ensures Leaks(w, EmitFields(fs, Probe(fs), root, off, false, w), p)
  {
    hide Ahead, AlignOf, AlignUp, EmitField, End, FieldHasType, Grown, HasType, ProbeValue, Sane, SizeOf;
    Step(fs, Probe(fs), off);
    var at := AlignUp(off, AlignOf(fs.f));
    var next := at + SizeOf(fs.f);
    var r := EmitField(fs.f, ProbeValue(fs.f), root + at, false, w);
    var q := EmitFields(fs, Probe(fs), root, off, false, w);
    if q.Some? {
      FieldsSteps(fs, Probe(fs), root, off, false, w, r.value, q.value);
      LeakStays(w, r.value, q.value, root + next, root + End(fs, off), p);
    } else {
    }
  }

  lemma {:induction false} FieldLeaks(f: Field, at: nat, w: Writer, x: Writer) returns (p: nat)
    requires !FieldDeterminate(f) && Twin(w, x) && at + SizeOf(f) <= w.cur
    ensures Leaks(w, EmitField(f, ProbeValue(f), at, false, w), p)
    ensures Leaks(x, EmitField(f, ProbeValue(f), at, false, x), p)
    decreases f, 1
  {
    hide Ahead, Covered, Determinate, EmitBytes, EmitFields, EmitMsgArray, EmitStrArray, EncodeInts, End,
         FieldHasType, Grown, HasType, InRange, Leaks, Probe, PutAt, RootSize, Sane, ScalarBytes, Size, Tight,
         Times, Twin;
    if f.Nested? {
      p := FieldsLeak(f.s.fields, at, 0, w, x);
    } else {
      p := ArrayLeaks(f.s.fields, at, w, x);
    }
  }

  /** One element, alone in its block. */
  lemma OneElem(fs: Fields, m: Values, blk: nat, w: Writer)
    requires HasType(fs, m) && Sane(w) && blk + RootSize(fs) <= w.cur
    ensures Times(1, RootSize(fs)) == RootSize(fs)
    ensures EmitElems(fs, [m], blk, 0, false, w) == EmitFields(fs, m, blk, 0, false, w)
  {
    hide EmitFields, HasType, RootSize, End;
    TimesIsProduct(1, RootSize(fs));
    TimesIsProduct(0, RootSize(fs));
    var r := EmitFields(fs, m, blk, 0, false, w);
    if r.Some? { assert EmitElems(fs, [m], blk, 1, false, r.value) == r; }
  }

  lemma {:induction false} ArrayLeaks(fs: Fields, at: nat, w: Writer, x: Writer) returns (p: nat)
    requires Twin(w, x) && at + REF_SIZE <= w.cur && ((Tight(fs) && !Covered(fs)) || !Determinate(fs))
    ensures Leaks(w, EmitMsgArray(fs, [Probe(fs)], at, false, w), p)
    ensures Leaks(x, EmitMsgArray(fs, [Probe(fs)], at, false, x), p)
    decreases fs, 1
  {
    hide Agree, Ahead, AlignUp, Cleared, Covered, Determinate, EmitElems, EmitFields, End, Grown, HasType, Hole,
         Probe, PutAt, PutRef, RefBytes, Reserve, RootSize, Sane, Tight, Times;
    var n := RootSize(fs);
    TimesIsProduct(1, n);
    ReserveTwin(w, x, n);
    var ((w1, blk), (x1, _)) := (Reserve(w, n), Reserve(x, n));
    if blk == 0 {
      p := 0;
    } else {
      var (w2, x2) := (Cleared(fs, blk, n, false, w1), Cleared(fs, blk, n, false, x1));
      if Tight(fs) && !Covered(fs) {
        p := blk + Hole(fs);
        HoleLeaks(fs, at, w);
        HoleLeaks(fs, at, x);
      } else {
        GrownFacts(w1, w2, blk, blk + n);
        GrownFacts(x1, x2, blk, blk + n);
        p := FieldsLeak(fs, blk, 0, w2, x2);
        ElemLeaks(fs, at, w, p);
        ElemLeaks(fs, at, x, p);
      }
    }
  }

  /** Reserving leaves what the block held. */
  lemma ReservedStays(w: Writer, n: nat)
    requires Sane(w) && Reserve(w, n).1 != 0
    ensures var (w1, blk) := Reserve(w, n);
            w.cur <= blk && |w1.buf| == |w.buf| && forall p :: blk <= p < |w.buf| ==> w1.buf[p] == w.buf[p]
  {
  }

  lemma HoleLeaks(fs: Fields, at: nat, w: Writer)
    requires Sane(w) && at + REF_SIZE <= w.cur && Tight(fs) && !Covered(fs) && Reserve(w, RootSize(fs)).1 != 0
    ensures Leaks(w, EmitMsgArray(fs, [Probe(fs)], at, false, w), Reserve(w, RootSize(fs)).1 + Hole(fs))
  {
    hide EmitFields, EmitElems, RootSize, Tight, Covered, PutRef, AlignUp, Times, Hole, RefBytes, End, HasType, Probe,
         Reserve;
    var n := RootSize(fs);
    ReservedStays(w, n);
    var (w1, blk) := Reserve(w, n);
    HoleInside(fs);
    OneElem(fs, Probe(fs), blk, w1);
    var r := EmitFields(fs, Probe(fs), blk, 0, false, w1);
    if r.Some? {
      HoleStays(fs, Probe(fs), blk, false, w1);
      FieldsGrow(fs, Probe(fs), blk, 0, false, w1);
      GrownWiden(w1, r.value, blk, blk + n, blk, blk + End(fs, 0));
      GrownThen(w, w1, r.value, 0, 0, blk, blk + n);
      RefGrows(w, r.value, at, blk, 1);
    }
  }

  lemma ElemLeaks(fs: Fields, at: nat, w: Writer, p: nat)
    requires Sane(w) && at + REF_SIZE <= w.cur && Reserve(w, RootSize(fs)).1 != 0
    requires var (w1, blk) := Reserve(w, RootSize(fs));
             var w2 := Cleared(fs, blk, RootSize(fs), false, w1);
             Leaks(w2, EmitFields(fs, Probe(fs), blk, 0, false, w2), p)
    ensures Leaks(w, EmitMsgArray(fs, [Probe(fs)], at, false, w), p)
  {
    hide EmitFields, EmitElems, RootSize, Cleared, PutRef, AlignUp, Times, Reserve;
    var n := RootSize(fs);
    var (w1, blk) := Reserve(w, n);
    var w2 := Cleared(fs, blk, n, false, w1);
    OneElem(fs, Probe(fs), blk, w2);
    var r := EmitFields(fs, Probe(fs), blk, 0, false, w2);
    if r.Some? {
      FieldsGrow(fs, Probe(fs), blk, 0, false, w2);
      GrownWiden(w2, r.value, blk, blk + n, blk, blk + End(fs, 0));
      GrownThen(w, w1, w2, 0, 0, blk, blk + n);
      GrownThen(w, w2, r.value, 0, 0, blk, blk + n);
      RefGrows(w, r.value, at, blk, 1);
    }
  }

  // ---------------------------------------------------------------- both directions

  /** The bytes of every segment depend on nothing the chunk held before. */
  ghost predicate ChunkIndependent(s: Schema) {
    forall m: Values, seg: seq<byte>, seg': seq<byte>, cap: nat, id: nat ::
      HasType(s.fields, m) && MsgSize(s.fields, m) < U32 && cap <= |seg| && cap <= |seg'| && cap < U32 ==>
        SameSegment(Write(s, m, seg, cap, id, false), Write(s, m, seg', cap, id, false))
  }

  lemma ProbeTells(s: Schema)
    requires !Determinate(s.fields) && MsgSize(s.fields, Probe(s.fields)) < U32
    ensures !ChunkIndependent(s)
  {
    hide EmitFields, HasType, VarlenSize, RootSize, Determinate, HeaderBytes, Seamless, AlignUp, Probe, End;
    var (fs, m) := (s.fields, Probe(s.fields));
    var cap := MsgSize(fs, m);
    var seg, seg' := seq(cap, _ => 0 as byte), seq(cap, _ => 1 as byte);
    var (w, x) := (Opened(fs, seg, cap), Opened(fs, seg', cap));
    var p := FieldsLeak(fs, HEADER, 0, w, x);
    WriteFits(s, m, seg, cap, 0, false);
    WriteFits(s, m, seg', cap, 0, false);
    var (r, q) := (Write(s, m, seg, cap, 0, false), Write(s, m, seg', cap, 0, false));
    assert r.value.buf[p] == seg[p] && q.value.buf[p] == seg'[p];
    assert !SameSegment(r, q);
  }

  /** For every schema whose probe message fits 32 bits: its segments are functions of the message if
      and only if no element type that counts as tight has an empty record inlined in it. */
  lemma ChunkIndependentIff(s: Schema)
    requires MsgSize(s.fields, Probe(s.fields)) < U32
    ensures ChunkIndependent(s) <==> Determinate(s.fields)
  {
    hide Determinate, HasType, MsgSize, Probe, SameSegment, Write;
    if Determinate(s.fields) {
      forall m: Values, seg: seq<byte>, seg': seq<byte>, cap: nat, id: nat
        | HasType(s.fields, m) && MsgSize(s.fields, m) < U32 && cap <= |seg| && cap <= |seg'| && cap < U32
        ensures SameSegment(Write(s, m, seg, cap, id, false), Write(s, m, seg', cap, id, false))
      {
        SegmentIsTheMessage(s, m, seg, seg', cap, id, false, false);
      }
    } else {
      ProbeTells(s);
    }
  }

  lemma EmptyElementSize(f: Field, p: Values)
    requires f == NestedArray(Schema(0, Nil)) && p == VNil
    ensures HasType(Cons(f, Nil), VCons(VMsgs([p]), VNil))
    ensures MsgSize(Cons(f, Nil), VCons(VMsgs([p]), VNil)) < 100
  {
    hide AlignUp;
    TimesIsProduct(1, 8);
    assert End(Cons(f, Nil), 0) == AlignUp(0, 4) + 8;
    assert RootSize(Cons(f, Nil)) < 24;
    assert MsgsVarlen(Nil, [p]) == 0;
    assert FieldVarlen(f, VMsgs([p])) < 16;
  }

  /** The smallest such schema: an array of messages without fields. The expression computed for the
      empty type calls it tight, so its 8 bytes are neither cleared nor written. */
  lemma EmptyElementLeaks(hash: nat)
    ensures Tight(Nil) && !Covered(Nil)
    ensures !ChunkIndependent(Schema(hash, Cons(NestedArray(Schema(0, Nil)), Nil)))
  {
    hide MsgSize, HasType, ChunkIndependent;
    var f := NestedArray(Schema(0, Nil));
    EmptyElementSize(f, Probe(Nil));
    assert Probe(Cons(f, Nil)) == VCons(VMsgs([Probe(Nil)]), VNil);
    ProbeTells(Schema(hash, Cons(f, Nil)));
  }
}
