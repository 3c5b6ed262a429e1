/** Capacity: a segment of `size(m)` bytes is always enough, and is used up to the last alignment gap. */
module DzFlatCapacity {
  import opened Basics
  import opened DzFlatWire
  import opened DzFlatSchema
  import opened DzFlatWriter

  /** There is room for `n` more bytes, `n` a multiple of 8. */
  predicate Room(w: Writer, n: nat) {
    Sane(w) && 0 < w.cur && w.cap < U32 && AlignUp(w.cur, 8) + n <= w.cap
  }

  /** Emission succeeded and took `n` bytes, counting up to the next multiple of 8. */
  predicate Took(w: Writer, r: Option<Writer>, n: nat) {
    r.Some? && Sane(r.value) && r.value.cap == w.cap && w.cur <= r.value.cur
    && AlignUp(r.value.cur, 8) == AlignUp(w.cur, 8) + n
  }

  lemma {:induction false} GapPeriodic(k: nat, n: nat)
    requires k % 8 == 0
    ensures Gap(k + n, 8) == Gap(n, 8)
  {
    if k > 0 {
      assert k >= 8 && (k - 8) % 8 == 0;
      GapPeriodic(k - 8, n);
    }
  }

  lemma AlignUpSum(a: nat, n: nat)
    ensures AlignUp(AlignUp(a, 8) + n, 8) == AlignUp(a, 8) + AlignUp(n, 8)
  {
    hide Gap;
    Align8(a);
    GapPeriodic(AlignUp(a, 8), n);
  }

  lemma ReserveFits(w: Writer, n: nat)
    requires n > 0 && Room(w, AlignUp(n, 8))
    ensures var r := Reserve(w, n); r.1 != 0 && Took(w, Some(r.0), AlignUp(n, 8))
  {
    hide AlignUp;
    AlignUpSum(w.cur, n);
  }

  lemma BytesFit(bs: seq<byte>, cnt: nat, at: nat, w: Writer)
    requires Room(w, AlignUp(|bs|, 8)) && at + REF_SIZE <= w.cur
    ensures Took(w, EmitBytes(bs, cnt, at, w), AlignUp(|bs|, 8))
  {
    hide AlignUp, Reserve, RefBytes, Put;
    if bs != [] {
      ReserveFits(w, |bs|);
    } else {
      Align8(0);
    }
  }

  lemma {:induction false} StrsFit(ss: seq<seq<byte>>, tbl: nat, i: nat, w: Writer)
    requires i <= |ss| && tbl + Times(|ss|, REF_SIZE) <= w.cur && Room(w, StrsVarlen(ss[i..]))
    ensures Took(w, EmitStrs(ss, tbl, i, w), StrsVarlen(ss[i..]))
    decreases |ss| - i
  {
    hide AlignUp, EmitBytes, Times;
    if i < |ss| {
      assert ss[i..][0] == ss[i] && ss[i..][1..] == ss[i + 1..];
      ElemInside(i, |ss|, REF_SIZE);
      var at := tbl + Times(i, REF_SIZE);
      BytesFit(ss[i], |ss[i]|, at, w);
      StrsFit(ss, tbl, i + 1, EmitBytes(ss[i], |ss[i]|, at, w).value);
    }
  }

  lemma StrTableFits(ss: seq<seq<byte>>, w: Writer)
    requires ss != [] && Room(w, AlignUp(Times(|ss|, REF_SIZE), 8) + StrsVarlen(ss))
    ensures var (w1, tbl) := Reserve(w, Times(|ss|, REF_SIZE));
            tbl != 0 && Took(w, EmitStrs(ss, tbl, 0, w1), AlignUp(Times(|ss|, REF_SIZE), 8) + StrsVarlen(ss))
  {
    hide AlignUp, Reserve, EmitStrs, Times, StrsVarlen;
    ReserveFits(w, Times(|ss|, REF_SIZE));
    var (w1, tbl) := Reserve(w, Times(|ss|, REF_SIZE));
    assert ss[0..] == ss;
    StrsFit(ss, tbl, 0, w1);
  }

  lemma NoStrsFit(at: nat, w: Writer)
    requires at + REF_SIZE <= w.cur && Room(w, 0)
    ensures Took(w, EmitStrArray([], at, w), 0)
    ensures AlignUp(Times(0, REF_SIZE), 8) + StrsVarlen([]) == 0
  {
    Align8(0);
  }

  lemma SomeStrsFit(ss: seq<seq<byte>>, at: nat, w: Writer)
    requires ss != [] && at + REF_SIZE <= w.cur && Room(w, AlignUp(Times(|ss|, REF_SIZE), 8) + StrsVarlen(ss))
    ensures Took(w, EmitStrArray(ss, at, w), AlignUp(Times(|ss|, REF_SIZE), 8) + StrsVarlen(ss))
  {
    hide AlignUp, EmitStrs, Grown, Put, RefBytes, Reserve, StrsVarlen, Times;
    StrTableFits(ss, w);
  }

  lemma StrArrayFits(ss: seq<seq<byte>>, at: nat, w: Writer)
    requires at + REF_SIZE <= w.cur && Room(w, AlignUp(Times(|ss|, REF_SIZE), 8) + StrsVarlen(ss))
    ensures Took(w, EmitStrArray(ss, at, w), AlignUp(Times(|ss|, REF_SIZE), 8) + StrsVarlen(ss))
  {
    hide AlignUp, EmitStrArray, Grown, Sane, StrsVarlen, Times, Took;
    if ss != [] {
      SomeStrsFit(ss, at, w);
    } else {
      NoStrsFit(at, w);
    }
  }

  lemma {:induction false} ElemsFit(fs: Fields, ms: seq<Values>, blk: nat, i: nat, always: bool, w: Writer)
    requires i <= |ms| && (forall k :: 0 <= k < |ms| ==> HasType(fs, ms[k]))
    requires blk + Times(|ms|, RootSize(fs)) <= w.cur && Room(w, MsgsVarlen(fs, ms[i..]))
    ensures Took(w, EmitElems(fs, ms, blk, i, always, w), MsgsVarlen(fs, ms[i..]))
    decreases fs, 1, |ms| - i
  {
    hide EmitFields, HasType, VarlenSize, RootSize, AlignUp, Times;
    if i < |ms| {
      assert ms[i..][0] == ms[i] && ms[i..][1..] == ms[i + 1..];
      ElemInside(i, |ms|, RootSize(fs));
      var at := blk + Times(i, RootSize(fs));
      FieldsFit(fs, ms[i], at, 0, always, w);
      ElemsFit(fs, ms, blk, i + 1, always, EmitFields(fs, ms[i], at, 0, always, w).value);
    }
  }

  lemma {:induction false} MsgArrayFits(fs: Fields, ms: seq<Values>, at: nat, always: bool, w: Writer)
    requires (forall k :: 0 <= k < |ms| ==> HasType(fs, ms[k])) && at + REF_SIZE <= w.cur
    requires Room(w, AlignUp(Times(|ms|, RootSize(fs)), 8) + MsgsVarlen(fs, ms))
    ensures Took(w, EmitMsgArray(fs, ms, at, always, w), AlignUp(Times(|ms|, RootSize(fs)), 8) + MsgsVarlen(fs, ms))
    decreases fs, 2, 0
  {
    hide EmitElems, HasType, RootSize, AlignUp, Times, Cleared, Reserve, RefBytes, Put;
    if ms != [] {
      var n := Times(|ms|, RootSize(fs));
      ReserveFits(w, n);
      var (w1, blk) := Reserve(w, n);
      assert ms[0..] == ms;
      ElemsFit(fs, ms, blk, 0, always, Cleared(fs, blk, n, always, w1));
    } else {
      TimesIsProduct(0, RootSize(fs));
      Align8(0);
    }
  }

  lemma {:induction false} FieldFits(f: Field, v: Value, at: nat, always: bool, w: Writer)
    requires FieldHasType(f, v) && at + SizeOf(f) <= w.cur && Room(w, FieldVarlen(f, v))
    ensures Took(w, EmitField(f, v, at, always, w), FieldVarlen(f, v))
    decreases f, 1, 0
  {
    hide EmitFields, EmitMsgArray, EmitStrArray, EmitBytes, HasType, VarlenSize, AlignUp, EncodeInts, Times,
         StrsVarlen, MsgsVarlen;
    if f.Str? {
      BytesFit(v.bs, |v.bs|, at, w);
    } else if f.VarArray? {
      BytesFit(EncodeInts(f.b, v.vs), |v.vs|, at, w);
    } else if f.StrArray? {
      StrArrayFits(v.ss, at, w);
    } else if f.Nested? {
      FieldsFit(f.s.fields, v.m, at, 0, always, w);
    } else if f.NestedArray? {
      MsgArrayFits(f.s.fields, v.ms, at, always, w);
    }
  }

  lemma {:induction false} FieldsFit(fs: Fields, m: Values, root: nat, off: nat, always: bool, w: Writer)
    requires HasType(fs, m) && root + End(fs, off) <= w.cur && Room(w, VarlenSize(fs, m))
    ensures Took(w, EmitFields(fs, m, root, off, always, w), VarlenSize(fs, m))
    decreases fs, 0, 0
  {
    hide EmitField, FieldHasType, FieldVarlen, SizeOf, AlignUp, AlignOf;
    if fs.Cons? {
      var at := AlignUp(off, AlignOf(fs.f));
      FieldFits(fs.f, m.v, root + at, always, w);
      FieldsFit(fs.rest, m.rest, root, at + SizeOf(fs.f), always, EmitField(fs.f, m.v, root + at, always, w).value);
    }
  }

  /** `write` into a segment of at least `size(m)` bytes always succeeds; the recorded total is at
      most `size(m)`, short of it only by the alignment of the last block. */
  lemma WriteFits(s: Schema, m: Values, seg: seq<byte>, cap: nat, id: nat, always: bool)
    requires HasType(s.fields, m) && MsgSize(s.fields, m) < U32
    requires MsgSize(s.fields, m) <= cap <= |seg| && cap < U32
    ensures var r := Write(s, m, seg, cap, id, always);
            r.Some? && r.value.cur <= MsgSize(s.fields, m) == AlignUp(r.value.cur, 8)
  {
    hide EmitFields, HasType, VarlenSize, RootSize, AlignUp;
    AlignUpAligns(HEADER + RootSize(s.fields), 8);
    AlignUpAligns(VarlenStart(s.fields), 8);
    FieldsFit(s.fields, m, HEADER, 0, always, Opened(s.fields, seg, cap));
  }
}
