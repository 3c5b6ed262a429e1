/** The writer as the C++ code has it: an object over a shared-memory segment, filled in place. */
module DzFlatSegment {
  import opened Basics
  import opened DzFlatWire
  import opened DzFlatSchema
  import opened DzFlatWriter

  class Segment {
    const seg: array<byte>
    const cap: nat
    var cur: nat
    var ok: bool

    /** The writer this object stands for. */
    ghost function Model(): Writer
      reads this, seg
    {
      Writer(seg[..], cap, cur, ok)
    }

    /** The call returned `done` where the model has the outcome `r`. */
    ghost predicate Matches(done: bool, r: Option<Writer>)
      reads this, seg
    {
      done == r.Some? && (done ==> Model() == r.value)
    }

    constructor (seg: array<byte>, cap: nat, cur: nat)
      requires cur <= cap <= seg.Length
      ensures this.seg == seg && Model() == Writer(seg[..], cap, cur, true)
    {
      this.seg, this.cap, this.cur, this.ok := seg, cap, cur, true;
    }

    /** memcpy into the segment. */
    method Copy(at: nat, bs: seq<byte>)
      requires Sane(Model()) && at + |bs| <= cur
      modifies seg
      ensures Model() == PutAt(old(Model()), at, bs)
    {
      forall i | 0 <= i < |bs| { seg[at + i] := bs[i]; }
      assert seg[..] == Put(old(seg[..]), at, bs);
    }

    method Reserve(n: nat) returns (at: nat)
      requires Sane(Model())
      modifies this, seg
      ensures (Model(), at) == DzFlatWriter.Reserve(old(Model()), n)
    {
      at := AlignUp(cur, 8) % U32;
      if at < cur || n > cap || at > cap - n {
        ok := false;
        return 0;
      }
      forall p | cur <= p < at { seg[p] := 0; }
      assert seg[..] == Put(old(seg[..]), cur, Zeros(at - cur));
      cur := at + n;
    }

    /** A string, or an array of scalars: the block, then the reference to it. */
    method EmitBytes(bs: seq<byte>, cnt: nat, at: nat) returns (done: bool)
      requires Sane(Model()) && at + REF_SIZE <= cur
      modifies this, seg
      ensures Matches(done, DzFlatWriter.EmitBytes(bs, cnt, at, old(Model())))
    {
      var off := 0;
      if bs != [] {
        off := Reserve(|bs|);
        if off == 0 { return false; }
        Copy(off, bs);
      }
      Copy(at, RefBytes(off, cnt));
      return true;
    }

    method EmitStrArray(ss: seq<seq<byte>>, at: nat) returns (done: bool)
      requires Sane(Model()) && at + REF_SIZE <= cur
      modifies this, seg
      ensures Matches(done, DzFlatWriter.EmitStrArray(ss, at, old(Model())))
    {
      hide AlignUp, Times, RefBytes, DzFlatWriter.EmitStrs, Put;
      if ss == [] {
        Copy(at, RefBytes(0, 0));
        return true;
      }
      var tbl := Reserve(Times(|ss|, REF_SIZE));
      if tbl == 0 { return false; }
      done := EmitStrs(ss, tbl);
      if !done { return false; }
      Copy(at, RefBytes(tbl, |ss|));
      return true;
    }

    /** The entries of the table at `tbl`, one string after the other. */
    method EmitStrs(ss: seq<seq<byte>>, tbl: nat) returns (done: bool)
      requires Sane(Model()) && tbl + Times(|ss|, REF_SIZE) <= cur
      modifies this, seg
      ensures Matches(done, DzFlatWriter.EmitStrs(ss, tbl, 0, old(Model())))
    {
      hide AlignUp, Times, RefBytes, Put, DzFlatWriter.EmitBytes;
      ghost var w1 := Model();
      var i := 0;
      while i < |ss|
        invariant i <= |ss| && Ahead(w1, Model())
        invariant DzFlatWriter.EmitStrs(ss, tbl, 0, w1) == DzFlatWriter.EmitStrs(ss, tbl, i, Model())
      {
        ElemInside(i, |ss|, REF_SIZE);
        done := EmitBytes(ss[i], |ss[i]|, tbl + Times(i, REF_SIZE));
        if !done { return false; }
        i := i + 1;
      }
      return true;
    }

    method EmitMsgArray(fs: Fields, ms: seq<Values>, at: nat) returns (done: bool)
      requires (forall k :: 0 <= k < |ms| ==> HasType(fs, ms[k])) && Sane(Model()) && at + REF_SIZE <= cur
      modifies this, seg
      ensures Matches(done, DzFlatWriter.EmitMsgArray(fs, ms, at, false, old(Model())))
      decreases fs, 2
    {
      hide AlignUp, Times, RefBytes, RootSize, HasType, Tight, DzFlatWriter.EmitElems, End, Put;
      if ms == [] {
        Copy(at, RefBytes(0, 0));
        return true;
      }
      var n := Times(|ms|, RootSize(fs));
      var blk := Reserve(n);
      if blk == 0 { return false; }
      if !Tight(fs) { Copy(blk, Zeros(n)); }
      done := EmitElems(fs, ms, blk);
      if !done { return false; }
      Copy(at, RefBytes(blk, |ms|));
      return true;
    }

    method EmitElems(fs: Fields, ms: seq<Values>, blk: nat) returns (done: bool)
      requires forall k :: 0 <= k < |ms| ==> HasType(fs, ms[k])
      requires Sane(Model()) && blk + Times(|ms|, RootSize(fs)) <= cur
      modifies this, seg
      ensures Matches(done, DzFlatWriter.EmitElems(fs, ms, blk, 0, false, old(Model())))
      decreases fs, 1
    {
      hide AlignUp, Times, RootSize, HasType, EmitFields, End, Put;
      ghost var w1 := Model();
      var i := 0;
      while i < |ms|
        invariant i <= |ms| && Ahead(w1, Model())
        invariant DzFlatWriter.EmitElems(fs, ms, blk, 0, false, w1)
               == DzFlatWriter.EmitElems(fs, ms, blk, i, false, Model())
      {
        ElemInside(i, |ms|, RootSize(fs));
        done := EmitRecord(fs, ms[i], blk + Times(i, RootSize(fs)));
        if !done { return false; }
        i := i + 1;
      }
      return true;
    }

    method EmitField(f: Field, v: Value, at: nat) returns (done: bool)
      requires FieldHasType(f, v) && Sane(Model()) && at + SizeOf(f) <= cur
      modifies this, seg
      ensures Matches(done, DzFlatWriter.EmitField(f, v, at, false, old(Model())))
      decreases f, 0
    {
      hide HasType, RootSize, Times, EncodeInts, ScalarBytes, EmitFields;
      match f
      case Scalar(b) =>
        Copy(at, ScalarBytes(b, v.v));
        done := true;
      case FixedArray(b, count) =>
        Copy(at, EncodeInts(b, v.vs));
        done := true;
      case Str => done := EmitBytes(v.bs, |v.bs|, at);
      case VarArray(b) => done := EmitBytes(EncodeInts(b, v.vs), |v.vs|, at);
      case StrArray => done := EmitStrArray(v.ss, at);
      case Nested(s) => done := EmitRecord(s.fields, v.m, at);
      case NestedArray(s) => done := EmitMsgArray(s.fields, v.ms, at);
    }

    /** One field after the other, up to the first that does not fit. */
    method EmitRecord(fs: Fields, m: Values, root: nat) returns (done: bool)
      requires HasType(fs, m) && Sane(Model()) && root + End(fs, 0) <= cur
      modifies this, seg
      ensures Matches(done, EmitFields(fs, m, root, 0, false, old(Model())))
      decreases fs, 0
    {
      hide AlignUp, AlignOf, SizeOf, FieldHasType, DzFlatWriter.EmitField;
      ghost var w0 := Model();
      var rest, values, off: nat := fs, m, 0;
      while rest.Cons?
        invariant HasType(rest, values) && Ahead(w0, Model()) && root + End(rest, off) <= cur
        invariant rest == fs || rest < fs
        invariant EmitFields(fs, m, root, 0, false, w0) == EmitFields(rest, values, root, off, false, Model())
        decreases rest
      {
        var at := AlignUp(off, AlignOf(rest.f));
        done := EmitField(rest.f, values.v, root + at);
        if !done { return false; }
        rest, values, off := rest.rest, values.rest, at + SizeOf(rest.f);
      }
      return true;
    }

    /** `write`: None when it returns false. */
    static method Write(s: Schema, m: Values, seg: array<byte>, cap: nat, id: nat) returns (total: Option<nat>)
      requires HasType(s.fields, m) && MsgSize(s.fields, m) < U32 && cap <= seg.Length && cap < U32
      modifies seg
      ensures var r := DzFlatWriter.Write(s, m, old(seg[..]), cap, id, false);
              && (total.None? <==> r.None?)
              && (r.Some? ==> total == Some(r.value.cur) && seg[..] == r.value.buf)
    {
      hide AlignUp, RootSize, HasType, EmitFields, VarlenSize, HeaderBytes, End;
      var start := VarlenStart(s.fields);
      assert HEADER <= start;
      if cap < start { return None; }
      forall p | HEADER <= p < start { seg[p] := 0; }
      assert seg[..] == Put(old(seg[..]), HEADER, Zeros(start - HEADER));
      var w := new Segment(seg, cap, start);
      var done := w.EmitRecord(s.fields, m, HEADER);
      if !done { return None; }
      w.Copy(0, HeaderBytes(s.hash, RootSize(s.fields), w.cur, id));
      return Some(w.cur);
    }
  }
}
