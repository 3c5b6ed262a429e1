/** Decoding a written segment gives the message back.

    What emission establishes is stated through the decoder itself: a part of the segment reads as a
    value when every buffer that has the same bytes in the part's own range and in the blocks placed
    for it decodes to that value. Later writes leave both ranges alone, so the fact persists. */
module DzFlatRoundTrip {
  import opened Basics
  import opened DzFlatWire
  import opened DzFlatSchema
  import opened DzFlatWriter
  import opened DzFlatDecoder

  /** `b`, cut at `total`, has the bytes `[at, end)` and `[lo, hi)` of `buf`. */
  ghost predicate Like(buf: seq<byte>, b: seq<byte>, total: nat, at: nat, end: nat, lo: nat, hi: nat) {
    Agree(buf, b, at, end) && Agree(buf, b, lo, hi) && end <= total && hi <= total <= |b|
  }

  ghost predicate BytesRead(bs: seq<byte>, at: nat, lo: nat, hi: nat, buf: seq<byte>) {
    forall b: seq<byte>, total: nat :: Like(buf, b, total, at, at + REF_SIZE, lo, hi) ==>
      DecodeBytes(b, total, at) == bs
  }

  ghost predicate FieldReads(f: Field, v: Value, at: nat, lo: nat, hi: nat, buf: seq<byte>) {
    forall b: seq<byte>, total: nat, zero: bool :: Like(buf, b, total, at, at + SizeOf(f), lo, hi) ==>
      DecodeField(f, b, total, at, zero) == v
  }

  ghost predicate FieldsRead(fs: Fields, m: Values, root: nat, off: nat, lo: nat, hi: nat, buf: seq<byte>) {
    forall b: seq<byte>, total: nat, zero: bool :: Like(buf, b, total, root + off, root + End(fs, off), lo, hi) ==>
      DecodeFields(fs, b, total, root, off, zero) == m
  }

  // ---------------------------------------------------------------- persistence

  lemma LikeChain(buf: seq<byte>, buf': seq<byte>, b: seq<byte>, total: nat, at: nat, end: nat, lo: nat, hi: nat,
                  lo': nat, hi': nat)
    requires Agree(buf, buf', at, end) && Agree(buf, buf', lo, hi) && lo' <= lo && hi <= hi'
    requires Like(buf', b, total, at, end, lo', hi')
    ensures Like(buf, b, total, at, end, lo, hi) && end <= total <= |b|
  {
  }

  lemma BytesPersist(bs: seq<byte>, at: nat, lo: nat, hi: nat, buf: seq<byte>, lo': nat, hi': nat, buf': seq<byte>)
    requires BytesRead(bs, at, lo, hi, buf) && lo' <= lo && hi <= hi'
    requires Agree(buf, buf', at, at + REF_SIZE) && Agree(buf, buf', lo, hi)
    ensures BytesRead(bs, at, lo', hi', buf')
  {
    hide DecodeBytes, Like;
    forall b: seq<byte>, total: nat | Like(buf', b, total, at, at + REF_SIZE, lo', hi')
      ensures at + REF_SIZE <= total <= |b| && DecodeBytes(b, total, at) == bs
    {
      LikeChain(buf, buf', b, total, at, at + REF_SIZE, lo, hi, lo', hi');
    }
  }

  lemma FieldPersists(f: Field, v: Value, at: nat, lo: nat, hi: nat, buf: seq<byte>, lo': nat, hi': nat,
                      buf': seq<byte>)
    requires FieldReads(f, v, at, lo, hi, buf) && lo' <= lo && hi <= hi'
    requires Agree(buf, buf', at, at + SizeOf(f)) && Agree(buf, buf', lo, hi)
    ensures FieldReads(f, v, at, lo', hi', buf')
  {
    hide Agree, DecodeField, Like, SizeOf;
    forall b: seq<byte>, total: nat, zero: bool | Like(buf', b, total, at, at + SizeOf(f), lo', hi')
      ensures at + SizeOf(f) <= total <= |b| && DecodeField(f, b, total, at, zero) == v
    {
      LikeChain(buf, buf', b, total, at, at + SizeOf(f), lo, hi, lo', hi');
    }
  }

  lemma FieldsPersist(fs: Fields, m: Values, root: nat, off: nat, lo: nat, hi: nat, buf: seq<byte>, lo': nat,
                      hi': nat, buf': seq<byte>)
    requires FieldsRead(fs, m, root, off, lo, hi, buf) && lo' <= lo && hi <= hi'
    requires Agree(buf, buf', root + off, root + End(fs, off)) && Agree(buf, buf', lo, hi)
    ensures FieldsRead(fs, m, root, off, lo', hi', buf')
  {
    hide Agree, DecodeFields, End, Like;
    var (at, end) := (root + off, root + End(fs, off));
    forall b: seq<byte>, total: nat, zero: bool | Like(buf', b, total, at, end, lo', hi')
      ensures end <= total <= |b| && DecodeFields(fs, b, total, root, off, zero) == m
    {
      LikeChain(buf, buf', b, total, at, end, lo, hi, lo', hi');
    }
  }

  lemma LikeFacts(buf: seq<byte>, b: seq<byte>, total: nat, at: nat, end: nat, lo: nat, hi: nat)
    requires Like(buf, b, total, at, end, lo, hi)
    ensures Agree(buf, b, lo, hi) && end <= total <= |b| && hi <= total
  {
  }

  // ---------------------------------------------------------------- blocks of bytes

  /** A reference at `at` to a block holding `bs`, the block inside `[lo, hi)`. */
  ghost predicate Placed(bs: seq<byte>, cnt: nat, off: nat, at: nat, lo: nat, hi: nat, buf: seq<byte>) {
    && at + REF_SIZE <= |buf| && buf[at..at + REF_SIZE] == RefBytes(off, cnt) && off < U32 && cnt < U32
    && (cnt == 0 <==> bs == [])
    && (bs != [] ==> 0 < off && lo <= off && off + |bs| <= hi <= |buf| && buf[off..off + |bs|] == bs)
  }

  lemma BytesPlaced(bs: seq<byte>, cnt: nat, at: nat, w: Writer) returns (off: nat)
    requires Sane(w) && at + REF_SIZE <= w.cur && w.cap < U32
    requires (cnt == 0 <==> bs == []) && cnt <= |bs|
    requires EmitBytes(bs, cnt, at, w).Some?
    ensures var w' := EmitBytes(bs, cnt, at, w).value;
            w.cur <= w'.cur && Placed(bs, cnt, off, at, w.cur, w'.cur, w'.buf)
  {
    hide RefBytes, AlignUp;
    off := EmitBlock(bs, w).value.1;
    var w1 := EmitBlock(bs, w).value.0;
    var w' := EmitBytes(bs, cnt, at, w).value;
    assert w' == PutAt(w1, at, RefBytes(off, cnt));
    if bs != [] {
      assert w1.buf[off..off + |bs|] == bs;
      assert Agree(w1.buf, w'.buf, off, off + |bs|);
      AgreeSlice(w1.buf, w'.buf, off, off + |bs|);
    }
  }

  /** The decoder finds the block again. */
  lemma PlacedBlock(bs: seq<byte>, cnt: nat, stride: nat, off: nat, at: nat, lo: nat, hi: nat, buf: seq<byte>,
                    b: seq<byte>, total: nat)
    requires Placed(bs, cnt, off, at, lo, hi, buf) && |bs| == Times(cnt, stride) && stride > 0
    requires Like(buf, b, total, at, at + REF_SIZE, lo, hi)
    ensures Block(b, total, at, stride) == if bs == [] then None else Some((off, cnt))
    ensures bs != [] ==> off + |bs| <= |b| && b[off..off + |bs|] == bs
  {
    hide RefBytes, InBounds, Times, ReadRef;
    AgreeSlice(buf, b, at, at + REF_SIZE);
    RefRoundTrip(b, at, off, cnt);
    InBoundsMeans(total, off, cnt, stride);
    if bs != [] { AgreeSlice(buf, b, off, off + |bs|); }
  }

  lemma EmitBytesReads(bs: seq<byte>, at: nat, w: Writer)
    requires Sane(w) && at + REF_SIZE <= w.cur && w.cap < U32
    requires EmitBytes(bs, |bs|, at, w).Some?
    ensures var w' := EmitBytes(bs, |bs|, at, w).value;
            w.cur <= w'.cur && BytesRead(bs, at, w.cur, w'.cur, w'.buf)
  {
    hide EmitBytes, Placed, Block, Like, Times;
    var off := BytesPlaced(bs, |bs|, at, w);
    var w' := EmitBytes(bs, |bs|, at, w).value;
    TimesIsProduct(|bs|, 1);
    forall b: seq<byte>, total: nat | Like(w'.buf, b, total, at, at + REF_SIZE, w.cur, w'.cur)
      ensures at + REF_SIZE <= total <= |b| && DecodeBytes(b, total, at) == bs
    {
      LikeFacts(w'.buf, b, total, at, at + REF_SIZE, w.cur, w'.cur);
      PlacedBlock(bs, |bs|, 1, off, at, w.cur, w'.cur, w'.buf, b, total);
    }
  }

  lemma PlacedIntsDecode(t: Base, vs: seq<int>, off: nat, at: nat, lo: nat, hi: nat, buf: seq<byte>, b: seq<byte>,
                         total: nat, zero: bool)
    requires (forall v <- vs :: InRange(t, v)) && Placed(EncodeInts(t, vs), |vs|, off, at, lo, hi, buf)
    requires Like(buf, b, total, at, at + REF_SIZE, lo, hi)
    ensures at + REF_SIZE <= total <= |b| && DecodeField(VarArray(t), b, total, at, zero) == VInts(vs)
  {
    hide Placed, Block, Times, EncodeInts, DecodeInts, ViewInts, InRange;
    var bs := EncodeInts(t, vs);
    IntsRoundTrip(t, vs);
    PlacedBlock(bs, |vs|, Size(t), off, at, lo, hi, buf, b, total);
  }

  lemma EmitIntsReads(t: Base, vs: seq<int>, at: nat, w: Writer)
    requires Sane(w) && at + REF_SIZE <= w.cur && w.cap < U32 && forall v <- vs :: InRange(t, v)
    requires EmitBytes(EncodeInts(t, vs), |vs|, at, w).Some?
    ensures var w' := EmitBytes(EncodeInts(t, vs), |vs|, at, w).value;
            w.cur <= w'.cur && FieldReads(VarArray(t), VInts(vs), at, w.cur, w'.cur, w'.buf)
  {
    hide EmitBytes, Placed, Like, Times, EncodeInts, InRange, DecodeField;
    var bs := EncodeInts(t, vs);
    TimesAtLeast(|vs|, Size(t));
    var off := BytesPlaced(bs, |vs|, at, w);
    var w' := EmitBytes(bs, |vs|, at, w).value;
    forall b: seq<byte>, total: nat, zero: bool | Like(w'.buf, b, total, at, at + REF_SIZE, w.cur, w'.cur)
      ensures at + REF_SIZE <= total <= |b| && DecodeField(VarArray(t), b, total, at, zero) == VInts(vs)
    {
      PlacedIntsDecode(t, vs, off, at, w.cur, w'.cur, w'.buf, b, total, zero);
    }
  }

  lemma GrownAgree(w: Writer, w': Writer, lo: nat, hi: nat, at: nat, end: nat)
    requires Sane(w) && Grown(w, w', lo, hi) && end <= w.cur && (end <= lo || hi <= at)
    ensures Agree(w.buf, w'.buf, at, end)
  {
  }

  // ---------------------------------------------------------------- arrays of strings

  ghost predicate StrsRead(ss: seq<seq<byte>>, tbl: nat, i: nat, lo: nat, hi: nat, buf: seq<byte>) {
    forall k :: i <= k < |ss| ==> BytesRead(ss[k], tbl + Times(k, REF_SIZE), lo, hi, buf)
  }

  lemma {:induction false} EmitStrsRead(ss: seq<seq<byte>>, tbl: nat, i: nat, w: Writer)
    requires i <= |ss| && Sane(w) && tbl + Times(|ss|, REF_SIZE) <= w.cur && w.cap < U32
    requires EmitStrs(ss, tbl, i, w).Some?
    ensures var w' := EmitStrs(ss, tbl, i, w).value;
            w.cur <= w'.cur && StrsRead(ss, tbl, i, w.cur, w'.cur, w'.buf)
    decreases |ss| - i
  {
    hide BytesRead, Times, EmitBytes;
    if i < |ss| {
      ElemInside(i, |ss|, REF_SIZE);
      var at, end := tbl + Times(i, REF_SIZE), tbl + Times(|ss|, REF_SIZE);
      var w1 := EmitBytes(ss[i], |ss[i]|, at, w).value;
      var w2 := EmitStrs(ss, tbl, i, w).value;
      EmitBytesReads(ss[i], at, w);
      EmitStrsRead(ss, tbl, i + 1, w1);
      GrownAgree(w1, w2, at + REF_SIZE, end, at, at + REF_SIZE);
      GrownAgree(w1, w2, at + REF_SIZE, end, w.cur, w1.cur);
      BytesPersist(ss[i], at, w.cur, w1.cur, w1.buf, w.cur, w2.cur, w2.buf);
      forall k | i < k < |ss|
        ensures BytesRead(ss[k], tbl + Times(k, REF_SIZE), w.cur, w2.cur, w2.buf)
      {
        StrStays(ss, tbl, k, w1.cur, w.cur, w2.cur, w2.buf);
      }
    }
  }

  lemma StrStays(ss: seq<seq<byte>>, tbl: nat, k: nat, lo: nat, lo': nat, hi: nat, buf: seq<byte>)
    requires k < |ss| && BytesRead(ss[k], tbl + Times(k, REF_SIZE), lo, hi, buf) && lo' <= lo
    requires tbl + Times(|ss|, REF_SIZE) <= lo' && lo <= hi <= |buf|
    ensures BytesRead(ss[k], tbl + Times(k, REF_SIZE), lo', hi, buf)
  {
    hide BytesRead, Times;
    ElemInside(k, |ss|, REF_SIZE);
    BytesPersist(ss[k], tbl + Times(k, REF_SIZE), lo, hi, buf, lo', hi, buf);
  }

  lemma {:induction false} StrsDecode(ss: seq<seq<byte>>, tbl: nat, n: nat, lo: nat, hi: nat, buf: seq<byte>,
                                      b: seq<byte>, total: nat)
    requires StrsRead(ss, tbl, 0, lo, hi, buf) && n <= |ss| && tbl + Times(|ss|, REF_SIZE) <= hi
    requires Agree(buf, b, tbl, hi) && Agree(buf, b, lo, hi) && hi <= total <= |b|
    ensures tbl + Times(n, REF_SIZE) <= total && DecodeStrs(b, total, tbl, n) == ss[..n]
  {
    hide DecodeBytes, Times, BytesRead;
    if n > 0 {
      StrsDecode(ss, tbl, n - 1, lo, hi, buf, b, total);
      ElemInside(n - 1, |ss|, REF_SIZE);
      StrDecodes(ss[n - 1], tbl + Times(n - 1, REF_SIZE), lo, hi, buf, b, total);
      assert ss[..n] == ss[..n - 1] + [ss[n - 1]];
    } else {
      TimesIsProduct(0, REF_SIZE);
    }
  }

  lemma StrDecodes(bs: seq<byte>, at: nat, lo: nat, hi: nat, buf: seq<byte>, b: seq<byte>, total: nat)
    requires BytesRead(bs, at, lo, hi, buf) && Like(buf, b, total, at, at + REF_SIZE, lo, hi)
    ensures DecodeBytes(b, total, at) == bs
  {
  }

  /** A reference at `at` to a table or block of `n` entries inside `[lo, hi)`. */
  ghost predicate Refers(at: nat, off: nat, n: nat, stride: nat, lo: nat, hi: nat, buf: seq<byte>) {
    && at + REF_SIZE <= |buf| && buf[at..at + REF_SIZE] == RefBytes(off, n) && off < U32 && n < U32
    && (n > 0 ==> 0 < off && lo <= off && off + Times(n, stride) <= hi)
  }

  lemma RefersBlock(at: nat, off: nat, n: nat, stride: nat, lo: nat, hi: nat, buf: seq<byte>, b: seq<byte>, total: nat)
    requires Refers(at, off, n, stride, lo, hi, buf) && stride > 0 && Like(buf, b, total, at, at + REF_SIZE, lo, hi)
    ensures Block(b, total, at, stride) == if n == 0 then None else Some((off, n))
  {
    hide RefBytes, InBounds, Times, ReadRef;
    AgreeSlice(buf, b, at, at + REF_SIZE);
    RefRoundTrip(b, at, off, n);
    if n > 0 {
      TimesMonotone(1, n, stride);
      TimesIsProduct(1, stride);
      InBoundsMeans(total, off, n, stride);
    }
  }

  lemma RefPlaced(w: Writer, w1: Writer, at: nat, off: nat, n: nat, stride: nat)
    requires Sane(w) && at + REF_SIZE <= w.cur && Grown(w, w1, 0, 0) && w.cap < U32 && stride > 0
    requires n > 0 ==> 0 < off && w.cur <= off && off + Times(n, stride) <= w1.cur
    requires n == 0 ==> off == 0
    ensures var w' := PutRef(w, w1, at, off, n); Refers(at, off, n, stride, w.cur, w'.cur, w'.buf)
  {
    hide RefBytes;
    TimesAtLeast(n, stride);
  }

  lemma TimesAtLeast(n: nat, stride: nat)
    requires stride > 0
    ensures Times(n, stride) >= n && (n == 0 ==> Times(n, stride) == 0)
  {
    TimesIsProduct(n, stride);
  }

  lemma EmitStrArrayReads(ss: seq<seq<byte>>, at: nat, w: Writer)
    requires Sane(w) && at + REF_SIZE <= w.cur && w.cap < U32 && EmitStrArray(ss, at, w).Some?
    ensures var w' := EmitStrArray(ss, at, w).value;
            w.cur <= w'.cur && FieldReads(StrArray, VStrs(ss), at, w.cur, w'.cur, w'.buf)
  {
    hide PutRef, Refers, Block, Like, Times, EmitStrs, StrsRead, DecodeStrs, Reserve;
    var w' := EmitStrArray(ss, at, w).value;
    if ss == [] {
      RefPlaced(w, w, at, 0, 0, REF_SIZE);
      forall b: seq<byte>, total: nat, zero: bool | Like(w'.buf, b, total, at, at + REF_SIZE, w.cur, w'.cur)
        ensures at + REF_SIZE <= total <= |b| && DecodeField(StrArray, b, total, at, zero) == VStrs(ss)
      {
        LikeFacts(w'.buf, b, total, at, at + REF_SIZE, w.cur, w'.cur);
        RefersBlock(at, 0, 0, REF_SIZE, w.cur, w'.cur, w'.buf, b, total);
      }
    } else {
      SomeStrsRead(ss, at, w);
    }
  }

  lemma SomeStrsRead(ss: seq<seq<byte>>, at: nat, w: Writer)
    requires Sane(w) && at + REF_SIZE <= w.cur && w.cap < U32 && ss != [] && EmitStrArray(ss, at, w).Some?
    ensures var w' := EmitStrArray(ss, at, w).value;
            w.cur <= w'.cur && FieldReads(StrArray, VStrs(ss), at, w.cur, w'.cur, w'.buf)
  {
    hide PutRef, Refers, Block, Like, Times, EmitStrs, StrsRead, DecodeStrs, Reserve, BytesRead;
    var n := Times(|ss|, REF_SIZE);
    var (w1, tbl) := Reserve(w, n);
    var w2 := EmitStrs(ss, tbl, 0, w1).value;
    var w' := EmitStrArray(ss, at, w).value;
    EmitStrsRead(ss, tbl, 0, w1);
    GrownThen(w, w1, w2, 0, 0, tbl, tbl + n);
    RefPlaced(w, w2, at, tbl, |ss|, REF_SIZE);
    assert w' == PutRef(w, w2, at, tbl, |ss|);
    RefGrows(w, w2, at, tbl, |ss|);
    GrownAgree(w2, w', at, at + REF_SIZE, w.cur, w2.cur);
    forall b: seq<byte>, total: nat, zero: bool | Like(w'.buf, b, total, at, at + REF_SIZE, w.cur, w'.cur)
      ensures at + REF_SIZE <= total <= |b| && DecodeField(StrArray, b, total, at, zero) == VStrs(ss)
    {
      LikeFacts(w'.buf, b, total, at, at + REF_SIZE, w.cur, w'.cur);
      RefersBlock(at, tbl, |ss|, REF_SIZE, w.cur, w'.cur, w'.buf, b, total);
      StrsDecode(ss, tbl, |ss|, w1.cur, w'.cur, w2.buf, b, total);
    }
  }

  // ---------------------------------------------------------------- scalars

  lemma ScalarReads(t: Base, v: int, at: nat, lo: nat, buf: seq<byte>)
    requires InRange(t, v) && at + Size(t) <= |buf| && buf[at..at + Size(t)] == ScalarBytes(t, v)
    ensures FieldReads(Scalar(t), VInt(v), at, lo, lo, buf)
  {
    hide ToLE, FromLE, ToBits, FromBits, InRange;
    BitsRoundTrip(t, v);
    LERoundTrip(Size(t), ToBits(t, v));
    forall b: seq<byte>, total: nat, zero: bool | Like(buf, b, total, at, at + Size(t), lo, lo)
      ensures DecodeField(Scalar(t), b, total, at, zero) == VInt(v)
    {
      AgreeSlice(buf, b, at, at + Size(t));
    }
  }

  lemma FixedReads(t: Base, n: pos, vs: seq<int>, at: nat, lo: nat, buf: seq<byte>)
    requires |vs| == n && (forall x <- vs :: InRange(t, x))
    requires at + Times(n, Size(t)) <= |buf| && buf[at..at + Times(n, Size(t))] == EncodeInts(t, vs)
    ensures FieldReads(FixedArray(t, n), VInts(vs), at, lo, lo, buf)
  {
    hide EncodeInts, DecodeInts, Times;
    IntsRoundTrip(t, vs);
    var end := at + Times(n, Size(t));
    forall b: seq<byte>, total: nat, zero: bool | Like(buf, b, total, at, end, lo, lo)
      ensures DecodeField(FixedArray(t, n), b, total, at, zero) == VInts(vs)
    {
      AgreeSlice(buf, b, at, end);
    }
  }

  // ---------------------------------------------------------------- records and arrays of records

  ghost predicate ElemsRead(fs: Fields, ms: seq<Values>, blk: nat, i: nat, lo: nat, hi: nat, buf: seq<byte>) {
    forall k :: i <= k < |ms| ==> FieldsRead(fs, ms[k], blk + Times(k, RootSize(fs)), 0, lo, hi, buf)
  }

  lemma ElemStays(fs: Fields, ms: seq<Values>, blk: nat, k: nat, lo: nat, lo': nat, hi: nat, buf: seq<byte>)
    requires k < |ms| && FieldsRead(fs, ms[k], blk + Times(k, RootSize(fs)), 0, lo, hi, buf) && lo' <= lo
    requires blk + Times(|ms|, RootSize(fs)) <= lo' && lo <= hi <= |buf|
    ensures FieldsRead(fs, ms[k], blk + Times(k, RootSize(fs)), 0, lo', hi, buf)
  {
    hide *;
    ElemInside(k, |ms|, RootSize(fs));
    SameRange(buf, blk + Times(k, RootSize(fs)), blk + Times(k, RootSize(fs)) + End(fs, 0));
    SameRange(buf, lo, hi);
    FieldsPersist(fs, ms[k], blk + Times(k, RootSize(fs)), 0, lo, hi, buf, lo', hi, buf);
  }

  lemma FieldsDecode(fs: Fields, m: Values, root: nat, lo: nat, hi: nat, buf: seq<byte>, b: seq<byte>, total: nat,
                     zero: bool)
    requires FieldsRead(fs, m, root, 0, lo, hi, buf) && Like(buf, b, total, root, root + End(fs, 0), lo, hi)
    ensures DecodeFields(fs, b, total, root, 0, zero) == m
  {
    hide DecodeFields, End, Like;
  }

  lemma {:induction false} ElemsDecode(fs: Fields, ms: seq<Values>, blk: nat, n: nat, lo: nat, hi: nat,
                                       buf: seq<byte>, b: seq<byte>, total: nat, zero: bool)
    requires ElemsRead(fs, ms, blk, 0, lo, hi, buf) && n <= |ms| && blk + Times(|ms|, RootSize(fs)) <= hi
    requires Agree(buf, b, blk, hi) && Agree(buf, b, lo, hi) && hi <= total <= |b|
    ensures blk + Times(n, RootSize(fs)) <= total && DecodeElems(fs, b, total, blk, n, zero) == ms[..n]
  {
    hide DecodeFields, End, FieldsRead, RootSize, Times;
    if n > 0 {
      ElemsDecode(fs, ms, blk, n - 1, lo, hi, buf, b, total, zero);
      ElemInside(n - 1, |ms|, RootSize(fs));
      FieldsDecode(fs, ms[n - 1], blk + Times(n - 1, RootSize(fs)), lo, hi, buf, b, total, zero);
      assert ms[..n] == ms[..n - 1] + [ms[n - 1]];
    } else {
      TimesIsProduct(0, RootSize(fs));
    }
  }

  lemma {:induction false} EmitElemsRead(fs: Fields, ms: seq<Values>, blk: nat, i: nat, always: bool, w: Writer)
    requires i <= |ms| && (forall k :: 0 <= k < |ms| ==> HasType(fs, ms[k]))
    requires Sane(w) && blk + Times(|ms|, RootSize(fs)) <= w.cur && w.cap < U32
    requires EmitElems(fs, ms, blk, i, always, w).Some?
    ensures var w' := EmitElems(fs, ms, blk, i, always, w).value;
            w.cur <= w'.cur && ElemsRead(fs, ms, blk, i, w.cur, w'.cur, w'.buf)
    decreases fs, 1, |ms| - i
  {
    hide FieldsRead, Times, RootSize, EmitFields, HasType, End;
    if i < |ms| {
      ElemInside(i, |ms|, RootSize(fs));
      var at, end := blk + Times(i, RootSize(fs)), blk + Times(|ms|, RootSize(fs));
      var w1 := EmitFields(fs, ms[i], at, 0, always, w).value;
      var w2 := EmitElems(fs, ms, blk, i, always, w).value;
      ElemsSteps(fs, ms, blk, i, always, w);
      EmitFieldsRead(fs, ms[i], at, 0, always, w);
      EmitElemsRead(fs, ms, blk, i + 1, always, w1);
      GrownAgree(w1, w2, at + RootSize(fs), end, at, at + RootSize(fs));
      GrownAgree(w1, w2, at + RootSize(fs), end, w.cur, w1.cur);
      FieldsPersist(fs, ms[i], at, 0, w.cur, w1.cur, w1.buf, w.cur, w2.cur, w2.buf);
      forall k | i < k < |ms|
        ensures FieldsRead(fs, ms[k], blk + Times(k, RootSize(fs)), 0, w.cur, w2.cur, w2.buf)
      {
        ElemStays(fs, ms, blk, k, w1.cur, w.cur, w2.cur, w2.buf);
      }
    }
  }

  lemma {:induction false} EmitMsgArrayReads(s: Schema, ms: seq<Values>, at: nat, always: bool, w: Writer)
    requires (forall k :: 0 <= k < |ms| ==> HasType(s.fields, ms[k]))
    requires Sane(w) && at + REF_SIZE <= w.cur && w.cap < U32
    requires EmitMsgArray(s.fields, ms, at, always, w).Some?
    ensures var w' := EmitMsgArray(s.fields, ms, at, always, w).value;
            w.cur <= w'.cur && FieldReads(NestedArray(s), VMsgs(ms), at, w.cur, w'.cur, w'.buf)
    decreases s.fields, 2, 0
  {
    hide Ahead, AlignUp, Cleared, ElemsRead, EmitElems, End, FieldReads, Grown, HasType, Put, RefBytes, Reserve,
         RootSize, Sane, Times;
    var fs := s.fields;
    if ms == [] {
      NoMsgsRead(s, at, w);
    } else {
      var n := Times(|ms|, RootSize(fs));
      var (w0, blk) := Reserve(w, n);
      GrownFacts(w, w0, 0, 0);
      var w1 := Cleared(fs, blk, n, always, w0);
      GrownFacts(w0, w1, blk, blk + n);
      var w2 := EmitElems(fs, ms, blk, 0, always, w1).value;
      MsgBlockGrows(fs, ms, blk, always, w, w0);
      GrownFacts(w1, w2, blk, w0.cur);
      EmitElemsRead(fs, ms, blk, 0, always, w1);
      MsgBlockReads(s, ms, at, blk, w, w2, w1.cur);
    }
  }

  lemma NoMsgsDecode(s: Schema, at: nat, lo: nat, hi: nat, buf: seq<byte>, b: seq<byte>, total: nat, zero: bool)
    requires Refers(at, 0, 0, RootSize(s.fields), lo, hi, buf) && Like(buf, b, total, at, at + REF_SIZE, lo, hi)
    ensures at + REF_SIZE <= total <= |b| && DecodeField(NestedArray(s), b, total, at, zero) == VMsgs([])
  {
    hide Refers, Block, RootSize, DecodeElems, DecodeFields, End;
    RefersBlock(at, 0, 0, RootSize(s.fields), lo, hi, buf, b, total);
  }

  lemma NoMsgsRead(s: Schema, at: nat, w: Writer)
    requires Sane(w) && at + REF_SIZE <= w.cur && w.cap < U32
    ensures var w' := PutRef(w, w, at, 0, 0);
            w.cur <= w'.cur && FieldReads(NestedArray(s), VMsgs([]), at, w.cur, w'.cur, w'.buf)
  {
    hide PutRef, Refers, Like, Times, RootSize, DecodeField, EmitField;
    GrownFacts(w, PutRef(w, w, at, 0, 0), at, at + REF_SIZE);
    var w' := PutRef(w, w, at, 0, 0);
    RefPlaced(w, w, at, 0, 0, RootSize(s.fields));
    forall b: seq<byte>, total: nat, zero: bool | Like(w'.buf, b, total, at, at + REF_SIZE, w.cur, w'.cur)
      ensures at + REF_SIZE <= total <= |b| && DecodeField(NestedArray(s), b, total, at, zero) == VMsgs([])
    {
      NoMsgsDecode(s, at, w.cur, w'.cur, w'.buf, b, total, zero);
    }
  }

  lemma MsgBlockReads(s: Schema, ms: seq<Values>, at: nat, blk: nat, w: Writer, w2: Writer, lo: nat)
    requires Sane(w) && at + REF_SIZE <= w.cur && w.cap < U32 && Grown(w, w2, 0, 0) && ms != []
    requires 0 < blk && w.cur <= blk && blk + Times(|ms|, RootSize(s.fields)) == lo <= w2.cur
    requires ElemsRead(s.fields, ms, blk, 0, lo, w2.cur, w2.buf)
    ensures var w' := PutRef(w, w2, at, blk, |ms|);
            FieldReads(NestedArray(s), VMsgs(ms), at, w.cur, w'.cur, w'.buf)
  {
    hide PutRef, Refers, Block, Like, Times, ElemsRead, DecodeElems, RootSize, DecodeFields, End;
    var fs := s.fields;
    var w' := PutRef(w, w2, at, blk, |ms|);
    RefPlaced(w, w2, at, blk, |ms|, RootSize(fs));
    RefGrows(w, w2, at, blk, |ms|);
    GrownAgree(w2, w', at, at + REF_SIZE, w.cur, w2.cur);
    forall b: seq<byte>, total: nat, zero: bool | Like(w'.buf, b, total, at, at + REF_SIZE, w.cur, w'.cur)
      ensures at + REF_SIZE <= total <= |b| && DecodeField(NestedArray(s), b, total, at, zero) == VMsgs(ms)
    {
      LikeFacts(w'.buf, b, total, at, at + REF_SIZE, w.cur, w'.cur);
      RefersBlock(at, blk, |ms|, RootSize(fs), w.cur, w'.cur, w'.buf, b, total);
      ElemsDecode(fs, ms, blk, |ms|, lo, w'.cur, w2.buf, b, total, zero);
    }
  }

  lemma NestedReads(s: Schema, m: Values, at: nat, lo: nat, hi: nat, buf: seq<byte>)
    requires FieldsRead(s.fields, m, at, 0, lo, hi, buf) && at + RootSize(s.fields) <= |buf|
    ensures FieldReads(Nested(s), VMsg(m), at, lo, hi, buf)
  {
    hide Block, DecodeArray, DecodeBytes, DecodeElems, DecodeFields, DecodeInts, DecodeStrs, End, FromBits, Like,
         ReadLE, RootSize, Size, Times;
    forall b: seq<byte>, total: nat, zero: bool | Like(buf, b, total, at, at + RootSize(s.fields), lo, hi)
      ensures at + RootSize(s.fields) <= total <= |b| && DecodeField(Nested(s), b, total, at, zero) == VMsg(m)
    {
      LikeParts(buf, b, total, at, at, at + End(s.fields, 0), at + RootSize(s.fields), lo, hi);
    }
  }

  lemma {:induction false} EmitFieldReads(f: Field, v: Value, at: nat, always: bool, w: Writer)
    requires FieldHasType(f, v) && Sane(w) && at + SizeOf(f) <= w.cur && w.cap < U32
    requires EmitField(f, v, at, always, w).Some?
    ensures var w' := EmitField(f, v, at, always, w).value;
            w.cur <= w'.cur && FieldReads(f, v, at, w.cur, w'.cur, w'.buf)
    decreases f, 1, 0
  {
    hide FieldReads, FieldsRead, EmitFields, EmitMsgArray, EmitStrArray, EmitBytes, EncodeInts, HasType, RootSize,
        Times, ScalarBytes, BytesRead;
    var w' := EmitField(f, v, at, always, w).value;
    if f.Scalar? {
      ScalarReads(f.b, v.v, at, w.cur, w'.buf);
    } else if f.FixedArray? {
      FixedReads(f.b, f.count, v.vs, at, w.cur, w'.buf);
    } else if f.Str? {
      EmitBytesReads(v.bs, at, w);
      StrReads(v.bs, at, w.cur, w'.cur, w'.buf);
    } else if f.VarArray? {
      EmitIntsReads(f.b, v.vs, at, w);
    } else if f.StrArray? {
      EmitStrArrayReads(v.ss, at, w);
    } else if f.Nested? {
      EmitFieldsRead(f.s.fields, v.m, at, 0, always, w);
      NestedReads(f.s, v.m, at, w.cur, w'.cur, w'.buf);
    } else {
      EmitMsgArrayReads(f.s, v.ms, at, always, w);
    }
  }

  lemma StrReads(bs: seq<byte>, at: nat, lo: nat, hi: nat, buf: seq<byte>)
    requires BytesRead(bs, at, lo, hi, buf)
    ensures FieldReads(Str, VBytes(bs), at, lo, hi, buf)
  {
    hide DecodeBytes;
  }

  /** A record whose first field and whose remaining fields read as they should, reads as it should. */
  lemma RecordReads(fs: Fields, m: Values, root: nat, off: nat, lo: nat, hi: nat, buf: seq<byte>)
    requires fs.Cons? && m.VCons?
    requires var at := AlignUp(off, AlignOf(fs.f));
             && FieldReads(fs.f, m.v, root + at, lo, hi, buf)
             && FieldsRead(fs.rest, m.rest, root, at + SizeOf(fs.f), lo, hi, buf)
    ensures FieldsRead(fs, m, root, off, lo, hi, buf)
  {
    hide AlignOf, AlignUp, DecodeField, Like, SizeOf;
    var at := AlignUp(off, AlignOf(fs.f));
    var next := at + SizeOf(fs.f);
    forall b: seq<byte>, total: nat, zero: bool | Like(buf, b, total, root + off, root + End(fs, off), lo, hi)
      ensures root + End(fs, off) <= total <= |b| && DecodeFields(fs, b, total, root, off, zero) == m
    {
      LikeParts(buf, b, total, root + off, root + at, root + next, root + End(fs, off), lo, hi);
    }
  }

  lemma LikeParts(buf: seq<byte>, b: seq<byte>, total: nat, at: nat, mid: nat, next: nat, end: nat, lo: nat, hi: nat)
    requires Like(buf, b, total, at, end, lo, hi) && at <= mid <= next <= end
    ensures Like(buf, b, total, mid, next, lo, hi) && Like(buf, b, total, next, end, lo, hi) && end <= total <= |b|
  {
  }

  lemma {:induction false} EmitFieldsRead(fs: Fields, m: Values, root: nat, off: nat, always: bool, w: Writer)
    requires HasType(fs, m) && Sane(w) && root + End(fs, off) <= w.cur && w.cap < U32
    requires EmitFields(fs, m, root, off, always, w).Some?
    ensures var w' := EmitFields(fs, m, root, off, always, w).value;
            w.cur <= w'.cur && FieldsRead(fs, m, root, off, w.cur, w'.cur, w'.buf)
    decreases fs, 0, 0
  {
    hide Agree, Ahead, AlignOf, AlignUp, EmitField, FieldHasType, FieldReads, FieldsRead, Grown, Sane, SizeOf;
    if fs.Cons? {
      Step(fs, m, off);
      var at := AlignUp(off, AlignOf(fs.f));
      var next := at + SizeOf(fs.f);
      var w1 := EmitField(fs.f, m.v, root + at, always, w).value;
      var w2 := EmitFields(fs, m, root, off, always, w).value;
      FieldsSteps(fs, m, root, off, always, w, w1, w2);
      EmitFieldReads(fs.f, m.v, root + at, always, w);
      EmitFieldsRead(fs.rest, m.rest, root, next, always, w1);
      GrownAgree(w1, w2, root + next, root + End(fs, off), root + at, root + next);
      GrownAgree(w1, w2, root + next, root + End(fs, off), w.cur, w1.cur);
      FieldPersists(fs.f, m.v, root + at, w.cur, w1.cur, w1.buf, w.cur, w2.cur, w2.buf);
      GrownFacts(w1, w2, root + next, root + End(fs, off));
      SameRange(w2.buf, root + next, root + End(fs, off));
      SameRange(w2.buf, w1.cur, w2.cur);
      FieldsPersist(fs.rest, m.rest, root, next, w1.cur, w2.cur, w2.buf, w.cur, w2.cur, w2.buf);
      RecordReads(fs, m, root, off, w.cur, w2.cur, w2.buf);
    } else {
      NoFieldsRead(m, root, off, w.cur, w.buf);
    }
  }

  lemma SameRange(buf: seq<byte>, at: nat, end: nat)
    requires end <= |buf|
    ensures Agree(buf, buf, at, end)
  {
  }

  lemma NoFieldsRead(m: Values, root: nat, off: nat, lo: nat, buf: seq<byte>)
    requires m.VNil?
    ensures FieldsRead(Nil, m, root, off, lo, lo, buf)
  {
  }

  // ---------------------------------------------------------------- the whole segment

  lemma HeaderParses(s: Schema, total: nat, id: nat, buf: seq<byte>)
    requires s.hash < U32 && id < U32 && HEADER + RootSize(s.fields) <= total <= |buf| && total < U32
    requires HEADER <= |buf| && buf[..HEADER] == HeaderBytes(s.hash, RootSize(s.fields), total, id)
    ensures ParseHeader(buf) == Some(Header(s.hash, RootSize(s.fields), total, id))
  {
    hide ToLE, FromLE, RootSize;
    var rsize := RootSize(s.fields);
    U32IsPow256();
    assert Pow256(2) == 0x1_0000;
    HeaderParts(buf, ToLE(4, MAGIC), ToLE(4, s.hash), ToLE(4, HEADER), ToLE(4, rsize), ToLE(4, total),
                ToLE(2, LAYOUT_VER), ToLE(2, 0), ToLE(4, id), ToLE(4, 0));
    LERoundTrip(4, MAGIC);
    LERoundTrip(4, s.hash);
    LERoundTrip(4, HEADER);
    LERoundTrip(4, rsize);
    LERoundTrip(4, total);
    LERoundTrip(2, LAYOUT_VER);
    LERoundTrip(4, id);
  }

  /** The round trip: whatever buffer carries the first `total` bytes of a written segment decodes to
      the message, with or without zero copy, the schema given or looked up by its hash. */
  lemma RoundTrip(s: Schema, m: Values, seg: seq<byte>, cap: nat, id: nat, always: bool,
                  registry: map<nat, Schema>, given: Option<Schema>, received: seq<byte>, zero: bool)
    requires HasType(s.fields, m) && MsgSize(s.fields, m) < U32 && cap <= |seg| && cap < U32
    requires s.hash < U32 && id < U32
    requires var w := Write(s, m, seg, cap, id, always);
             w.Some? && w.value.cur <= |received| && received[..w.value.cur] == w.value.buf[..w.value.cur]
    requires given == Some(s) || (given == None && s.hash in registry && registry[s.hash] == s)
    ensures Decode(registry, given, received, zero) == Accepted(m)
  {
    hide HasType, VarlenSize, RootSize, EmitFields, FieldsRead, DecodeFields, HeaderBytes, ParseHeader, End;
    var fs := s.fields;
    var w0 := Opened(fs, seg, cap);
    var w1 := EmitFields(fs, m, HEADER, 0, always, w0).value;
    var w2 := Write(s, m, seg, cap, id, always).value;
    var total := w2.cur;
    EmitFieldsRead(fs, m, HEADER, 0, always, w0);
    GrownAgree(w1, w2, 0, HEADER, HEADER, HEADER + End(fs, 0));
    GrownAgree(w1, w2, 0, HEADER, w0.cur, w1.cur);
    assert received[..HEADER] == received[..total][..HEADER] == w2.buf[..total][..HEADER] == w2.buf[..HEADER];
    HeaderParses(s, total, id, received);
    SamePrefix(w2.buf, received, total);
    FieldsDecode(fs, m, HEADER, w0.cur, w1.cur, w1.buf, received, total, zero);
  }

  lemma SamePrefix(a: seq<byte>, b: seq<byte>, n: nat)
    requires n <= |a| && n <= |b| && a[..n] == b[..n]
    ensures Agree(a, b, 0, n)
  {
    forall p | 0 <= p < n ensures a[p] == b[p] { assert a[..n][p] == b[..n][p]; }
  }
}
