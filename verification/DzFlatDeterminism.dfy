/** What a written segment depends on. A chunk of shared memory is reused without being cleared, so the
    bytes between the fields matter. They are determined by the message exactly for the schemas in
    which no type that counts as tight has an empty record inlined in it. */
module DzFlatDeterminism {
  import opened Basics
  import opened DzFlatWire
  import opened DzFlatSchema
  import opened DzFlatWriter
  import opened DzFlatCapacity

  /** Emission writes every byte of the record. */
  predicate Covered(fs: Fields)
    decreases fs, 1
  {
    fs.Cons? && RootSize(fs) == SumSizes(fs) && InlineCovered(fs)
  }

  predicate InlineCovered(fs: Fields)
    decreases fs, 0
  {
    match fs
    case Nil => true
    case Cons(f, rest) => (f.Nested? ==> Covered(f.s.fields)) && InlineCovered(rest)
  }

  /** Every element type whose block is left uncleared has all its bytes written. */
  predicate Determinate(fs: Fields)
    decreases fs, 0
  {
    match fs
    case Nil => true
    case Cons(f, rest) => FieldDeterminate(f) && Determinate(rest)
  }

  predicate FieldDeterminate(f: Field)
    decreases f, 1
  {
    match f
    case Nested(s) => Determinate(s.fields)
    case NestedArray(s) => (Tight(s.fields) ==> Covered(s.fields)) && Determinate(s.fields)
    case _ => true
  }

  /** Every message type has at least one field. */
  predicate NonEmpty(fs: Fields)
    decreases fs, 1
  {
    fs.Cons? && NestedNonEmpty(fs)
  }

  predicate NestedNonEmpty(fs: Fields)
    decreases fs, 0
  {
    match fs
    case Nil => true
    case Cons(f, rest) => (f.Nested? || f.NestedArray? ==> NonEmpty(f.s.fields)) && NestedNonEmpty(rest)
  }

  lemma {:induction false} TightIsCovered(fs: Fields)
    requires Tight(fs) && NonEmpty(fs)
    ensures Covered(fs)
    decreases fs, 1
  {
    InlineTightIsCovered(fs);
  }

  lemma {:induction false} InlineTightIsCovered(fs: Fields)
    requires AllTight(fs) && NestedNonEmpty(fs)
    ensures InlineCovered(fs)
    decreases fs, 0
  {
    if fs.Cons? {
      if fs.f.Nested? { TightIsCovered(fs.f.s.fields); }
      InlineTightIsCovered(fs.rest);
    }
  }

  /** Schemas without empty messages are determinate. */
  lemma {:induction false} NonEmptyIsDeterminate(fs: Fields)
    requires NestedNonEmpty(fs)
    ensures Determinate(fs)
  {
    hide RootSize, SumSizes;
    if fs.Cons? {
      if fs.f.Nested? || fs.f.NestedArray? {
        NonEmptyIsDeterminate(fs.f.s.fields);
        if Tight(fs.f.s.fields) { TightIsCovered(fs.f.s.fields); }
      }
      NonEmptyIsDeterminate(fs.rest);
    }
  }

  // ---------------------------------------------------------------- two runs side by side

  /** The same position in two segments with different contents. */
  ghost predicate Twin(w: Writer, x: Writer) {
    Sane(w) && Sane(x) && w.cur == x.cur && w.cap == x.cap
  }

  ghost predicate Same(r: Option<Writer>, q: Option<Writer>) {
    (r.None? <==> q.None?) && (r.Some? ==> Twin(r.value, q.value))
  }

  lemma AgreeStays(w: Writer, x: Writer, w': Writer, x': Writer, lo: nat, hi: nat, at: nat, end: nat)
    requires Twin(w, x) && Grown(w, w', lo, hi) && Grown(x, x', lo, hi)
    requires Agree(w.buf, x.buf, at, end) && end <= w.cur && (end <= lo || hi <= at)
    ensures Agree(w'.buf, x'.buf, at, end)
  {
  }

  lemma AgreeJoin(a: seq<byte>, b: seq<byte>, lo: nat, mid: nat, hi: nat)
    requires Agree(a, b, lo, mid) && Agree(a, b, mid, hi)
    ensures Agree(a, b, lo, hi)
  {
  }

  /** One range of both segments filled, then the range after it. */
  lemma AgreeBoth(w: Writer, x: Writer, w': Writer, x': Writer, at: nat, next: nat, end: nat, from: nat)
    requires Twin(w, x) && Twin(w', x') && Grown(w, w', next, end) && Grown(x, x', next, end)
    requires at <= next <= end <= from <= w.cur
    requires Agree(w.buf, x.buf, at, next) && Agree(w.buf, x.buf, from, w.cur)
    requires Agree(w'.buf, x'.buf, next, end) && Agree(w'.buf, x'.buf, w.cur, w'.cur)
    ensures Agree(w'.buf, x'.buf, at, end) && Agree(w'.buf, x'.buf, from, w'.cur)
  {
    AgreeStays(w, x, w', x', next, end, at, next);
    AgreeStays(w, x, w', x', next, end, from, w.cur);
  }

  lemma PutTwin(w: Writer, x: Writer, at: nat, bs: seq<byte>)
    requires Twin(w, x) && at + |bs| <= w.cur
    ensures Twin(PutAt(w, at, bs), PutAt(x, at, bs))
    ensures Agree(PutAt(w, at, bs).buf, PutAt(x, at, bs).buf, at, at + |bs|)
  {
    var (a, b) := (PutAt(w, at, bs).buf, PutAt(x, at, bs).buf);
    forall p | at <= p < at + |bs| ensures a[p] == b[p] {
      assert a[p] == a[at..at + |bs|][p - at] && b[p] == b[at..at + |bs|][p - at];
    }
  }

  lemma ReserveTwin(w: Writer, x: Writer, n: nat)
    requires Twin(w, x)
    ensures var (r, q) := (Reserve(w, n), Reserve(x, n));
            r.1 == q.1 && (r.1 != 0 ==> Twin(r.0, q.0) && Agree(r.0.buf, q.0.buf, w.cur, r.1))
  {
    hide AlignUp;
    var (r, q) := (Reserve(w, n), Reserve(x, n));
    if r.1 != 0 {
      var gap := Zeros(r.1 - w.cur);
      forall p | w.cur <= p < r.1 ensures r.0.buf[p] == q.0.buf[p] {
        assert r.0.buf[p] == r.0.buf[w.cur..r.1][p - w.cur] && q.0.buf[p] == q.0.buf[w.cur..r.1][p - w.cur];
      }
    }
  }

  lemma BlockTwin(bs: seq<byte>, w: Writer, x: Writer)
    requires Twin(w, x)
    ensures var (r, q) := (EmitBlock(bs, w), EmitBlock(bs, x));
            && (r.None? <==> q.None?)
            && (r.Some? ==> Twin(r.value.0, q.value.0) && r.value.1 == q.value.1
                            && Agree(r.value.0.buf, q.value.0.buf, w.cur, r.value.0.cur))
  {
    hide Ahead, AlignUp, PutAt, Reserve;
    if bs != [] {
      ReserveTwin(w, x, |bs|);
      var (w1, off) := Reserve(w, |bs|);
      var (x1, off') := Reserve(x, |bs|);
      if off != 0 {
        PutTwin(w1, x1, off, bs);
        AgreeStays(w1, x1, PutAt(w1, off, bs), PutAt(x1, off, bs), off, off + |bs|, w.cur, off);
        AgreeJoin(PutAt(w1, off, bs).buf, PutAt(x1, off, bs).buf, w.cur, off, off + |bs|);
      }
    } else {
    }
  }

  lemma RefTwin(w: Writer, x: Writer, w1: Writer, x1: Writer, at: nat, off: nat, cnt: nat)
    requires Twin(w, x) && at + REF_SIZE <= w.cur && Grown(w, w1, 0, 0) && Grown(x, x1, 0, 0)
    requires Twin(w1, x1) && Agree(w1.buf, x1.buf, w.cur, w1.cur)
    ensures var (w', x') := (PutRef(w, w1, at, off, cnt), PutRef(x, x1, at, off, cnt));
            && Twin(w', x') && Agree(w'.buf, x'.buf, at, at + REF_SIZE) && Agree(w'.buf, x'.buf, w.cur, w'.cur)
  {
    hide RefBytes;
    PutTwin(w1, x1, at, RefBytes(off, cnt));
    AgreeStays(w1, x1, PutAt(w1, at, RefBytes(off, cnt)), PutAt(x1, at, RefBytes(off, cnt)), at, at + REF_SIZE,
               w.cur, w1.cur);
  }

  lemma BytesTwin(bs: seq<byte>, cnt: nat, at: nat, w: Writer, x: Writer)
    requires Twin(w, x) && at + REF_SIZE <= w.cur
    ensures var (r, q) := (EmitBytes(bs, cnt, at, w), EmitBytes(bs, cnt, at, x));
            && Same(r, q)
            && (r.Some? ==> Agree(r.value.buf, q.value.buf, at, at + REF_SIZE)
                            && Agree(r.value.buf, q.value.buf, w.cur, r.value.cur))
  {
    hide Agree, EmitBlock, Grown, PutRef, Sane;
    BlockTwin(bs, w, x);
    var (r, q) := (EmitBlock(bs, w), EmitBlock(bs, x));
    if r.Some? { RefTwin(w, x, r.value.0, q.value.0, at, r.value.1, cnt); }
  }

  lemma {:induction false} StrsTwin(ss: seq<seq<byte>>, tbl: nat, i: nat, w: Writer, x: Writer)
    requires i <= |ss| && Twin(w, x) && tbl + Times(|ss|, REF_SIZE) <= w.cur
    ensures var (r, q) := (EmitStrs(ss, tbl, i, w), EmitStrs(ss, tbl, i, x));
            && Same(r, q)
            && (r.Some? ==> Agree(r.value.buf, q.value.buf, tbl + Times(i, REF_SIZE), tbl + Times(|ss|, REF_SIZE))
                            && Agree(r.value.buf, q.value.buf, w.cur, r.value.cur))
    decreases |ss| - i
  {
    hide EmitBytes, Grown, Times;
    if i < |ss| {
      ElemInside(i, |ss|, REF_SIZE);
      var at, end := tbl + Times(i, REF_SIZE), tbl + Times(|ss|, REF_SIZE);
      var (r, q) := (EmitBytes(ss[i], |ss[i]|, at, w), EmitBytes(ss[i], |ss[i]|, at, x));
      BytesTwin(ss[i], |ss[i]|, at, w, x);
      if r.Some? {
        GrownFacts(w, r.value, at, at + REF_SIZE);
        StrsTwin(ss, tbl, i + 1, r.value, q.value);
        var (r', q') := (EmitStrs(ss, tbl, i + 1, r.value), EmitStrs(ss, tbl, i + 1, q.value));
        if r'.Some? {
          AgreeBoth(r.value, q.value, r'.value, q'.value, at, at + REF_SIZE, end, w.cur);
        }
      }
    } else {
    }
  }

  lemma StandStillAll(w: Writer, x: Writer)
    requires Twin(w, x)
    ensures Grown(w, w, 0, 0) && Grown(x, x, 0, 0) && Agree(w.buf, x.buf, w.cur, w.cur)
  {
  }

  lemma StrArrayTwin(ss: seq<seq<byte>>, at: nat, w: Writer, x: Writer)
    requires Twin(w, x) && at + REF_SIZE <= w.cur
    ensures var (r, q) := (EmitStrArray(ss, at, w), EmitStrArray(ss, at, x));
            && Same(r, q)
            && (r.Some? ==> Agree(r.value.buf, q.value.buf, at, at + REF_SIZE)
                            && Agree(r.value.buf, q.value.buf, w.cur, r.value.cur))
  {
    hide Agree, AlignUp, EmitStrs, Grown, PutRef, Reserve, Sane, Times;
    if ss == [] {
      StandStillAll(w, x);
      RefTwin(w, x, w, x, at, 0, 0);
    } else {
      var n := Times(|ss|, REF_SIZE);
      ReserveTwin(w, x, n);
      var ((w1, tbl), (x1, tbl')) := (Reserve(w, n), Reserve(x, n));
      if tbl != 0 {
        StrsTwin(ss, tbl, 0, w1, x1);
        TimesIsProduct(0, REF_SIZE);
        var (r, q) := (EmitStrs(ss, tbl, 0, w1), EmitStrs(ss, tbl, 0, x1));
        if r.Some? { BlockDone(w, x, w1, x1, r.value, q.value, at, tbl, n, |ss|); }
      }
    }
  }

  /** A block of `n` bytes was reserved at `blk` and filled; its reference goes into the record. */
  lemma BlockDone(w: Writer, x: Writer, w1: Writer, x1: Writer, w2: Writer, x2: Writer, at: nat, blk: nat, n: nat,
                  cnt: nat)
    requires Twin(w, x) && at + REF_SIZE <= w.cur && Twin(w1, x1) && Twin(w2, x2)
    requires Grown(w, w1, 0, 0) && Grown(x, x1, 0, 0) && w.cur <= blk && blk + n == w1.cur
    requires Grown(w1, w2, blk, blk + n) && Grown(x1, x2, blk, blk + n)
    requires Agree(w1.buf, x1.buf, w.cur, blk)
    requires Agree(w2.buf, x2.buf, blk, blk + n) && Agree(w2.buf, x2.buf, w1.cur, w2.cur)
    ensures Grown(w, w2, 0, 0) && Grown(x, x2, 0, 0)
    ensures var (w', x') := (PutRef(w, w2, at, blk, cnt), PutRef(x, x2, at, blk, cnt));
            && Twin(w', x') && Agree(w'.buf, x'.buf, at, at + REF_SIZE) && Agree(w'.buf, x'.buf, w.cur, w'.cur)
  {
    hide PutRef;
    GrownThen(w, w1, w2, 0, 0, blk, blk + n);
    GrownThen(x, x1, x2, 0, 0, blk, blk + n);
    AgreeStays(w1, x1, w2, x2, blk, blk + n, w.cur, blk);
    RefTwin(w, x, w2, x2, at, blk, cnt);
  }

  // ---------------------------------------------------------------- records

  /** Without padding, no gap is skipped. */
  lemma {:induction false} EndAtLeast(fs: Fields, off: nat)
    ensures End(fs, off) >= off + SumSizes(fs)
  {
    hide SizeOf, AlignOf, AlignUp;
    if fs.Cons? { EndAtLeast(fs.rest, AlignUp(off, AlignOf(fs.f)) + SizeOf(fs.f)); }
  }

  predicate FieldCovered(f: Field) {
    f.Nested? ==> Covered(f.s.fields)
  }

  /** All bytes from `off` to the end of the record are written. */
  predicate Seamless(fs: Fields, off: nat) {
    End(fs, off) == off + SumSizes(fs) && InlineCovered(fs)
  }

  lemma SeamlessStep(fs: Fields, off: nat)
    requires fs.Cons? && Seamless(fs, off)
    ensures AlignUp(off, AlignOf(fs.f)) == off && FieldCovered(fs.f) && Seamless(fs.rest, off + SizeOf(fs.f))
  {
    hide SizeOf, AlignOf, AlignUp, Covered;
    EndAtLeast(fs.rest, AlignUp(off, AlignOf(fs.f)) + SizeOf(fs.f));
  }

  lemma CoveredSeamless(fs: Fields)
    requires Covered(fs)
    ensures Seamless(fs, 0) && End(fs, 0) == RootSize(fs)
  {
    EndAtLeast(fs, 0);
  }

  /** The outcome for a range `[at, end)` of a record: it agrees afterwards if it did before or is all written. */
  ghost predicate Settles(w: Writer, x: Writer, r: Option<Writer>, q: Option<Writer>, at: nat, end: nat,
                          covered: bool) {
    r.Some? ==>
      && q.Some?
      && Agree(r.value.buf, q.value.buf, w.cur, r.value.cur)
      && (covered || Agree(w.buf, x.buf, at, end) ==> Agree(r.value.buf, q.value.buf, at, end))
  }

  lemma {:induction false} ElemsTwin(fs: Fields, ms: seq<Values>, blk: nat, i: nat, a: bool, b: bool, w: Writer,
                                     x: Writer)
    requires i <= |ms| && (forall k :: 0 <= k < |ms| ==> HasType(fs, ms[k])) && Determinate(fs)
    requires Twin(w, x) && blk + Times(|ms|, RootSize(fs)) <= w.cur
    ensures var (r, q) := (EmitElems(fs, ms, blk, i, a, w), EmitElems(fs, ms, blk, i, b, x));
            && Same(r, q)
            && Settles(w, x, r, q, blk + Times(i, RootSize(fs)), blk + Times(|ms|, RootSize(fs)), Covered(fs))
    decreases fs, 1, |ms| - i
  {
    hide Agree, Ahead, Covered, Determinate, EmitFields, End, Grown, HasType, RootSize, Sane, Settles, Times;
    if i < |ms| {
      ElemInside(i, |ms|, RootSize(fs));
      var at, next, end := blk + Times(i, RootSize(fs)), blk + Times(i + 1, RootSize(fs)),
          blk + Times(|ms|, RootSize(fs));
      var (r, q) := (EmitFields(fs, ms[i], at, 0, a, w), EmitFields(fs, ms[i], at, 0, b, x));
      RecordTwin(fs, ms[i], at, a, b, w, x);
      if r.Some? {
        FieldsGrow(fs, ms[i], at, 0, a, w);
        FieldsGrow(fs, ms[i], at, 0, b, x);
        GrownWiden(w, r.value, at, next, at, at + End(fs, 0));
        GrownWiden(x, q.value, at, next, at, at + End(fs, 0));
        GrownFacts(w, r.value, at, next);
        ElemsTwin(fs, ms, blk, i + 1, a, b, r.value, q.value);
        var (r', q') := (EmitElems(fs, ms, blk, i + 1, a, r.value), EmitElems(fs, ms, blk, i + 1, b, q.value));
        if r'.Some? {
          ElemsGrow(fs, ms, blk, i + 1, a, r.value);
          ElemsGrow(fs, ms, blk, i + 1, b, q.value);
        }
        SettlesBoth(w, x, r.value, q.value, r', q', at, at, next, end, Covered(fs), Covered(fs), Covered(fs));
      } else {
        NothingSettles(w, x, at, end, Covered(fs));
      }
    } else {
      StandStill(w, x, blk + Times(i, RootSize(fs)), Covered(fs));
    }
  }

  /** One part of a range, then the rest of it. */
  lemma SettlesBoth(w: Writer, x: Writer, w1: Writer, x1: Writer, r: Option<Writer>, q: Option<Writer>,
                    lo: nat, at: nat, next: nat, end: nat, first: bool, rest: bool, covered: bool)
    requires Twin(w, x) && Twin(w1, x1) && lo <= at <= next <= end <= w.cur && Same(r, q)
    requires covered ==> lo == at && first && rest
    requires Grown(w, w1, at, next) && Grown(x, x1, at, next)
    requires r.Some? ==> Grown(w1, r.value, next, end) && Grown(x1, q.value, next, end)
    requires Settles(w, x, Some(w1), Some(x1), at, next, first) && Settles(w1, x1, r, q, next, end, rest)
    ensures Settles(w, x, r, q, lo, end, covered)
  {
    if r.Some? {
      if covered || Agree(w.buf, x.buf, lo, end) {
        if !covered {
          AgreeStays(w, x, w1, x1, at, next, next, end);
          AgreeStays(w, x, w1, x1, at, next, lo, at);
          AgreeJoin(w1.buf, x1.buf, lo, at, next);
        }
        AgreeBoth(w1, x1, r.value, q.value, lo, next, end, w.cur);
      } else {
        AgreeStays(w1, x1, r.value, q.value, next, end, w.cur, w1.cur);
      }
    }
  }

  /** A whole record, padding at its end included. */
  lemma {:induction false} RecordTwin(fs: Fields, m: Values, root: nat, a: bool, b: bool, w: Writer, x: Writer)
    requires HasType(fs, m) && Determinate(fs) && Twin(w, x) && root + RootSize(fs) <= w.cur
    ensures var (r, q) := (EmitFields(fs, m, root, 0, a, w), EmitFields(fs, m, root, 0, b, x));
            && Same(r, q)
            && Settles(w, x, r, q, root, root + RootSize(fs), Covered(fs))
            && (r.Some? ==>
                  Grown(w, r.value, root, root + RootSize(fs)) && Grown(x, q.value, root, root + RootSize(fs)))
    decreases fs, 0, 1
  {
    hide Ahead, Covered, Determinate, EmitFields, End, Grown, HasType, RootSize, Seamless;
    var (r, q) := (EmitFields(fs, m, root, 0, a, w), EmitFields(fs, m, root, 0, b, x));
    var (end, top) := (root + End(fs, 0), root + RootSize(fs));
    FieldsTwin(fs, m, root, 0, a, b, w, x);
    if r.Some? {
      FieldsGrow(fs, m, root, 0, a, w);
      FieldsGrow(fs, m, root, 0, b, x);
      GrownWiden(w, r.value, root, top, root, end);
      GrownWiden(x, q.value, root, top, root, end);
      if Covered(fs) {
        CoveredSeamless(fs);
      } else if Agree(w.buf, x.buf, root, top) {
        AgreeStays(w, x, r.value, q.value, root, end, end, top);
        AgreeJoin(r.value.buf, q.value.buf, root, end, top);
      }
    }
  }

  lemma {:induction false} MsgArrayTwin(fs: Fields, ms: seq<Values>, at: nat, a: bool, b: bool, w: Writer, x: Writer)
    requires (forall k :: 0 <= k < |ms| ==> HasType(fs, ms[k])) && Determinate(fs) && (Tight(fs) ==> Covered(fs))
    requires Twin(w, x) && at + REF_SIZE <= w.cur
    ensures var (r, q) := (EmitMsgArray(fs, ms, at, a, w), EmitMsgArray(fs, ms, at, b, x));
            && Same(r, q)
            && (r.Some? ==> Agree(r.value.buf, q.value.buf, at, at + REF_SIZE)
                            && Agree(r.value.buf, q.value.buf, w.cur, r.value.cur))
    decreases fs, 2, 0
  {
    hide Agree, Ahead, AlignUp, Cleared, Covered, Determinate, EmitElems, End, Grown, HasType, PutAt, RefBytes,
         Reserve, RootSize, Sane, Tight, Times;
    if ms == [] {
      StandStillAll(w, x);
      RefTwin(w, x, w, x, at, 0, 0);
    } else {
      var n := Times(|ms|, RootSize(fs));
      ReserveTwin(w, x, n);
      var ((w1, blk), (x1, blk')) := (Reserve(w, n), Reserve(x, n));
      if blk != 0 {
        var (w2, x2) := (Cleared(fs, blk, n, a, w1), Cleared(fs, blk, n, b, x1));
        TimesIsProduct(0, RootSize(fs));
        ClearedTwin(fs, blk, n, a, b, w1, x1);
        ElemsTwin(fs, ms, blk, 0, a, b, w2, x2);
        var (r, q) := (EmitElems(fs, ms, blk, 0, a, w2), EmitElems(fs, ms, blk, 0, b, x2));
        if r.Some? {
          AgreeStays(w1, x1, w2, x2, blk, blk + n, w.cur, blk);
          MsgBlockGrows(fs, ms, blk, a, w, w1);
          MsgBlockGrows(fs, ms, blk, b, x, x1);
          BlockDone(w, x, w2, x2, r.value, q.value, at, blk, n, |ms|);
        }
      }
    }
  }

  lemma ClearedTwin(fs: Fields, blk: nat, n: nat, a: bool, b: bool, w: Writer, x: Writer)
    requires Twin(w, x) && blk + n <= w.cur && (Tight(fs) ==> Covered(fs))
    ensures var (w', x') := (Cleared(fs, blk, n, a, w), Cleared(fs, blk, n, b, x));
            Twin(w', x') && (Covered(fs) || Agree(w'.buf, x'.buf, blk, blk + n))
  {
    hide Tight, Covered;
    if !Tight(fs) { PutTwin(w, x, blk, Zeros(n)); }
  }

  lemma {:induction false} FieldTwin(f: Field, v: Value, at: nat, a: bool, b: bool, w: Writer, x: Writer)
    requires FieldHasType(f, v) && FieldDeterminate(f) && Twin(w, x) && at + SizeOf(f) <= w.cur
    ensures var (r, q) := (EmitField(f, v, at, a, w), EmitField(f, v, at, b, x));
            Same(r, q) && Settles(w, x, r, q, at, at + SizeOf(f), FieldCovered(f))
    decreases f, 1, 0
  {
    hide Ahead, Covered, Determinate, EmitBytes, EmitFields, EmitMsgArray, EmitStrArray, EncodeInts, End, Grown,
         HasType, InRange, Put, RootSize, ScalarBytes, Size, Tight, Times;
    if f.Scalar? {
      PutTwin(w, x, at, ScalarBytes(f.b, v.v));
    } else if f.FixedArray? {
      PutTwin(w, x, at, EncodeInts(f.b, v.vs));
    } else if f.Str? {
      BytesTwin(v.bs, |v.bs|, at, w, x);
    } else if f.VarArray? {
      BytesTwin(EncodeInts(f.b, v.vs), |v.vs|, at, w, x);
    } else if f.StrArray? {
      StrArrayTwin(v.ss, at, w, x);
    } else if f.Nested? {
      RecordTwin(f.s.fields, v.m, at, a, b, w, x);
    } else {
      MsgArrayTwin(f.s.fields, v.ms, at, a, b, w, x);
    }
  }

  lemma {:induction false} FieldsTwin(fs: Fields, m: Values, root: nat, off: nat, a: bool, b: bool, w: Writer,
                                      x: Writer)
    requires HasType(fs, m) && Determinate(fs) && Twin(w, x) && root + End(fs, off) <= w.cur
    ensures var (r, q) := (EmitFields(fs, m, root, off, a, w), EmitFields(fs, m, root, off, b, x));
            Same(r, q) && Settles(w, x, r, q, root + off, root + End(fs, off), Seamless(fs, off))
    decreases fs, 0, 0
  {
    hide Ahead, AlignOf, AlignUp, Determinate, EmitField, End, FieldCovered, FieldDeterminate, FieldHasType, Grown,
         HasType, Sane, Seamless, Settles, SizeOf;
    if fs.Cons? {
      Step(fs, m, off);
      DeterminateStep(fs);
      var at := AlignUp(off, AlignOf(fs.f));
      var next := at + SizeOf(fs.f);
      var (r, q) := (EmitField(fs.f, m.v, root + at, a, w), EmitField(fs.f, m.v, root + at, b, x));
      FieldTwin(fs.f, m.v, root + at, a, b, w, x);
      if r.Some? {
        FieldGrows(fs.f, m.v, root + at, a, w);
        FieldGrows(fs.f, m.v, root + at, b, x);
        GrownFacts(w, r.value, root + at, root + next);
        FieldsTwin(fs.rest, m.rest, root, next, a, b, r.value, q.value);
        var (r', q') := (EmitFields(fs.rest, m.rest, root, next, a, r.value),
                         EmitFields(fs.rest, m.rest, root, next, b, q.value));
        if r'.Some? {
          FieldsGrow(fs.rest, m.rest, root, next, a, r.value);
          FieldsGrow(fs.rest, m.rest, root, next, b, q.value);
        }
        var covered := Seamless(fs, off);
        if covered { SeamlessStep(fs, off); }
        SettlesBoth(w, x, r.value, q.value, r', q', root + off, root + at, root + next, root + End(fs, off),
                    FieldCovered(fs.f), Seamless(fs.rest, next), covered);
      } else {
        NothingSettles(w, x, root + off, root + End(fs, off), Seamless(fs, off));
      }
    } else {
      NoFields(fs, off);
      StandStill(w, x, root + off, Seamless(fs, off));
    }
  }

  lemma DeterminateStep(fs: Fields)
    requires fs.Cons? && Determinate(fs)
    ensures FieldDeterminate(fs.f) && Determinate(fs.rest)
  {
  }

  lemma NothingSettles(w: Writer, x: Writer, at: nat, end: nat, covered: bool)
    ensures Settles(w, x, None, None, at, end, covered)
  {
  }

  lemma NoFields(fs: Fields, off: nat)
    requires fs.Nil?
    ensures End(fs, off) == off
  {
  }

  lemma StandStill(w: Writer, x: Writer, at: nat, covered: bool)
    requires Twin(w, x) && at <= w.cur
    ensures Settles(w, x, Some(w), Some(x), at, at, covered)
  {
  }
}
