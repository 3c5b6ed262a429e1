/** Message schemas, their record layout and the messages they describe. */
module DzFlatSchema {
  import opened DzFlatWire

  /** The parser refuses fixed arrays without elements. */
  type pos = x: nat | x > 0 witness 1

  /** The seven kinds of field. A nested type appears with its whole schema. */
  datatype Field =
    | Scalar(b: Base)
    | FixedArray(b: Base, count: pos)
    | Str
    | VarArray(b: Base)
    | StrArray
    | Nested(s: Schema)
    | NestedArray(s: Schema)

  datatype Fields = Nil | Cons(f: Field, rest: Fields)

  datatype Schema = Schema(hash: nat, fields: Fields)

  datatype Value =
    | VInt(v: int)
    | VInts(vs: seq<int>)
    | VBytes(bs: seq<byte>)
    | VStrs(ss: seq<seq<byte>>)
    | VMsg(m: Values)
    | VMsgs(ms: seq<Values>)

  datatype Values = VNil | VCons(v: Value, rest: Values)

  const REF_SIZE: nat := 8
  const REF_ALIGN: nat := 4
  const ROOT_ALIGN: nat := 8
  const HEADER: nat := 32

  /** What is missing to the next multiple of `a`. */
  function Gap(n: nat, a: nat): (g: nat)
    requires a == 1 || a == 2 || a == 4 || a == 8
    ensures g < a
  {
    if n == 0 then 0 else if n < a then a - n else Gap(n - a, a)
  }

  /** The next multiple of a scalar alignment. */
  function AlignUp(n: nat, a: nat): (r: nat)
    requires a == 1 || a == 2 || a == 4 || a == 8
    ensures n <= r < n + a
  {
    n + Gap(n, a)
  }

  predicate Aligned(n: nat, a: nat) {
    if a == 8 then n % 8 == 0
    else if a == 4 then n % 4 == 0
    else if a == 2 then n % 2 == 0
    else true
  }

  lemma {:induction false} GapFills(n: nat, a: nat)
    requires a == 1 || a == 2 || a == 4 || a == 8
    ensures (n + Gap(n, a)) % a == 0
    ensures n % a == 0 ==> Gap(n, a) == 0
  {
    if n >= a {
      GapFills(n - a, a);
      Periodic(n - a + Gap(n, a), a);
      Periodic(n - a, a);
    } else if n > 0 {
      assert n % a == n;
    }
  }

  lemma Periodic(n: nat, a: nat)
    requires a == 1 || a == 2 || a == 4 || a == 8
    ensures (n + a) % a == n % a
  {
    if a == 8 { assert (n + 8) % 8 == n % 8; }
  }

  lemma EightAtLeast(n: nat)
    requires n > 0 && n % 8 == 0
    ensures n >= 8
  {
  }

  lemma AlignUpAligns(n: nat, a: nat)
    requires a == 1 || a == 2 || a == 4 || a == 8
    ensures Aligned(AlignUp(n, a), a)
    ensures Aligned(n, a) ==> AlignUp(n, a) == n
    ensures a == 8 && n > 0 ==> AlignUp(n, a) >= 8
  {
    GapFills(n, a);
    if a == 8 && n > 0 { EightAtLeast(AlignUp(n, a)); }
  }

  lemma Align8(n: nat)
    ensures AlignUp(n, 8) % 8 == 0 && (n % 8 == 0 ==> AlignUp(n, 8) == n)
  {
    GapFills(n, 8);
  }

  function AlignOf(f: Field): (a: nat)
    ensures a == 1 || a == 2 || a == 4 || a == 8
  {
    match f
    case Scalar(b) => Size(b)
    case FixedArray(b, _) => Size(b)
    case Nested(_) => ROOT_ALIGN
    case _ => REF_ALIGN
  }

  /** Bytes of the field inside the record. */
  function SizeOf(f: Field): (n: nat)
    ensures n > 0
    decreases f
  {
    match f
    case Scalar(b) => Size(b)
    case FixedArray(b, count) => Times(count, Size(b))
    case Nested(s) => RootSize(s.fields)
    case _ => REF_SIZE
  }

  /** First free byte after laying the fields out from `cur`. */
  function End(fs: Fields, cur: nat): (e: nat)
    ensures e >= cur && (fs.Cons? ==> e > cur)
    decreases fs, 0
  {
    match fs
    case Nil => cur
    case Cons(f, rest) => End(rest, AlignUp(cur, AlignOf(f)) + SizeOf(f))
  }

  /** Size of a record: a multiple of 8 that contains all fields; 8 when there are none. */
  function RootSize(fs: Fields): (n: nat)
    ensures n >= End(fs, 0) && n % 8 == 0 && n >= 8
    ensures fs.Nil? ==> n == 8
    decreases fs, 1
  {
    if fs.Nil? then ROOT_ALIGN
    else
      AlignUpAligns(End(fs, 0), ROOT_ALIGN);
      AlignUp(End(fs, 0), ROOT_ALIGN)
  }

  /** Offset of the i-th field, as the layout loop finds it. */
  function Offset(fs: Fields, cur: nat, i: nat): nat
    requires i < Count(fs)
  {
    if i == 0 then AlignUp(cur, AlignOf(fs.f))
    else Offset(fs.rest, AlignUp(cur, AlignOf(fs.f)) + SizeOf(fs.f), i - 1)
  }

  function Count(fs: Fields): nat {
    if fs.Nil? then 0 else 1 + Count(fs.rest)
  }

  function FieldAt(fs: Fields, i: nat): Field
    requires i < Count(fs)
  {
    if i == 0 then fs.f else FieldAt(fs.rest, i - 1)
  }

  lemma {:induction false} OffsetsAligned(fs: Fields, cur: nat, i: nat)
    requires i < Count(fs)
    ensures Aligned(Offset(fs, cur, i), AlignOf(FieldAt(fs, i)))
  {
    hide SizeOf, AlignUp, AlignOf, Aligned;
    AlignUpAligns(cur, AlignOf(fs.f));
    if i > 0 {
      OffsetsAligned(fs.rest, AlignUp(cur, AlignOf(fs.f)) + SizeOf(fs.f), i - 1);
    }
  }

  lemma {:induction false} FieldInside(fs: Fields, cur: nat, j: nat)
    requires j < Count(fs)
    ensures cur <= Offset(fs, cur, j) && Offset(fs, cur, j) + SizeOf(FieldAt(fs, j)) <= End(fs, cur)
  {
    hide SizeOf, AlignUp, AlignOf;
    if j > 0 {
      FieldInside(fs.rest, AlignUp(cur, AlignOf(fs.f)) + SizeOf(fs.f), j - 1);
    }
  }

  lemma {:induction false} FieldsDisjoint(fs: Fields, cur: nat, i: nat, j: nat)
    requires i < j < Count(fs)
    ensures Offset(fs, cur, i) + SizeOf(FieldAt(fs, i)) <= Offset(fs, cur, j)
  {
    hide SizeOf, AlignUp, AlignOf;
    var next := AlignUp(cur, AlignOf(fs.f)) + SizeOf(fs.f);
    assert Offset(fs, cur, j) == Offset(fs.rest, next, j - 1) && FieldAt(fs, j) == FieldAt(fs.rest, j - 1);
    if i > 0 {
      assert Offset(fs, cur, i) == Offset(fs.rest, next, i - 1) && FieldAt(fs, i) == FieldAt(fs.rest, i - 1);
      FieldsDisjoint(fs.rest, next, i - 1, j - 1);
    } else {
      FieldInside(fs.rest, next, j - 1);
    }
  }

  /** Every field is aligned and lies inside the record, no two fields share a byte, and the record
      size is a multiple of 8, so records in an array keep their fields aligned. */
  lemma LayoutIsSound(fs: Fields)
    ensures RootSize(fs) % 8 == 0
    ensures forall i :: 0 <= i < Count(fs) ==>
              && Aligned(Offset(fs, 0, i), AlignOf(FieldAt(fs, i)))
              && Offset(fs, 0, i) + SizeOf(FieldAt(fs, i)) <= RootSize(fs)
    ensures forall i, j :: 0 <= i < j < Count(fs) ==>
              Offset(fs, 0, i) + SizeOf(FieldAt(fs, i)) <= Offset(fs, 0, j)
  {
    forall i | 0 <= i < Count(fs)
      ensures Aligned(Offset(fs, 0, i), AlignOf(FieldAt(fs, i)))
      ensures Offset(fs, 0, i) + SizeOf(FieldAt(fs, i)) <= RootSize(fs)
    {
      OffsetsAligned(fs, 0, i);
      FieldInside(fs, 0, i);
    }
    forall i, j | 0 <= i < j < Count(fs)
      ensures Offset(fs, 0, i) + SizeOf(FieldAt(fs, i)) <= Offset(fs, 0, j)
    {
      FieldsDisjoint(fs, 0, i, j);
    }
  }

  // ---------------------------------------------------------------- no byte more than the rules ask for

  predicate Multiple(n: nat, a: nat) {
    a > 0 && n % a == 0
  }

  /** `r` is the first multiple of `a` from `n` on. */
  ghost predicate FirstMultiple(r: nat, n: nat, a: nat) {
    n <= r && Multiple(r, a) && forall m: nat :: n <= m && Multiple(m, a) ==> r <= m
  }

  lemma AlignUpIsFirst(n: nat, a: nat)
    requires a == 1 || a == 2 || a == 4 || a == 8
    ensures FirstMultiple(AlignUp(n, a), n, a)
  {
    var r := AlignUp(n, a);
    GapFills(n, a);
    forall m: nat | n <= m && Multiple(m, a) ensures r <= m {
      if m < r { NoMultipleBetween(m, r, a); }
    }
  }

  lemma NoMultipleBetween(m: nat, r: nat, a: nat)
    requires a == 1 || a == 2 || a == 4 || a == 8
    requires m < r && Multiple(m, a) && Multiple(r, a)
    ensures m + a <= r
  {
  }

  /** Where a field of this kind goes when `free` is the first byte after the field before it: scalars and
      arrays of them at their own width, nested records at 8, references at 4, none later than needed. */
  ghost predicate PlacedFirst(f: Field, free: nat, at: nat) {
    match f
    case Scalar(b) => FirstMultiple(at, free, Size(b))
    case FixedArray(b, _) => FirstMultiple(at, free, Size(b))
    case Nested(_) => FirstMultiple(at, free, 8)
    case _ => FirstMultiple(at, free, 4)
  }

  /** First byte after field `i - 1`. */
  function FreeAt(fs: Fields, cur: nat, i: nat): nat
    requires i <= Count(fs)
  {
    if i == 0 then cur else Offset(fs, cur, i - 1) + SizeOf(FieldAt(fs, i - 1))
  }

  lemma {:induction false} FieldsPlacedFirst(fs: Fields, cur: nat, i: nat)
    requires i < Count(fs)
    ensures PlacedFirst(FieldAt(fs, i), FreeAt(fs, cur, i), Offset(fs, cur, i))
  {
    hide AlignUp, FirstMultiple, SizeOf;
    var next := AlignUp(cur, AlignOf(fs.f)) + SizeOf(fs.f);
    if i == 0 {
      AlignUpIsFirst(cur, AlignOf(fs.f));
    } else {
      FieldsPlacedFirst(fs.rest, next, i - 1);
      assert FreeAt(fs, cur, i) == FreeAt(fs.rest, next, i - 1);
    }
  }

  lemma {:induction false} EndIsFree(fs: Fields, cur: nat)
    ensures End(fs, cur) == FreeAt(fs, cur, Count(fs))
  {
    hide AlignUp, AlignOf, SizeOf;
    if fs.Cons? {
      var next := AlignUp(cur, AlignOf(fs.f)) + SizeOf(fs.f);
      EndIsFree(fs.rest, next);
      if fs.rest.Cons? { assert FreeAt(fs, cur, Count(fs)) == FreeAt(fs.rest, next, Count(fs.rest)); }
    }
  }

  /** `n` bytes hold all fields of the record, and something. */
  ghost predicate HoldsAll(fs: Fields, n: nat) {
    n > 0 && forall i :: 0 <= i < Count(fs) ==> Offset(fs, 0, i) + SizeOf(FieldAt(fs, i)) <= n
  }

  /** The layout is the one the rules of the C++ ABI give, field by field: each at the first place its kind
      allows after the one before it; and the record is the smallest positive multiple of 8 that holds them. */
  lemma LayoutIsTheAbi(fs: Fields)
    ensures forall i :: 0 <= i < Count(fs) ==> PlacedFirst(FieldAt(fs, i), FreeAt(fs, 0, i), Offset(fs, 0, i))
    ensures HoldsAll(fs, RootSize(fs)) && Multiple(RootSize(fs), 8)
    ensures forall n: nat :: HoldsAll(fs, n) && Multiple(n, 8) ==> RootSize(fs) <= n
  {
    forall i | 0 <= i < Count(fs) ensures PlacedFirst(FieldAt(fs, i), FreeAt(fs, 0, i), Offset(fs, 0, i)) {
      FieldsPlacedFirst(fs, 0, i);
    }
    LayoutIsSound(fs);
    forall n: nat | HoldsAll(fs, n) && Multiple(n, 8) ensures RootSize(fs) <= n {
      RootIsFirst(fs, n);
    }
  }

  /** The layout from one field on, its place and size given. */
  lemma PlacedAt(f: Field, rest: Fields, cur: nat, at: nat, size: nat)
    requires cur <= at < cur + AlignOf(f) && Multiple(at, AlignOf(f)) && SizeOf(f) == size
    ensures Offset(Cons(f, rest), cur, 0) == at && End(Cons(f, rest), cur) == End(rest, at + size)
    ensures forall i :: 0 < i <= Count(rest) ==> Offset(Cons(f, rest), cur, i) == Offset(rest, at + size, i - 1)
  {
    hide AlignUp, SizeOf, AlignOf;
    var a := AlignOf(f);
    AlignUpIsFirst(cur, a);
    if AlignUp(cur, a) < at { NoMultipleBetween(AlignUp(cur, a), at, a); }
    assert AlignUp(cur, a) == at;
  }

  const INNER := Schema(0, Cons(Scalar(UInt8), Nil))

  lemma InnerIsEight()
    ensures SizeOf(Nested(INNER)) == 8
  {
    hide AlignUp, End;
    PlacedAt(Scalar(UInt8), Nil, 0, 0, 1);
    NilEnds(1);
    AlignUpIsFirst(1, 8);
    assert Multiple(8, 8);
    assert RootSize(Cons(Scalar(UInt8), Nil)) == 8;
  }

  lemma NilEnds(cur: nat)
    ensures End(Nil, cur) == cur
  {
  }

  /** Worked out by hand: { bool; float64; int16; string; int8[3]; { uint8 }; uint32 }. */
  lemma LayoutExample(fs: Fields, rest: Fields)
    requires fs == Cons(Scalar(Bool), Cons(Scalar(Float64), Cons(Scalar(Int16), rest)))
    requires rest == Cons(Str, Cons(FixedArray(Int8, 3), Cons(Nested(INNER), Cons(Scalar(UInt32), Nil))))
    ensures Count(fs) == 7
    ensures Offset(fs, 0, 0) == 0 && Offset(fs, 0, 1) == 8 && Offset(fs, 0, 2) == 16 && Offset(fs, 0, 3) == 20
    ensures Offset(fs, 0, 4) == 28 && Offset(fs, 0, 5) == 32 && Offset(fs, 0, 6) == 40
    ensures RootSize(fs) == 48
  {
    hide Offset, End, AlignUp, RootSize;
    var f2 := fs.rest;
    var f3 := f2.rest;
    TailExample(rest);
    assert Count(f3) == 5 && Count(f2) == 6;
    PlacedAt(fs.f, f2, 0, 0, 1);
    PlacedAt(f2.f, f3, 1, 8, 8);
    PlacedAt(f3.f, rest, 16, 16, 2);
    RootExample(fs);
  }

  lemma TailExample(rest: Fields)
    requires rest == Cons(Str, Cons(FixedArray(Int8, 3), Cons(Nested(INNER), Cons(Scalar(UInt32), Nil))))
    ensures Count(rest) == 4 && End(rest, 18) == End(Nil, 44)
    ensures Offset(rest, 18, 0) == 20 && Offset(rest, 18, 1) == 28
    ensures Offset(rest, 18, 2) == 32 && Offset(rest, 18, 3) == 40
  {
    hide Offset, End, AlignUp, RootSize;
    var f5 := rest.rest;
    var f6 := f5.rest;
    assert Times(3, 1) == 3;
    InnerIsEight();
    assert Count(f6) == 2 && Count(f5) == 3;
    PlacedAt(rest.f, f5, 18, 20, 8);
    PlacedAt(f5.f, f6, 28, 28, 3);
    PlacedAt(f6.f, f6.rest, 31, 32, 8);
    PlacedAt(f6.rest.f, Nil, 40, 40, 4);
  }

  lemma RootExample(fs: Fields)
    requires fs.Cons? && End(fs, 0) == End(Nil, 44)
    ensures RootSize(fs) == 48
  {
    hide AlignUp, End;
    NilEnds(44);
    AlignUpIsFirst(44, 8);
    assert Multiple(48, 8);
  }

  lemma RootIsFirst(fs: Fields, n: nat)
    requires HoldsAll(fs, n) && Multiple(n, 8)
    ensures RootSize(fs) <= n
  {
    hide AlignUp, AlignOf, SizeOf;
    EndIsFree(fs, 0);
    AlignUpIsFirst(End(fs, 0), 8);
    EightAtLeast(n);
    if fs.Cons? { assert FreeAt(fs, 0, Count(fs)) <= n; }
  }

  // ---------------------------------------------------------------- messages of a schema

  predicate HasType(fs: Fields, m: Values)
    decreases fs, 0
  {
    match fs
    case Nil => m.VNil?
    case Cons(f, rest) => m.VCons? && FieldHasType(f, m.v) && HasType(rest, m.rest)
  }

  predicate FieldHasType(f: Field, v: Value)
    decreases f
  {
    match f
    case Scalar(b) => v.VInt? && InRange(b, v.v)
    case FixedArray(b, count) => v.VInts? && |v.vs| == count && forall x <- v.vs :: InRange(b, x)
    case Str => v.VBytes?
    case VarArray(b) => v.VInts? && forall x <- v.vs :: InRange(b, x)
    case StrArray => v.VStrs?
    case Nested(s) => v.VMsg? && HasType(s.fields, v.m)
    case NestedArray(s) => v.VMsgs? && forall x <- v.ms :: HasType(s.fields, x)
  }

  /** The emitted `varlen_size`, before its result is cut to 32 bits. */
  function VarlenSize(fs: Fields, m: Values): nat
    requires HasType(fs, m)
    decreases fs, 0
  {
    match fs
    case Nil => 0
    case Cons(f, rest) => FieldVarlen(f, m.v) + VarlenSize(rest, m.rest)
  }

  function FieldVarlen(f: Field, v: Value): nat
    requires FieldHasType(f, v)
    decreases f, 1
  {
    match f
    case Scalar(_) => 0
    case FixedArray(_, _) => 0
    case Str => AlignUp(|v.bs|, 8)
    case VarArray(b) => AlignUp(Times(|v.vs|, Size(b)), 8)
    case StrArray => AlignUp(Times(|v.ss|, REF_SIZE), 8) + StrsVarlen(v.ss)
    case Nested(s) => VarlenSize(s.fields, v.m)
    case NestedArray(s) => AlignUp(Times(|v.ms|, RootSize(s.fields)), 8) + MsgsVarlen(s.fields, v.ms)
  }

  function StrsVarlen(ss: seq<seq<byte>>): nat {
    if ss == [] then 0 else AlignUp(|ss[0]|, 8) + StrsVarlen(ss[1..])
  }

  function MsgsVarlen(fs: Fields, ms: seq<Values>): nat
    requires forall i :: 0 <= i < |ms| ==> HasType(fs, ms[i])
    decreases fs, 1, |ms|
  {
    if ms == [] then 0 else VarlenSize(fs, ms[0]) + MsgsVarlen(fs, ms[1..])
  }

  /** Where the variable part starts. */
  function VarlenStart(fs: Fields): nat {
    AlignUp(HEADER + RootSize(fs), 8)
  }

  /** The emitted `size`, before its result is cut to 32 bits. */
  function MsgSize(fs: Fields, m: Values): nat
    requires HasType(fs, m)
  {
    VarlenStart(fs) + VarlenSize(fs, m)
  }

  /** No padding byte anywhere in the record, as the emitted `kRootTight` computes it. */
  predicate Tight(fs: Fields)
    decreases fs, 1
  {
    RootSize(fs) == (if fs.Nil? then 8 else SumSizes(fs)) && AllTight(fs)
  }

  function SumSizes(fs: Fields): nat {
    if fs.Nil? then 0 else SizeOf(fs.f) + SumSizes(fs.rest)
  }

  predicate AllTight(fs: Fields)
    decreases fs, 0
  {
    match fs
    case Nil => true
    case Cons(f, rest) =>
      && (f.Nested? ==> Tight(f.s.fields))
      && (f.NestedArray? ==> Tight(f.s.fields))
      && AllTight(rest)
  }

  /** The fields follow each other without a gap. */
  predicate Packed(fs: Fields, cur: nat) {
    forall i :: 0 <= i < Count(fs) ==> Offset(fs, cur, i) == FreeAt(fs, cur, i)
  }

  lemma {:induction false} SumsPack(fs: Fields, cur: nat)
    ensures cur + SumSizes(fs) <= End(fs, cur)
    ensures cur + SumSizes(fs) == End(fs, cur) <==> Packed(fs, cur)
  {
    hide AlignUp, AlignOf, SizeOf, Offset;
    if fs.Cons? {
      var next := AlignUp(cur, AlignOf(fs.f)) + SizeOf(fs.f);
      SumsPack(fs.rest, next);
      PackedFromFirst(fs, cur);
    }
  }

  lemma PackedFromFirst(fs: Fields, cur: nat)
    requires fs.Cons?
    ensures Packed(fs, cur) <==>
            AlignUp(cur, AlignOf(fs.f)) == cur && Packed(fs.rest, AlignUp(cur, AlignOf(fs.f)) + SizeOf(fs.f))
  {
    hide AlignUp, AlignOf, SizeOf;
    var next := AlignUp(cur, AlignOf(fs.f)) + SizeOf(fs.f);
    assert Offset(fs, cur, 0) == AlignUp(cur, AlignOf(fs.f)) && FreeAt(fs, cur, 0) == cur;
    forall i | 0 <= i < Count(fs.rest)
      ensures Offset(fs, cur, i + 1) == Offset(fs.rest, next, i) && FreeAt(fs, cur, i + 1) == FreeAt(fs.rest, next, i)
    {
    }
    if Packed(fs, cur) {
      forall i | 0 <= i < Count(fs.rest) ensures Offset(fs.rest, next, i) == FreeAt(fs.rest, next, i) {
        assert Offset(fs, cur, i + 1) == FreeAt(fs, cur, i + 1);
      }
    }
    if AlignUp(cur, AlignOf(fs.f)) == cur && Packed(fs.rest, next) {
      forall i | 0 <= i < Count(fs) ensures Offset(fs, cur, i) == FreeAt(fs, cur, i) {
        if i > 0 { assert Offset(fs.rest, next, i - 1) == FreeAt(fs.rest, next, i - 1); }
      }
    }
  }

  predicate PartTight(f: Field) {
    (f.Nested? ==> Tight(f.s.fields)) && (f.NestedArray? ==> Tight(f.s.fields))
  }

  predicate PartsTight(fs: Fields) {
    forall i :: 0 <= i < Count(fs) ==> PartTight(FieldAt(fs, i))
  }

  lemma {:induction false} AllTightMeansParts(fs: Fields)
    ensures AllTight(fs) <==> PartsTight(fs)
  {
    hide Tight;
    if fs.Cons? {
      AllTightMeansParts(fs.rest);
      if PartsTight(fs) {
        assert PartTight(FieldAt(fs, 0));
        forall i | 0 <= i < Count(fs.rest) ensures PartTight(FieldAt(fs.rest, i)) {
          assert PartTight(FieldAt(fs, i + 1));
        }
      }
      if AllTight(fs) {
        forall i | 0 <= i < Count(fs) ensures PartTight(FieldAt(fs, i)) {
          if i > 0 { assert PartTight(FieldAt(fs.rest, i - 1)); }
        }
      }
    }
  }

  /** What the expression for "no padding" says of a record with fields, exactly: no gap before a field, none
      behind the last one, and the same of every type nested in it. */
  lemma TightExactly(fs: Fields)
    requires fs.Cons?
    ensures Tight(fs) <==> Packed(fs, 0) && FreeAt(fs, 0, Count(fs)) == RootSize(fs) && PartsTight(fs)
  {
    hide PartsTight, Packed, FreeAt;
    SumsPack(fs, 0);
    EndIsFree(fs, 0);
    AllTightMeansParts(fs);
  }
}
