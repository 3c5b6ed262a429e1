/** Bytes, little-endian integers and the eleven scalar types of the DZFlat wire. */
module DzFlatWire {
  import opened Basics

  type byte = x: int | 0 <= x < 256

  datatype Base = Bool | Int8 | UInt8 | Int16 | UInt16 | Int32 | UInt32 | Int64 | UInt64 | Float32 | Float64

  function Size(b: Base): (n: nat)
    ensures n == 1 || n == 2 || n == 4 || n == 8
  {
    match b
    case Bool => 1
    case Int8 => 1
    case UInt8 => 1
    case Int16 => 2
    case UInt16 => 2
    case Int32 => 4
    case UInt32 => 4
    case Int64 => 8
    case UInt64 => 8
    case Float32 => 4
    case Float64 => 8
  }

  predicate Signed(b: Base) {
    b.Int8? || b.Int16? || b.Int32? || b.Int64?
  }

  /** 256 to the power n, for the widths that occur. */
  function Pow256(n: nat): (p: nat)
    ensures p > 0
  {
    if n == 0 then 1 else 256 * Pow256(n - 1)
  }

  /** Values of a scalar; a float is its bit pattern, a bool is 0 or 1. */
  predicate InRange(b: Base, v: int) {
    var full := Pow256(Size(b));
    if b.Bool? then 0 <= v <= 1
    else if Signed(b) then -(full / 2) <= v < full / 2
    else 0 <= v < full
  }

  /** Two's complement. */
  function ToBits(b: Base, v: int): int {
    if v < 0 then v + Pow256(Size(b)) else v
  }

  function FromBits(b: Base, w: nat): int {
    var full := Pow256(Size(b));
    if b.Bool? then (if w != 0 then 1 else 0)
    else if Signed(b) && w >= full / 2 then w - full
    else w
  }

  lemma BitsRoundTrip(b: Base, v: int)
    requires InRange(b, v)
    ensures 0 <= ToBits(b, v) < Pow256(Size(b))
    ensures FromBits(b, ToBits(b, v)) == v
  {
    assert Pow256(1) == 256;
    assert Pow256(2) == 0x1_0000;
    assert Pow256(4) == U32 by { assert Pow256(3) == 0x100_0000; }
    assert Pow256(8) % 2 == 0 by { assert Pow256(8) == 256 * Pow256(7); }
  }

  function ToLE(n: nat, w: nat): (s: seq<byte>)
    ensures |s| == n
  {
    if n == 0 then [] else [w % 256] + ToLE(n - 1, w / 256)
  }

  function FromLE(s: seq<byte>): (w: nat)
    ensures w < Pow256(|s|)
  {
    if s == [] then 0 else s[0] + 256 * FromLE(s[1..])
  }

  lemma {:induction false} LERoundTrip(n: nat, w: nat)
    requires w < Pow256(n)
    ensures FromLE(ToLE(n, w)) == w
  {
    if n > 0 {
      LERoundTrip(n - 1, w / 256);
      assert ToLE(n, w)[1..] == ToLE(n - 1, w / 256);
    }
  }

  lemma U32IsPow256()
    ensures Pow256(4) == U32
  {
    assert Pow256(3) == 0x100_0000;
  }

  /** Bytes of `n` elements of `size` bytes: the product, by repeated addition. */
  function Times(n: nat, size: nat): (p: nat)
    ensures n > 0 && size > 0 ==> p > 0
  {
    if n == 0 then 0 else size + Times(n - 1, size)
  }

  lemma {:induction false} TimesIsProduct(n: nat, size: nat)
    ensures Times(n, size) == n * size
  {
    if n > 0 { TimesIsProduct(n - 1, size); }
  }

  lemma {:induction false} TimesMonotone(i: nat, n: nat, size: nat)
    requires i <= n
    ensures Times(i, size) <= Times(n, size)
  {
    if i < n { TimesMonotone(i, n - 1, size); }
  }

  /** An array of scalars, element after element. */
  function EncodeInts(b: Base, vs: seq<int>): (s: seq<byte>)
    requires forall v <- vs :: InRange(b, v)
    ensures |s| == Times(|vs|, Size(b))
  {
    if vs == [] then []
    else
      BitsRoundTrip(b, vs[0]);
      ToLE(Size(b), ToBits(b, vs[0])) + EncodeInts(b, vs[1..])
  }

  function DecodeInts(b: Base, n: nat, s: seq<byte>): (vs: seq<int>)
    requires |s| == Times(n, Size(b))
    ensures |vs| == n
  {
    if n == 0 then []
    else
      [FromBits(b, FromLE(s[..Size(b)]))] + DecodeInts(b, n - 1, s[Size(b)..])
  }

  /** The same without normalising booleans: what a zero-copy view of the bytes shows. */
  function ViewInts(b: Base, n: nat, s: seq<byte>): (vs: seq<int>)
    requires |s| == Times(n, Size(b))
    ensures |vs| == n
  {
    DecodeInts(if b.Bool? then UInt8 else b, n, s)
  }

  lemma {:induction false} IntsRoundTrip(b: Base, vs: seq<int>)
    requires forall v <- vs :: InRange(b, v)
    ensures DecodeInts(b, |vs|, EncodeInts(b, vs)) == vs
    ensures ViewInts(b, |vs|, EncodeInts(b, vs)) == vs
  {
    hide ToLE, FromLE, InRange, ToBits, FromBits, Times, Pow256;
    if vs != [] {
      var n := Size(b);
      var s := EncodeInts(b, vs);
      OneRoundTrip(b, vs[0]);
      assert s[..n] == ToLE(n, ToBits(b, vs[0])) && s[n..] == EncodeInts(b, vs[1..]);
      IntsRoundTrip(b, vs[1..]);
    }
  }

  /** A written boolean is 0 or 1, so normalising it or not is the same. */
  lemma OneRoundTrip(b: Base, v: int)
    requires InRange(b, v)
    ensures ToBits(b, v) >= 0
    ensures FromBits(b, FromLE(ToLE(Size(b), ToBits(b, v)))) == v
    ensures b.Bool? ==> FromBits(UInt8, FromLE(ToLE(Size(b), ToBits(b, v)))) == v
  {
    BitsRoundTrip(b, v);
    LERoundTrip(Size(b), ToBits(b, v));
  }

  lemma ScalarInRange(b: Base, s: seq<byte>)
    requires |s| == Size(b)
    ensures InRange(b, FromBits(b, FromLE(s)))
    ensures !b.Bool? ==> ToBits(b, FromBits(b, FromLE(s))) == FromLE(s)
  {
    assert Pow256(1) == 256;
    assert Pow256(8) % 2 == 0 && Pow256(4) % 2 == 0 && Pow256(2) % 2 == 0 by {
      assert Pow256(8) == 256 * Pow256(7) && Pow256(4) == 256 * Pow256(3) && Pow256(2) == 256 * Pow256(1);
    }
  }

  lemma {:induction false} BytesRoundTrip(s: seq<byte>)
    ensures ToLE(|s|, FromLE(s)) == s
  {
    if s != [] {
      BytesRoundTrip(s[1..]);
      assert s == [s[0]] + s[1..];
    }
  }

  /** Whatever the bytes, decoded scalars are values of their type; and except for booleans, of which all
      but 0 are read as 1, they encode to the same bytes again. */
  lemma {:induction false} AnyBytesAreInts(b: Base, n: nat, s: seq<byte>)
    requires |s| == Times(n, Size(b))
    ensures forall v <- DecodeInts(b, n, s) :: InRange(b, v)
    ensures !b.Bool? ==> EncodeInts(b, DecodeInts(b, n, s)) == s
    ensures b.Bool? ==> |s| == n && forall i :: 0 <= i < n ==> DecodeInts(b, n, s)[i] == if s[i] == 0 then 0 else 1
  {
    hide ToLE, FromLE, InRange, ToBits, FromBits, Pow256;
    if n > 0 {
      var k := Size(b);
      var (head, tail) := (s[..k], s[k..]);
      AnyBytesAreInts(b, n - 1, tail);
      ScalarInRange(b, head);
      BytesRoundTrip(head);
      assert s == head + tail;
      var vs := DecodeInts(b, n, s);
      assert vs[0] == FromBits(b, FromLE(head)) && vs[1..] == DecodeInts(b, n - 1, tail);
      forall v | v in vs ensures InRange(b, v) {
        assert v == vs[0] || v in vs[1..];
      }
      if b.Bool? { OneBool(head); }
    }
  }

  /** A view shows the bytes as they are, booleans included. */
  lemma ViewShowsBytes(b: Base, n: nat, s: seq<byte>)
    requires |s| == Times(n, Size(b))
    ensures var t := if b.Bool? then UInt8 else b;
            (forall v <- ViewInts(b, n, s) :: InRange(t, v)) && EncodeInts(t, ViewInts(b, n, s)) == s
  {
    AnyBytesAreInts(if b.Bool? then UInt8 else b, n, s);
  }

  lemma OneBool(s: seq<byte>)
    requires |s| == 1
    ensures FromBits(Bool, FromLE(s)) == if s[0] == 0 then 0 else 1
  {
    assert FromLE(s[1..]) == 0;
  }

  // ---------------------------------------------------------------- buffers

  /** Overwrite `bytes` at offset `at`. */
  function Put(buf: seq<byte>, at: nat, bytes: seq<byte>): (r: seq<byte>)
    requires at + |bytes| <= |buf|
    ensures |r| == |buf|
    ensures r[at..at + |bytes|] == bytes
    ensures forall p :: 0 <= p < |buf| && !(at <= p < at + |bytes|) ==> r[p] == buf[p]
  {
    buf[..at] + bytes + buf[at + |bytes|..]
  }

  function Zeros(n: nat): (s: seq<byte>)
    ensures |s| == n
  {
    seq(n, _ => 0)
  }

  /** Same bytes in `[lo, hi)`. */
  ghost predicate Agree(a: seq<byte>, b: seq<byte>, lo: nat, hi: nat) {
    hi <= |a| && hi <= |b| && forall p :: lo <= p < hi ==> a[p] == b[p]
  }

  lemma AgreeSlice(a: seq<byte>, b: seq<byte>, lo: nat, hi: nat)
    requires Agree(a, b, lo, hi) && lo <= hi
    ensures a[lo..hi] == b[lo..hi]
  {
  }

  /** `struct VarRef`: offset and count. */
  function RefBytes(off: nat, cnt: nat): (s: seq<byte>)
    ensures |s| == 8
  {
    ToLE(4, off) + ToLE(4, cnt)
  }

  function ReadRef(buf: seq<byte>, at: nat): (r: (nat, nat))
    requires at + 8 <= |buf|
    ensures r.0 < U32 && r.1 < U32
  {
    U32IsPow256();
    (FromLE(buf[at..at + 4]), FromLE(buf[at + 4..at + 8]))
  }

  lemma RefRoundTrip(buf: seq<byte>, at: nat, off: nat, cnt: nat)
    requires at + 8 <= |buf| && buf[at..at + 8] == RefBytes(off, cnt) && off < U32 && cnt < U32
    ensures ReadRef(buf, at) == (off, cnt)
  {
    U32IsPow256();
    LERoundTrip(4, off);
    LERoundTrip(4, cnt);
    assert buf[at..at + 4] == buf[at..at + 8][..4] == ToLE(4, off);
    assert buf[at + 4..at + 8] == buf[at..at + 8][4..] == ToLE(4, cnt);
  }

  lemma AgreeRef(a: seq<byte>, b: seq<byte>, at: nat)
    requires Agree(a, b, at, at + 8)
    ensures ReadRef(a, at) == ReadRef(b, at)
  {
    AgreeSlice(a, b, at, at + 4);
    AgreeSlice(a, b, at + 4, at + 8);
  }
}
