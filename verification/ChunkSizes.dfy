/** Sizes in the chunk pools: how large a loan is made, how a message tells its size in a 32-bit field,
    and where the payload of a chunk lies. */
module ChunkSizes {
  import opened Basics

  const U64: nat := 0x1_0000_0000_0000_0000
  const TWO63: nat := 0x8000_0000_0000_0000
  const TWO31: nat := 0x8000_0000
  /** large_msg_align, and the header of a chunk. */
  const STEP: nat := 1024
  const CHUNK_HEADER: nat := 16
  const SMALL: nat := 65536
  const FIRST_CLASS: nat := 131072

  // ---------------------------------------------------------------- loan_size_class

  /** Doubling from `c` up to `size`; on 64-bit overflow the size itself. */
  function Doubled(c: nat, size: nat): nat
    requires 0 < c < U64 && size < U64
    decreases if c < size then size - c else 0
  {
    if c >= size then c
    else if 2 * c >= U64 then size
    else Doubled(2 * c, size)
  }

  function SizeClass(size: nat): nat
    requires size < U64
  {
    if size <= SMALL then (size + STEP - 1) / STEP * STEP else Doubled(FIRST_CLASS, size)
  }

  /** The loop, with `c << 1` cut to 64 bits. */
  method LoanSizeClass(size: nat) returns (c: nat)
    requires size < U64
    ensures c == SizeClass(size)
  {
    if size <= SMALL { return (size + STEP - 1) / STEP * STEP; }
    c := FIRST_CLASS;
    while c < size
      invariant 0 < c < U64 && Doubled(c, size) == Doubled(FIRST_CLASS, size)
      decreases size - c
    {
      var next := 2 * c % U64;
      if next < c { return size; }
      c := next;
    }
  }

  lemma {:induction false} DoubledBounds(c: nat, size: nat)
    requires 0 < c < U64 && size < U64
    ensures Doubled(c, size) >= size && Doubled(c, size) < U64
    ensures size >= c ==> Doubled(c, size) < 2 * size
    decreases if c < size then size - c else 0
  {
    if c < size && 2 * c < U64 { DoubledBounds(2 * c, size); }
  }

  function Pow2(k: nat): (p: nat)
    ensures p > 0
  {
    if k == 0 then 1 else 2 * Pow2(k - 1)
  }

  /** Short of overflow a class is a power of two times the first one. */
  lemma {:induction false} DoubledPower(c: nat, size: nat) returns (k: nat)
    requires 0 < c < U64 && size <= TWO63
    ensures Doubled(c, size) == c * Pow2(k)
    decreases if c < size then size - c else 0
  {
    if c < size {
      var j := DoubledPower(2 * c, size);
      k := j + 1;
      var p := Pow2(j);
      assert 2 * c * p == c * (2 * p);
    } else {
      k := 0;
    }
  }

  lemma {:induction false} DoubledSteps(c: nat, size: nat)
    requires 0 < c < U64 && size <= TWO63 && c % STEP == 0
    ensures Doubled(c, size) % STEP == 0
    decreases if c < size then size - c else 0
  {
    if c < size {
      assert 2 * c % STEP == 0 by { assert 2 * c == STEP * (2 * (c / STEP)); }
      DoubledSteps(2 * c, size);
    }
  }

  lemma {:induction false} DoubledFixed(c: nat, size: nat)
    requires 0 < c < U64 && size < U64
    ensures Doubled(c, size) < U64 && Doubled(c, Doubled(c, size)) == Doubled(c, size)
    decreases if c < size then size - c else 0
  {
    DoubledBounds(c, size);
    if c < size && 2 * c < U64 {
      DoubledBounds(2 * c, size);
      DoubledFixed(2 * c, size);
    }
  }

  lemma {:induction false} DoubledMonotone(c: nat, s: nat, t: nat)
    requires 0 < c < U64 && s <= t < U64
    ensures Doubled(c, s) <= Doubled(c, t)
    decreases if c < t then t - c else 0
  {
    if c >= s {
      DoubledBounds(c, t);
    } else if 2 * c < U64 {
      DoubledMonotone(2 * c, s, t);
    }
  }

  lemma RoundedUp(n: nat)
    ensures var r := (n + STEP - 1) / STEP * STEP; n <= r < n + STEP && r % STEP == 0 && (n % STEP == 0 ==> r == n)
  {
    var q := (n + STEP - 1) / STEP;
    assert (q * STEP) % STEP == 0;
  }

  /** What a class promises: room for the size, whole kilobytes, less than twice the size above 64 KiB
      and less than a kilobyte more below; a class is its own class. Beyond 2^63 the size comes back. */
  lemma SizeClassSpec(size: nat)
    requires size < U64
    ensures var c := SizeClass(size);
            && size <= c < U64 && SizeClass(c) == c
            && (size <= SMALL ==> c < size + STEP)
            && (size > SMALL ==> c < 2 * size)
            && (size <= TWO63 ==> c % STEP == 0)
  {
    if size <= SMALL {
      RoundedUp(size);
      RoundedUp(SizeClass(size));
    } else {
      DoubledBounds(FIRST_CLASS, size);
      DoubledFixed(FIRST_CLASS, size);
      if size <= TWO63 { DoubledSteps(FIRST_CLASS, size); }
    }
  }

  lemma SizeClassMonotone(s: nat, t: nat)
    requires s <= t < U64
    ensures SizeClass(s) <= SizeClass(t)
  {
    if t <= SMALL {
      assert (s + STEP - 1) / STEP <= (t + STEP - 1) / STEP;
    } else if s <= SMALL {
      RoundedUp(s);
      DoubledBounds(FIRST_CLASS, t);
    } else {
      DoubledMonotone(FIRST_CLASS, s, t);
    }
  }

  // ---------------------------------------------------------------- chunks

  function MakeAlign16(n: nat): nat {
    (n + 15) / 16 * 16
  }

  /** `calc_chunk_size`: header and payload in whole kilobytes. */
  function ChunkSize(size: nat): nat {
    MakeAlign16(((CHUNK_HEADER + size - 1) / STEP + 1) * STEP)
  }

  lemma ChunkHolds(size: nat)
    ensures ChunkSize(size) % STEP == 0
    ensures CHUNK_HEADER + size <= ChunkSize(size) < CHUNK_HEADER + size + STEP
  {
    var q := (CHUNK_HEADER + size - 1) / STEP + 1;
    assert q * STEP == 16 * (64 * q);
    assert (16 * (64 * q) + 15) / 16 == 64 * q;
    assert (q * STEP) % STEP == 0;
  }

  /** First and last payload byte of chunk `id`, from the start of the pool. */
  function PayloadStart(id: nat, size: nat): nat {
    ChunkSize(size) * id + CHUNK_HEADER
  }

  /** Payloads of different chunks of a pool share no byte, nor with the headers, and are aligned to 8. */
  lemma ChunksDisjoint(i: nat, j: nat, size: nat)
    requires i < j
    ensures PayloadStart(i, size) + size <= ChunkSize(size) * j < PayloadStart(j, size)
    ensures PayloadStart(i, size) % 8 == 0
  {
    ChunkHolds(size);
    var c := ChunkSize(size);
    assert c * (i + 1) <= c * j;
    assert c * (i + 1) == c * i + c;
    var k := c / STEP;
    assert c * i == 8 * (128 * (k * i)) by {
      assert c == 1024 * k;
      assert c * i == 1024 * (k * i);
    }
  }

  // ---------------------------------------------------------------- the size on the wire

  /** A cast to int32. */
  function Int32(n: nat): int {
    if n % U32 >= TWO31 then n % U32 - U32 else n % U32
  }

  /** What a large message of `size` bytes carries in `remain_`. */
  function Remain(size: nat): int {
    Int32(size) - SLOT
  }

  datatype Read = Bad | Size(n: nat)

  /** What `recv`, `clear_message` and the sniffer make of it. */
  function ReadSize(remain: int): Read {
    if SLOT + remain <= 0 then Bad else Size(SLOT + remain)
  }

  /** The size comes back exactly below 2^31; then acquiring, finding, recycling and discarding a chunk
      all compute the same chunk size, hence look into the same pool. */
  lemma SizeSurvivesIff(size: nat)
    requires size > 0
    ensures ReadSize(Remain(size)) == Size(size) <==> size < TWO31
    ensures size < TWO31 ==> ChunkSize(ReadSize(Remain(size)).n) == ChunkSize(size)
  {
    if size >= U32 {
      assert size % U32 < U32;
    }
  }

  /** `loan` asks for at least one byte more than a slot holds. */
  function LoanCapacity(size: nat): nat
    requires size < U64
  {
    SizeClass(if size <= SLOT then SLOT + 1 else size)
  }

  /** A loan is large enough, and little larger than needed: one kilobyte for anything small, less than a
      kilobyte more up to 64 KiB, less than twice as much above. */
  lemma LoanWastesLittle(size: nat)
    requires size < U64
    ensures SLOT < LoanCapacity(size) && size <= LoanCapacity(size) < U64
    ensures size <= STEP ==> LoanCapacity(size) == STEP
    ensures STEP < size <= SMALL ==> LoanCapacity(size) < size + STEP && LoanCapacity(size) % STEP == 0
    ensures size > SMALL ==> LoanCapacity(size) < 2 * size
  {
    SizeClassSpec(if size <= SLOT then SLOT + 1 else size);
  }

  const TWO30: nat := 0x4000_0000

  /** Doubling up to 2^30 without a stop. */
  lemma {:induction false} Climb(c: nat, k: nat, size: nat)
    requires c > 0 && c * Pow2(k) == TWO30 <= size < U64
    ensures c <= TWO30 && Doubled(c, size) == Doubled(TWO30, size)
    decreases k
  {
    if k > 0 {
      assert c * Pow2(k) == 2 * c * Pow2(k - 1);
      Climb(2 * c, k - 1, size);
    }
  }

  lemma ClassesAt30()
    ensures SizeClass(TWO30) == TWO30 && SizeClass(TWO30 + 1) == TWO31
  {
    assert Pow2(13) == 8192;
    Climb(FIRST_CLASS, 13, TWO30);
    Climb(FIRST_CLASS, 13, TWO30 + 1);
  }

  lemma {:induction false} Pow2Sum(i: nat, j: nat)
    ensures Pow2(i + j) == Pow2(i) * Pow2(j)
  {
    if i > 0 { Pow2Sum(i - 1, j); }
  }

  lemma {:induction false} Pow2Grows(i: nat, j: nat)
    ensures i < j ==> Pow2(i) < Pow2(j)
  {
    if i < j - 1 { Pow2Grows(i, j - 1); }
  }

  /** The classes from 2^31 to 2^63 read as no size at all: their low 32 bits are 2^31 or 0. */
  lemma LargeClassIsBad(size: nat)
    requires TWO30 < size <= TWO63
    ensures ReadSize(Remain(SizeClass(size))) == Bad
  {
    var c := SizeClass(size);
    ClassesAt30();
    SizeClassMonotone(TWO30 + 1, size);
    var k := DoubledPower(FIRST_CLASS, size);
    assert Pow2(14) == 16384;
    Pow2Grows(k, 14);
    Pow2Sum(14, k - 14);
    var m := Pow2(k - 14);
    assert c == TWO31 * m;
    if k > 14 { assert c == U32 * Pow2(k - 15); }
  }

  /** Whatever size a receiver reads from one beyond 2^63, its chunks are smaller. */
  lemma HugeReadsSmaller(size: nat)
    requires TWO63 < size < U64 && ReadSize(Remain(size)).Size?
    ensures var n := ReadSize(Remain(size)).n; ChunkSize(n) < ChunkSize(size) < U64
  {
    var n := ReadSize(Remain(size)).n;
    assert n == size % U32 < TWO31;
    assert size <= U64 - TWO31;
    ChunkHolds(n);
    ChunkHolds(size);
  }

  /** A loan is published under its capacity; the receiver finds its pool exactly for requests of up to
      2^30 bytes. Above, it reads no size, or, beyond 2^63, the size of chunks of another pool. */
  lemma LoanFoundIff(size: nat)
    requires size < U64
    ensures LoanCapacity(size) > SLOT && LoanCapacity(size) >= size
    ensures ReadSize(Remain(LoanCapacity(size))) == Size(LoanCapacity(size)) <==> size <= TWO30
    ensures TWO30 < size <= TWO63 ==> ReadSize(Remain(LoanCapacity(size))) == Bad
    ensures size > TWO63 ==>
              match ReadSize(Remain(LoanCapacity(size)))
              case Bad => true
              case Size(n) => ChunkSize(n) < ChunkSize(LoanCapacity(size)) < U64
  {
    var n := if size <= SLOT then SLOT + 1 else size;
    SizeClassSpec(n);
    SizeSurvivesIff(SizeClass(n));
    ClassesAt30();
    if n <= TWO30 { SizeClassMonotone(n, TWO30); } else { SizeClassMonotone(TWO30 + 1, n); }
    if TWO30 < size <= TWO63 { LargeClassIsBad(size); }
    if size > TWO63 && ReadSize(Remain(LoanCapacity(size))).Size? { HugeReadsSmaller(LoanCapacity(size)); }
  }
}
