/** Messages cut into slot-sized fragments by `send`, and put together again by two independent
    reassemblers: the cache of `recv` and the table of the passive sniffer. */
module Fragments {
  import opened Basics
  import opened DzFlatWire

  /** The cache is cleaned beyond this many open messages ... */
  const CACHE_LIMIT: nat := 1024
  /** ... of those whose id is further away than this. */
  const STALE: nat := 8192

  datatype Frag = Frag(id: nat, remain: int, data: seq<byte>)

  /** A buffer of `size` bytes of which the first ones have been written; the others are arbitrary. */
  datatype Buffer = Buffer(size: nat, filled: seq<byte>)

  type Cache = map<nat, Buffer>

  function Min(a: nat, b: nat): nat {
    if a <= b then a else b
  }

  /** `f` carries the k-th piece of `p`; what follows the payload in the last slot is arbitrary. */
  predicate IsFragment(f: Frag, p: seq<byte>, k: nat) {
    && |f.data| == SLOT && SLOT * k < |p| && f.remain == |p| - SLOT * (k + 1)
    && f.data[..Min(SLOT, |p| - SLOT * k)] == p[SLOT * k..Min(SLOT * (k + 1), |p|)]
  }

  /** The number of fragments of a payload. */
  function Pieces(p: seq<byte>): nat {
    (|p| + SLOT - 1) / SLOT
  }

  /** The fragment loop of `send`: full slots first, then what is left. `pad` is what the slot holds
      behind the payload. */
  method Split(id: nat, p: seq<byte>, pad: seq<byte>) returns (frags: seq<Frag>)
    requires |p| < 0x8000_0000 && |pad| == SLOT
    ensures |frags| == Pieces(p)
    ensures forall k :: 0 <= k < |frags| ==> frags[k].id == id && IsFragment(frags[k], p, k)
  {
    frags := [];
    var offset := 0;
    var i := 0;
    while i < |p| / SLOT
      invariant i <= |p| / SLOT && offset == SLOT * i && |frags| == i
      invariant forall k :: 0 <= k < i ==> frags[k].id == id && IsFragment(frags[k], p, k)
    {
      frags := frags + [Frag(id, |p| - offset - SLOT, p[offset..offset + SLOT])];
      i := i + 1;
      offset := offset + SLOT;
    }
    var remain := |p| - offset;
    if remain > 0 {
      var last := Frag(id, remain - SLOT, p[offset..] + pad[remain..]);
      assert last.data[..remain] == p[offset..];
      frags := frags + [last];
    }
  }

  // ---------------------------------------------------------------- the two reassemblers

  /** `cache_t::append`. */
  function Append(b: Buffer, data: seq<byte>, n: nat): Buffer
    requires n <= |data|
  {
    if |b.filled| >= b.size || n == 0 then b
    else Buffer(b.size, b.filled + data[..Min(|b.filled| + n, b.size) - |b.filled|])
  }

  function Distance(a: nat, b: nat): nat {
    if a <= b then b - a else a - b
  }

  /** What `recv` throws out of a full cache when message `id` starts. */
  function Clean(c: Cache, id: nat): Cache {
    if |c| > CACHE_LIMIT then map k | k in c && Distance(id, k) <= STALE :: c[k] else c
  }

  /** No buffer is written beyond its end. */
  predicate Sound(c: Cache) {
    forall id <- c :: |c[id].filled| <= c[id].size
  }

  /** One fragment through `recv`: the cache afterwards and the buffer handed out, if any. */
  function RecvStep(c: Cache, f: Frag): (r: (Cache, Option<Buffer>))
    requires |f.data| == SLOT && Sound(c)
    ensures Sound(r.0)
  {
    var n := SLOT + f.remain;
    if n <= 0 then (c, None)
    else if f.id !in c then
      if n <= SLOT then (c, Some(Buffer(n, f.data[..n])))
      else (Clean(c, f.id)[f.id := Buffer(n, f.data)], None)
    else if f.remain <= 0 then (c - {f.id}, Some(Append(c[f.id], f.data, n)))
    else (c[f.id := Append(c[f.id], f.data, SLOT)], None)
  }

  /** One fragment through the sniffer. */
  function SniffStep(c: Cache, f: Frag): (r: (Cache, Option<Buffer>))
    requires |f.data| == SLOT && Sound(c)
    ensures Sound(r.0)
  {
    var n := SLOT + f.remain;
    if n <= 0 then (c, None)
    else if n <= SLOT && f.id !in c then (c, Some(Buffer(n, f.data[..n])))
    else if f.id !in c then (c[f.id := Buffer(n, f.data)], None)
    else
      var b := c[f.id];
      var take := Min(if f.remain <= 0 then n else SLOT, b.size - |b.filled|);
      var b' := Buffer(b.size, b.filled + f.data[..take]);
      if f.remain <= 0 || |b'.filled| >= b'.size then (c - {f.id}, Some(b'))
      else (c[f.id := b'], None)
  }

  function Step(sniff: bool, c: Cache, f: Frag): (r: (Cache, Option<Buffer>))
    requires |f.data| == SLOT && Sound(c)
    ensures Sound(r.0)
  {
    if sniff then SniffStep(c, f) else RecvStep(c, f)
  }

  predicate Slotted(frags: seq<Frag>) {
    forall f <- frags :: |f.data| == SLOT
  }

  /** A run from cache `c0`: the cache, and the buffers handed out with the ids they belong to. */
  function Run(sniff: bool, c0: Cache, frags: seq<Frag>): (r: (Cache, seq<(nat, Buffer)>))
    requires Slotted(frags) && Sound(c0)
    ensures Sound(r.0)
  {
    if frags == [] then (c0, [])
    else
      var n := |frags| - 1;
      var (c, out) := Run(sniff, c0, frags[..n]);
      var (c', b) := Step(sniff, c, frags[n]);
      (c', if b.Some? then out + [(frags[n].id, b.value)] else out)
  }

  // ---------------------------------------------------------------- interleavings

  /** How many fragments of message `id` there are so far. */
  function Sent(frags: seq<Frag>, id: nat): nat {
    if frags == [] then 0
    else Sent(frags[..|frags| - 1], id) + if frags[|frags| - 1].id == id then 1 else 0
  }

  /** Nothing lost, nothing reordered within a message; messages mix in any way. */
  ghost predicate Interleaving(msgs: map<nat, seq<byte>>, frags: seq<Frag>) {
    forall i :: 0 <= i < |frags| ==> InTurn(msgs, frags, i)
  }

  ghost predicate InTurn(msgs: map<nat, seq<byte>>, frags: seq<Frag>, i: nat)
    requires i < |frags|
  {
    var id := frags[i].id;
    id in msgs && IsFragment(frags[i], msgs[id], Sent(frags[..i], id))
  }

  /** Messages of which some fragments have come, but not all. */
  ghost function Open(msgs: map<nat, seq<byte>>, frags: seq<Frag>): set<nat> {
    set id | id in msgs && 0 < SLOT * Sent(frags, id) < |msgs[id]|
  }

  /** Cleaning the cache for the message that starts with `f` throws out nothing that is still open. */
  ghost predicate NothingStale(open: set<nat>, f: Frag) {
    |open| > CACHE_LIMIT && f.id !in open && f.remain > 0 ==> forall id <- open :: Distance(f.id, id) <= STALE
  }

  /** The messages in the order in which their last fragments come. */
  ghost function Expected(msgs: map<nat, seq<byte>>, frags: seq<Frag>): seq<(nat, Buffer)>
    requires forall f <- frags :: f.id in msgs
  {
    if frags == [] then []
    else
      var f := frags[|frags| - 1];
      Expected(msgs, frags[..|frags| - 1]) + if f.remain <= 0 then [(f.id, Buffer(|msgs[f.id]|, msgs[f.id]))] else []
  }

  lemma InterleavingPrefix(msgs: map<nat, seq<byte>>, frags: seq<Frag>)
    requires Interleaving(msgs, frags) && frags != []
    ensures Interleaving(msgs, frags[..|frags| - 1]) && InTurn(msgs, frags, |frags| - 1)
  {
    var n := |frags| - 1;
    forall i | 0 <= i < n ensures InTurn(msgs, frags[..n], i) {
      assert InTurn(msgs, frags, i) && frags[..n][..i] == frags[..i];
    }
  }

  lemma InterleavingSlotted(msgs: map<nat, seq<byte>>, frags: seq<Frag>)
    requires Interleaving(msgs, frags)
    ensures Slotted(frags) && forall f <- frags :: f.id in msgs
  {
    forall f | f in frags ensures |f.data| == SLOT && f.id in msgs {
      var i :| 0 <= i < |frags| && frags[i] == f;
      assert InTurn(msgs, frags, i);
    }
  }

  /** The cache holds, for every open message and no other, what has come of it. */
  ghost predicate Holds(c: Cache, msgs: map<nat, seq<byte>>, frags: seq<Frag>) {
    && (forall id :: id in c <==> id in Open(msgs, frags))
    && (forall id <- c :: id in msgs && SLOT * Sent(frags, id) <= |msgs[id]|
                          && c[id] == Buffer(|msgs[id]|, msgs[id][..SLOT * Sent(frags, id)]))
  }

  lemma SniffHolds(c: Cache, msgs: map<nat, seq<byte>>, frags: seq<Frag>)
    requires frags != [] && var n := |frags| - 1; Holds(c, msgs, frags[..n]) && InTurn(msgs, frags, n) && Sound(c)
    ensures var f := frags[|frags| - 1];
            |f.data| == SLOT && f.id in msgs
            && var (c', b) := SniffStep(c, f);
               && Holds(c', msgs, frags)
               && b == if f.remain <= 0 then Some(Buffer(|msgs[f.id]|, msgs[f.id])) else None
  {
    var n := |frags| - 1;
    var f := frags[n];
    var p, k := msgs[f.id], Sent(frags[..n], f.id);
    assert f.id in c <==> k > 0;
    Extended(f, p, k);
    assert c.Keys == Open(msgs, frags[..n]);
    OthersStay(msgs, frags);
  }

  lemma RecvHolds(c: Cache, msgs: map<nat, seq<byte>>, frags: seq<Frag>)
    requires frags != [] && var n := |frags| - 1; Holds(c, msgs, frags[..n]) && InTurn(msgs, frags, n) && Sound(c)
    requires NothingStale(Open(msgs, frags[..|frags| - 1]), frags[|frags| - 1])
    ensures var f := frags[|frags| - 1];
            |f.data| == SLOT && f.id in msgs
            && var (c', b) := RecvStep(c, f);
               && Holds(c', msgs, frags)
               && b == if f.remain <= 0 then Some(Buffer(|msgs[f.id]|, msgs[f.id])) else None
  {
    var n := |frags| - 1;
    var f := frags[n];
    assert c.Keys == Open(msgs, frags[..n]);
    if f.id !in c && f.remain > 0 { NothingCleaned(c, f); }
    StepsAlike(c, f, msgs[f.id], Sent(frags[..n], f.id));
    SniffHolds(c, msgs, frags);
  }

  lemma NothingCleaned(c: Cache, f: Frag)
    requires NothingStale(c.Keys, f) && f.id !in c && f.remain > 0
    ensures Clean(c, f.id) == c
  {
  }

  /** On the next piece of a message both reassemblers do the same, when nothing is cleaned away. */
  lemma StepsAlike(c: Cache, f: Frag, p: seq<byte>, k: nat)
    requires Sound(c) && IsFragment(f, p, k)
    requires f.id in c ==> c[f.id] == Buffer(|p|, p[..SLOT * k])
    requires f.id !in c && f.remain > 0 ==> Clean(c, f.id) == c
    ensures RecvStep(c, f) == SniffStep(c, f)
  {
  }

  /** The piece that comes next fits exactly. */
  lemma Extended(f: Frag, p: seq<byte>, k: nat)
    requires IsFragment(f, p, k)
    ensures k == 0 && f.remain > 0 ==> f.data == p[..SLOT]
    ensures k == 0 && f.remain <= 0 ==> SLOT + f.remain == |p| && f.data[..|p|] == p
    ensures f.remain > 0 ==> p[..SLOT * k] + f.data[..SLOT] == p[..SLOT * (k + 1)]
    ensures f.remain <= 0 ==> 0 < SLOT + f.remain <= SLOT && p[..SLOT * k] + f.data[..SLOT + f.remain] == p
  {
  }

  lemma OthersStay(msgs: map<nat, seq<byte>>, frags: seq<Frag>)
    requires frags != []
    ensures var f := frags[|frags| - 1];
            forall id :: Sent(frags, id) == Sent(frags[..|frags| - 1], id) + if id == f.id then 1 else 0
  {
  }

  /** Both reassemblers hand out every message byte for byte, in the order of the last fragments. */
  lemma {:induction false} Reassembles(sniff: bool, msgs: map<nat, seq<byte>>, frags: seq<Frag>)
    requires Interleaving(msgs, frags)
    requires !sniff ==> forall i :: 0 <= i < |frags| ==> NothingStale(Open(msgs, frags[..i]), frags[i])
    ensures Slotted(frags) && (forall f <- frags :: f.id in msgs)
    ensures Holds(Run(sniff, map[], frags).0, msgs, frags)
    ensures Run(sniff, map[], frags).1 == Expected(msgs, frags)
  {
    InterleavingSlotted(msgs, frags);
    if frags != [] {
      var n := |frags| - 1;
      InterleavingPrefix(msgs, frags);
      if !sniff {
        forall i | 0 <= i < n ensures NothingStale(Open(msgs, frags[..n][..i]), frags[..n][i]) {
          assert frags[..n][..i] == frags[..i] && NothingStale(Open(msgs, frags[..i]), frags[i]);
        }
      }
      Reassembles(sniff, msgs, frags[..n]);
      var c := Run(sniff, map[], frags[..n]).0;
      if sniff { SniffHolds(c, msgs, frags); } else { RecvHolds(c, msgs, frags); }
    }
  }

  lemma HoldsOne(c: Cache, d: Cache, msgs: map<nat, seq<byte>>, frags: seq<Frag>)
    requires Holds(c, msgs, frags) && Holds(d, msgs, frags)
    ensures c == d
  {
    hide Sent;
    assert forall id :: id in c <==> id in d;
  }

  /** The two reassemblers yield the same payloads. */
  lemma ReassemblersAgree(msgs: map<nat, seq<byte>>, frags: seq<Frag>)
    requires Interleaving(msgs, frags)
    requires forall i :: 0 <= i < |frags| ==> NothingStale(Open(msgs, frags[..i]), frags[i])
    ensures Slotted(frags) && Run(true, map[], frags) == Run(false, map[], frags)
  {
    hide Expected, Holds, Interleaving, NothingStale, Open, Run, Slotted;
    Reassembles(true, msgs, frags);
    Reassembles(false, msgs, frags);
    HoldsOne(Run(true, map[], frags).0, Run(false, map[], frags).0, msgs, frags);
  }

  /** How often a message was handed out. */
  ghost function HandedOut(out: seq<(nat, Buffer)>, id: nat): nat {
    if out == [] then 0 else HandedOut(out[..|out| - 1], id) + if out[|out| - 1].0 == id then 1 else 0
  }

  /** A message is handed out once when all of it has come, and never before. */
  lemma {:induction false} OnceWhenComplete(msgs: map<nat, seq<byte>>, frags: seq<Frag>, id: nat)
    requires Interleaving(msgs, frags) && id in msgs && msgs[id] != []
    ensures forall f <- frags :: f.id in msgs
    ensures HandedOut(Expected(msgs, frags), id) == if SLOT * Sent(frags, id) >= |msgs[id]| then 1 else 0
  {
    hide InTurn, IsFragment, Interleaving;
    InterleavingSlotted(msgs, frags);
    if frags != [] {
      var n := |frags| - 1;
      InterleavingPrefix(msgs, frags);
      OnceWhenComplete(msgs, frags[..n], id);
      LastTells(msgs, frags, id);
      HandOutOne(Expected(msgs, frags[..n]), (frags[n].id, Buffer(|msgs[frags[n].id]|, msgs[frags[n].id])), id);
      assert Expected(msgs, frags[..n]) + [] == Expected(msgs, frags[..n]);
    }
  }

  lemma HandOutOne(out: seq<(nat, Buffer)>, e: (nat, Buffer), id: nat)
    ensures HandedOut(out + [e], id) == HandedOut(out, id) + if e.0 == id then 1 else 0
  {
    assert (out + [e])[..|out|] == out;
  }

  /** The fragment that is marked as the last one is the one that completes its message. */
  lemma LastTells(msgs: map<nat, seq<byte>>, frags: seq<Frag>, id: nat)
    requires frags != [] && InTurn(msgs, frags, |frags| - 1) && id in msgs
    ensures var f := frags[|frags| - 1];
            var k := Sent(frags[..|frags| - 1], id);
            f.id == id ==> SLOT * k < |msgs[id]| && (f.remain <= 0 <==> SLOT * (k + 1) >= |msgs[id]|)
  {
  }

  // ---------------------------------------------------------------- fragments without bytes

  /** Without the fragments that announce no bytes. */
  function Meaningful(frags: seq<Frag>): (kept: seq<Frag>)
    ensures Slotted(frags) ==> Slotted(kept)
  {
    if frags == [] then []
    else
      var n := |frags| - 1;
      assert frags[n] in frags && forall f <- frags[..n] :: f in frags;
      Meaningful(frags[..n]) + if SLOT + frags[n].remain <= 0 then [] else [frags[n]]
  }

  /** Corrupt headers that announce no bytes change nothing, wherever they come. */
  lemma {:induction false} EmptyOnesIgnored(sniff: bool, c0: Cache, frags: seq<Frag>)
    requires Slotted(frags) && Sound(c0)
    ensures Run(sniff, c0, frags) == Run(sniff, c0, Meaningful(frags))
  {
    hide Sound;
    if frags != [] {
      var n := |frags| - 1;
      EmptyOnesIgnored(sniff, c0, frags[..n]);
      var kept := Meaningful(frags[..n]);
      if SLOT + frags[n].remain <= 0 {
        assert kept + [] == kept;
      } else {
        var all := kept + [frags[n]];
        assert all[..|all| - 1] == kept && all[|all| - 1] == frags[n];
      }
    }
  }

  /** A sniffer hands a buffer out as soon as it is full, marked as complete or not: none stays behind. */
  lemma {:induction false} NoFullOneStays(frags: seq<Frag>)
    requires Slotted(frags)
    ensures forall id <- Run(true, map[], frags).0 ::
              |Run(true, map[], frags).0[id].filled| < Run(true, map[], frags).0[id].size
  {
    if frags != [] { NoFullOneStays(frags[..|frags| - 1]); }
  }

  // ---------------------------------------------------------------- what the cache costs

  lemma {:induction false} FewIds(ids: set<nat>, lo: nat, hi: nat)
    requires lo <= hi && forall k <- ids :: lo <= k < hi
    ensures |ids| <= hi - lo
    decreases hi - lo
  {
    if lo < hi {
      FewIds(ids - {lo}, lo + 1, hi);
    } else {
      assert ids == {};
    }
  }

  lemma InsertBounded(c: Cache, id: nat, b: Buffer)
    requires id !in c && |c| <= 2 * STALE + 1
    ensures |Clean(c, id)[id := b]| <= 2 * STALE + 1
  {
    var d := Clean(c, id)[id := b];
    assert |d| == |d.Keys|;
    assert d.Keys == Clean(c, id).Keys + {id};
    if |c| > CACHE_LIMIT {
      FewIds(d.Keys, if id < STALE then 0 else id - STALE, id + STALE + 1);
    }
  }

  /** Whatever fragments arrive, lost, repeated or made up: the cache of `recv` never holds more than the 16385
      messages whose ids are near the newest one's. */
  lemma {:induction false} CacheStaysSmall(frags: seq<Frag>)
    requires Slotted(frags)
    ensures |Run(false, map[], frags).0| <= 2 * STALE + 1
  {
    if frags != [] {
      var n := |frags| - 1;
      var f := frags[n];
      CacheStaysSmall(frags[..n]);
      var c := Run(false, map[], frags[..n]).0;
      if f.id !in c {
        InsertBounded(c, f.id, Buffer(if SLOT + f.remain < 0 then 0 else SLOT + f.remain, f.data));
      } else {
        var b := Append(c[f.id], f.data, SLOT);
        assert c[f.id := b].Keys == c.Keys && |c[f.id := b]| == |c[f.id := b].Keys| && |c.Keys| == |c|;
        assert (c - {f.id}).Keys == c.Keys - {f.id} && |c - {f.id}| == |(c - {f.id}).Keys|;
      }
    }
  }

  // ---------------------------------------------------------------- a listener that came late

  /** A fragment of a payload is a fragment of what is left of it. */
  lemma FragmentOfSuffix(f: Frag, p: seq<byte>, k: nat, j: nat)
    requires SLOT * k <= |p|
    ensures IsFragment(f, p, k + j) <==> IsFragment(f, p[SLOT * k..], j)
  {
    var q := p[SLOT * k..];
    if SLOT * j < |q| {
      assert q[SLOT * j..Min(SLOT * (j + 1), |q|)] == p[SLOT * (k + j)..Min(SLOT * (k + j + 1), |p|)];
    }
  }

  /** The listener missed the first `missed[id]` fragments of message `id`. */
  ghost predicate LateInterleaving(msgs: map<nat, seq<byte>>, missed: map<nat, nat>, frags: seq<Frag>) {
    && (forall id <- msgs :: id in missed && SLOT * missed[id] <= |msgs[id]|)
    && forall i :: 0 <= i < |frags| ==> LateInTurn(msgs, missed, frags, i)
  }

  ghost predicate LateInTurn(msgs: map<nat, seq<byte>>, missed: map<nat, nat>, frags: seq<Frag>, i: nat)
    requires i < |frags|
  {
    var id := frags[i].id;
    id in msgs && id in missed && IsFragment(frags[i], msgs[id], missed[id] + Sent(frags[..i], id))
  }

  ghost function Suffixes(msgs: map<nat, seq<byte>>, missed: map<nat, nat>): map<nat, seq<byte>>
    requires forall id <- msgs :: id in missed && SLOT * missed[id] <= |msgs[id]|
  {
    map id | id in msgs :: msgs[id][SLOT * missed[id]..]
  }

  /** Nothing marks the first fragment of a message, so whoever starts in the middle of one, or lost
      its beginning, hands out the rest of it as if it were a message. */
  lemma LateListenerHandsOutSuffixes(sniff: bool, msgs: map<nat, seq<byte>>, missed: map<nat, nat>, frags: seq<Frag>)
    requires LateInterleaving(msgs, missed, frags)
    requires !sniff ==>
               forall i :: 0 <= i < |frags| ==> NothingStale(Open(Suffixes(msgs, missed), frags[..i]), frags[i])
    ensures Interleaving(Suffixes(msgs, missed), frags)
    ensures Slotted(frags) && (forall f <- frags :: f.id in msgs)
    ensures Run(sniff, map[], frags).1 == Expected(Suffixes(msgs, missed), frags)
  {
    var rest := Suffixes(msgs, missed);
    forall i | 0 <= i < |frags| ensures InTurn(rest, frags, i) {
      assert LateInTurn(msgs, missed, frags, i);
      var id := frags[i].id;
      FragmentOfSuffix(frags[i], msgs[id], missed[id], Sent(frags[..i], id));
    }
    Reassembles(sniff, rest, frags);
  }

  lemma {:induction false} ExpectedSame(msgs: map<nat, seq<byte>>, missed: map<nat, nat>, frags: seq<Frag>)
    requires forall id <- msgs :: id in missed && SLOT * missed[id] <= |msgs[id]|
    requires forall f <- frags :: f.id in msgs
    ensures var late := Expected(Suffixes(msgs, missed), frags);
            && |late| == |Expected(msgs, frags)|
            && (late == Expected(msgs, frags) <==> forall f <- frags :: f.remain <= 0 ==> missed[f.id] == 0)
  {
    if frags != [] {
      var n := |frags| - 1;
      var f := frags[n];
      var rest := Suffixes(msgs, missed);
      ExpectedSame(msgs, missed, frags[..n]);
      assert forall g :: g in frags <==> g in frags[..n] || g == f;
      var a, b := Expected(rest, frags[..n]), Expected(msgs, frags[..n]);
      if f.remain <= 0 {
        var x, y := (f.id, Buffer(|rest[f.id]|, rest[f.id])), (f.id, Buffer(|msgs[f.id]|, msgs[f.id]));
        assert x == y <==> missed[f.id] == 0;
        assert a + [x] == b + [y] <==> a == b && x == y by {
          assert (a + [x])[..|a|] == a && (b + [y])[..|b|] == b && (a + [x])[|a|] == x && (b + [y])[|b|] == y;
        }
      } else {
        assert a + [] == a && b + [] == b;
      }
    }
  }

  /** Exactly when a late listener hands out messages only: of all whose end it saw it saw the beginning. */
  lemma LateListenerWholeIff(sniff: bool, msgs: map<nat, seq<byte>>, missed: map<nat, nat>, frags: seq<Frag>)
    requires LateInterleaving(msgs, missed, frags)
    requires !sniff ==>
               forall i :: 0 <= i < |frags| ==> NothingStale(Open(Suffixes(msgs, missed), frags[..i]), frags[i])
    ensures Slotted(frags) && (forall f <- frags :: f.id in msgs && f.id in missed)
    ensures Run(sniff, map[], frags).1 == Expected(msgs, frags)
            <==> forall f <- frags :: f.remain <= 0 ==> missed[f.id] == 0
  {
    LateListenerHandsOutSuffixes(sniff, msgs, missed, frags);
    ExpectedSame(msgs, missed, frags);
  }

  /** The smallest case: of a message of two fragments the second one comes alone, and is handed out. */
  lemma HalfIsHandedOut(sniff: bool, p: seq<byte>, f: Frag)
    requires |p| == 2 * SLOT && f == Frag(7, 0, p[SLOT..])
    ensures LateInterleaving(map[7 := p], map[7 := 1], [f]) && Slotted([f])
    ensures Run(sniff, map[], [f]).1 == [(7, Buffer(SLOT, p[SLOT..]))] && p[SLOT..] != p
  {
    var msgs, missed: map<nat, nat> := map[7 := p], map[7 := 1];
    assert LateInTurn(msgs, missed, [f], 0);
    LateListenerHandsOutSuffixes(sniff, msgs, missed, [f]);
    assert Suffixes(msgs, missed)[7] == p[SLOT..] && [f][..0] == [];
    assert Expected(Suffixes(msgs, missed), []) == [];
  }

  lemma {:induction false} ExpectedAre(msgs: map<nat, seq<byte>>, frags: seq<Frag>)
    requires forall f <- frags :: f.id in msgs
    ensures forall e <- Expected(msgs, frags) :: e.0 in msgs && e.1 == Buffer(|msgs[e.0]|, msgs[e.0])
  {
    if frags != [] { ExpectedAre(msgs, frags[..|frags| - 1]); }
  }

  // ---------------------------------------------------------------- the receive loops

  /** A run over the fragments from `from` to `to` gives this table and this one message or none. */
  ghost predicate Followed(sniff: bool, c0: Cache, pushed: seq<Frag>, from: nat, to: nat, c: Cache,
                           out: Option<(nat, Buffer)>)
    requires Slotted(pushed) && Sound(c0)
  {
    && from <= to <= |pushed|
    && Run(sniff, c0, pushed[from..to]).0 == c
    && Run(sniff, c0, pushed[from..to]).1 == if out.Some? then [out.value] else []
  }

  lemma InSlots(pushed: seq<Frag>, i: nat)
    requires Slotted(pushed) && i < |pushed|
    ensures |pushed[i].data| == SLOT
  {
  }

  lemma FollowStart(sniff: bool, c0: Cache, pushed: seq<Frag>, from: nat)
    requires Slotted(pushed) && Sound(c0) && from <= |pushed|
    ensures Followed(sniff, c0, pushed, from, from, c0, None)
  {
    assert pushed[from..from] == [];
  }

  lemma FollowStep(sniff: bool, c0: Cache, pushed: seq<Frag>, from: nat, i: nat, c: Cache)
    requires Slotted(pushed) && Sound(c0) && i < |pushed| && Followed(sniff, c0, pushed, from, i, c, None)
    ensures |pushed[i].data| == SLOT && Sound(c)
    ensures var (c', b) := Step(sniff, c, pushed[i]);
            Followed(sniff, c0, pushed, from, i + 1, c', if b.Some? then Some((pushed[i].id, b.value)) else None)
  {
    hide SniffStep, RecvStep;
    var s := pushed[from..i + 1];
    assert s[..|s| - 1] == pushed[from..i] && s[|s| - 1] == pushed[i];
  }

  /** What a sniffer hands out after a lap, its table emptied and its cursor at the write index `from`, is
      what is left of a message, and all of it exactly when no fragment of it went by before. */
  lemma LappedHandsOutWholeIff(pushed: seq<Frag>, from: nat, to: nat, c: Cache, e: (nat, Buffer),
                               msgs: map<nat, seq<byte>>, missed: map<nat, nat>)
    requires Slotted(pushed) && Followed(true, map[], pushed, from, to, c, Some(e))
    requires LateInterleaving(msgs, missed, pushed[from..to])
    ensures e.0 in msgs && e.0 in missed
    ensures e.1.filled == msgs[e.0][SLOT * missed[e.0]..] && |e.1.filled| == e.1.size
    ensures e.1.filled == msgs[e.0] <==> missed[e.0] == 0
  {
    LateListenerHandsOutSuffixes(true, msgs, missed, pushed[from..to]);
    ExpectedAre(Suffixes(msgs, missed), pushed[from..to]);
    assert e in Run(true, map[], pushed[from..to]).1;
  }

  /** `recv`: the cache lives across calls. */
  class Receiver {
    var cache: Cache

    constructor ()
      ensures cache == map[]
    {
      cache := map[];
    }

    /** Throw out what is too far from `id`, one entry after the other. */
    method CleanFor(id: nat)
      modifies this
      ensures cache == Clean(old(cache), id)
    {
      if |cache| <= CACHE_LIMIT { return; }
      var todo := cache.Keys;
      while todo != {}
        invariant todo <= old(cache).Keys
        invariant forall k :: k in cache <==> k in old(cache) && (k in todo || Distance(id, k) <= STALE)
        invariant forall k <- cache :: cache[k] == old(cache)[k]
        decreases todo
      {
        var k :| k in todo;
        if Distance(id, k) > STALE { cache := cache - {k}; }
        todo := todo - {k};
      }
    }

    /** One fragment popped. */
    method Take(f: Frag) returns (out: Option<Buffer>)
      requires |f.data| == SLOT && Sound(cache)
      modifies this
      ensures (cache, out) == RecvStep(old(cache), f)
    {
      var n := SLOT + f.remain;
      if n <= 0 { return None; }
      if f.id !in cache {
        if n <= SLOT { return Some(Buffer(n, f.data[..n])); }
        CleanFor(f.id);
        cache := cache[f.id := Buffer(n, f.data)];
        return None;
      }
      if f.remain <= 0 {
        var b := Append(cache[f.id], f.data, n);
        cache := cache - {f.id};
        return Some(b);
      }
      cache := cache[f.id := Append(cache[f.id], f.data, SLOT)];
      return None;
    }

    /** Pop fragments until a message is complete, the ring is empty, or a fragment has no bytes. */
    method Recv(ring: seq<Frag>) returns (popped: nat, out: Option<(nat, Buffer)>)
      requires Slotted(ring) && Sound(cache)
      modifies this
      ensures popped <= |ring| && Sound(cache)
      ensures Followed(false, old(cache), ring, 0, popped, cache, out)
      ensures out.None? ==> popped == |ring| || (popped > 0 && SLOT + ring[popped - 1].remain <= 0)
    {
      hide SniffStep, RecvStep, Followed, Slotted;
      FollowStart(false, cache, ring, 0);
      popped, out := 0, None;
      while popped < |ring|
        invariant popped <= |ring| && out.None? && Sound(cache)
        invariant Followed(false, old(cache), ring, 0, popped, cache, None)
      {
        var f := ring[popped];
        InSlots(ring, popped);
        FollowStep(false, old(cache), ring, 0, popped, cache);
        popped := popped + 1;
        var b := Take(f);
        if b.Some? { return popped, Some((f.id, b.value)); }
        if SLOT + f.remain <= 0 { return; }
      }
    }
  }

  /** The ring a sniffer looks at. */
  const RING: nat := 256

  /** The sniffer: a cursor of its own, and no part in the protocol of the ring. */
  class Sniffer {
    var cur: nat
    var primed: bool
    var dropped: nat
    var frags: Cache

    constructor ()
      ensures !primed && dropped == 0 && frags == map[]
    {
      cur, primed, dropped, frags := 0, false, 0, map[];
    }

    /** One fragment, copied in time. */
    method Take(f: Frag) returns (out: Option<Buffer>)
      requires |f.data| == SLOT && Sound(frags)
      modifies this`frags
      ensures (frags, out) == SniffStep(old(frags), f)
    {
      var n := SLOT + f.remain;
      if n <= 0 { return None; }
      if n <= SLOT && f.id !in frags { return Some(Buffer(n, f.data[..n])); }
      if f.id !in frags {
        frags := frags[f.id := Buffer(n, f.data)];
        return None;
      }
      var b := frags[f.id];
      var take := if f.remain <= 0 then n else SLOT;
      if |b.filled| + take > b.size { take := b.size - |b.filled|; }
      b := Buffer(b.size, b.filled + f.data[..take]);
      if f.remain <= 0 || |b.filled| >= b.size {
        frags := frags - {f.id};
        return Some(b);
      }
      frags := frags[f.id := b];
      return None;
    }

    /** One look at the ring. `pushed` is everything written to it by the time of the return; `wt` is
        the write index on entry, and every later look at the index may find it moved on. */
    method TryRecvOne(pushed: seq<Frag>, wt: nat) returns (out: Option<(nat, Buffer)>)
      requires Slotted(pushed) && Sound(frags) && wt <= |pushed| && (primed ==> cur <= wt)
      modifies this
      ensures primed && Sound(frags) && cur <= |pushed|
      ensures !old(primed) ==> out.None? && cur == wt && frags == old(frags)
      ensures old(primed) && |pushed| - old(cur) <= RING ==>
                dropped == old(dropped) && Followed(true, old(frags), pushed, old(cur), cur, frags, out)
      ensures old(primed) && wt - old(cur) > RING ==> dropped >= old(dropped) + (wt - old(cur)) && cur >= wt
      ensures old(primed) && wt - old(cur) > RING && |pushed| - wt <= RING ==>
                && dropped == old(dropped) + (wt - old(cur))
                && Followed(true, map[], pushed, wt, cur, frags, out)
      ensures old(primed) && dropped == old(dropped) ==>
                Followed(true, old(frags), pushed, old(cur), cur, frags, out)
      ensures old(primed) && dropped != old(dropped) ==>
                exists from: nat :: old(cur) < from && Followed(true, map[], pushed, from, cur, frags, out)
      ensures out.None? ==> cur >= wt
    {
      hide SniffStep, RecvStep, Followed, Slotted;
      out := None;
      if !primed {
        cur, primed := wt, true;
        return;
      }
      if wt - cur > RING {
        dropped := dropped + (wt - cur);
        cur := wt;
        frags := map[];
      }
      var now := wt;
      ghost var first, entry, lost := cur, frags, dropped;
      ghost var start, table := cur, frags;
      FollowStart(true, table, pushed, start);
      while cur != now
        invariant primed && Sound(frags) && first <= start <= cur <= now && wt <= now <= |pushed|
        invariant out.None? && Sound(table) && Followed(true, table, pushed, start, cur, frags, None)
        invariant dropped >= lost && (|pushed| - first <= RING ==> dropped == lost)
        invariant if dropped == lost then start == first && table == entry else first < start && table == map[]
        decreases |pushed| - cur
      {
        var i := cur;
        InSlots(pushed, i);
        FollowStep(true, table, pushed, start, i, frags);
        var after :| now <= after <= |pushed|;
        now := after;
        cur := cur + 1;
        if now - i > RING {
          dropped := dropped + 1;
          frags := map[];
          start, table := cur, map[];
          FollowStart(true, table, pushed, start);
        } else {
          var b := Take(pushed[i]);
          if b.Some? { return Some((pushed[i].id, b.value)); }
        }
      }
    }
  }
}
