/** The caches of the schema compiler: the layout and the hash of a type are computed from those of
    the types it contains, so the order of generation matters. */
module LayoutCache {
  import opened Basics
  import opened DzFlatWire
  import opened DzFlatSchema
  import opened DepSort

  /** A field as the message file gives it: other types by name. */
  datatype Member = Own(f: Field) | Msg(t: Name) | MsgArray(t: Name)

  /** What the layout cache keeps of a type. */
  datatype Layout = Layout(size: nat, offsets: seq<nat>)

  /** The types named, field by field. */
  function Named(ms: seq<Member>): seq<Name> {
    if ms == [] then [] else (if ms[0].Own? then [] else [ms[0].t]) + Named(ms[1..])
  }

  lemma {:induction false} NamedAll(ms: seq<Member>)
    ensures forall m <- ms :: !m.Own? ==> m.t in Named(ms)
    ensures forall t <- Named(ms) :: exists m :: m in ms && !m.Own? && m.t == t
  {
    if ms != [] { NamedAll(ms[1..]); }
  }

  /** Positions, in order, of the fields from `i` on that name the types `names`, leaving none out. */
  predicate InOrder(ms: seq<Member>, i: nat, names: seq<Name>, pos: seq<nat>) {
    && |pos| == |names|
    && (forall k :: 0 <= k < |pos| ==> i <= pos[k] < |ms| && !ms[pos[k]].Own? && ms[pos[k]].t == names[k])
    && (forall j, k :: 0 <= j < k < |pos| ==> pos[j] < pos[k])
    && (forall m :: i <= m < |ms| && !ms[m].Own? ==> m in pos)
  }

  lemma OneBefore(ms: seq<Member>, i: nat, names: seq<Name>, pos: seq<nat>)
    requires i < |ms| && !ms[i].Own? && InOrder(ms, i + 1, names, pos)
    ensures InOrder(ms, i, [ms[i].t] + names, [i] + pos)
  {
  }

  lemma {:induction false} NamedFrom(ms: seq<Member>, i: nat) returns (pos: seq<nat>)
    requires i <= |ms|
    ensures InOrder(ms, i, Named(ms[i..]), pos)
    decreases |ms| - i
  {
    if i == |ms| {
      pos := [];
    } else {
      pos := NamedFrom(ms, i + 1);
      assert ms[i..][1..] == ms[i + 1..];
      if !ms[i].Own? {
        OneBefore(ms, i, Named(ms[i + 1..]), pos);
        pos := [i] + pos;
      }
    }
  }

  /** The types named come in the order of the fields, one for each field that names a type. */
  lemma NamedInOrder(ms: seq<Member>) returns (pos: seq<nat>)
    ensures InOrder(ms, 0, Named(ms), pos)
  {
    pos := NamedFrom(ms, 0);
    assert ms[0..] == ms;
  }

  ghost predicate Resolved(ms: seq<Member>, schemas: map<Name, Schema>) {
    forall m <- ms :: !m.Own? ==> m.t in schemas
  }

  ghost predicate NestedIn(ms: seq<Member>, schemas: map<Name, Schema>) {
    forall t <- Named(ms) :: t in schemas
  }

  /** The hashes that go into the hash of a type, field by field. */
  ghost function HashesOf(ms: seq<Member>, schemas: map<Name, Schema>): seq<nat>
    requires NestedIn(ms, schemas)
  {
    seq(|Named(ms)|, k requires 0 <= k < |Named(ms)| => schemas[Named(ms)[k]].hash)
  }

  /** The record of a type, once the types it names are known. */
  ghost function ToField(m: Member, schemas: map<Name, Schema>): Field
    requires !m.Own? ==> m.t in schemas
  {
    match m
    case Own(f) => f
    case Msg(t) => Nested(schemas[t])
    case MsgArray(t) => NestedArray(schemas[t])
  }

  ghost function ToFields(ms: seq<Member>, schemas: map<Name, Schema>): (fs: Fields)
    requires Resolved(ms, schemas)
    ensures Count(fs) == |ms|
  {
    if ms == [] then Nil else Cons(ToField(ms[0], schemas), ToFields(ms[1..], schemas))
  }

  /** The cached layout is the one of the record. */
  ghost predicate Fits(l: Layout, fs: Fields) {
    && l.size == RootSize(fs) && |l.offsets| == Count(fs)
    && forall i :: 0 <= i < Count(fs) ==> l.offsets[i] == Offset(fs, 0, i)
  }

  lemma OffsetStep(fs: Fields, cur: nat, i: nat)
    requires fs.Cons? && i < Count(fs.rest)
    ensures Offset(fs, cur, i + 1) == Offset(fs.rest, AlignUp(cur, AlignOf(fs.f)) + SizeOf(fs.f), i)
  {
    hide AlignUp, AlignOf, SizeOf;
  }

  /** The loop has placed the fields before `rest` and goes on at `cur`. */
  ghost predicate LaidOut(fs: Fields, rest: Fields, offsets: seq<nat>, cur: nat) {
    && |offsets| + Count(rest) == Count(fs) && End(fs, 0) == End(rest, cur)
    && (forall i :: 0 <= i < |offsets| ==> offsets[i] == Offset(fs, 0, i))
    && (forall j :: 0 <= j < Count(rest) ==> Offset(fs, 0, |offsets| + j) == Offset(rest, cur, j))
  }

  lemma LayOutOne(fs: Fields, rest: Fields, offsets: seq<nat>, cur: nat)
    requires LaidOut(fs, rest, offsets, cur) && rest.Cons?
    ensures var at := AlignUp(cur, AlignOf(rest.f)); LaidOut(fs, rest.rest, offsets + [at], at + SizeOf(rest.f))
  {
    hide AlignUp, AlignOf, SizeOf;
    var at := AlignUp(cur, AlignOf(rest.f));
    assert Offset(fs, 0, |offsets| + 0) == Offset(rest, cur, 0) == at;
    ghost var next := at + SizeOf(rest.f);
    forall j | 0 <= j < Count(rest.rest)
      ensures Offset(fs, 0, |offsets| + 1 + j) == Offset(rest.rest, next, j)
    {
      assert Offset(fs, 0, |offsets| + (j + 1)) == Offset(rest, cur, j + 1);
      OffsetStep(rest, cur, j);
    }
  }

  /** The first `i` members have been placed. */
  ghost predicate Placed(ms: seq<Member>, schemas: map<Name, Schema>, i: nat, offsets: seq<nat>, cur: nat) {
    i <= |ms| && (Resolved(ms, schemas) ==> LaidOut(ToFields(ms, schemas), ToFields(ms[i..], schemas), offsets, cur))
  }

  lemma PlaceFirst(ms: seq<Member>, schemas: map<Name, Schema>)
    ensures Placed(ms, schemas, 0, [], 0)
  {
    assert ms[0..] == ms;
  }

  lemma PlaceNext(ms: seq<Member>, schemas: map<Name, Schema>, i: nat, offsets: seq<nat>, cur: nat, sz: nat, al: nat)
    requires i < |ms| && Placed(ms, schemas, i, offsets, cur) && al in {1, 2, 4, 8}
    requires Resolved(ms, schemas) ==> var f := ToField(ms[i], schemas); sz == SizeOf(f) && al == AlignOf(f)
    ensures Placed(ms, schemas, i + 1, offsets + [AlignUp(cur, al)], AlignUp(cur, al) + sz)
  {
    hide AlignUp, AlignOf, SizeOf, LaidOut;
    if Resolved(ms, schemas) {
      assert ms[i..][1..] == ms[i + 1..] && ms[i..][0] == ms[i];
      LayOutOne(ToFields(ms, schemas), ToFields(ms[i..], schemas), offsets, cur);
    }
  }

  lemma PlacedAll(ms: seq<Member>, schemas: map<Name, Schema>, offsets: seq<nat>, cur: nat)
    requires Placed(ms, schemas, |ms|, offsets, cur) && Resolved(ms, schemas)
    ensures Fits(Layout(if ms == [] then ROOT_ALIGN else AlignUp(cur, ROOT_ALIGN), offsets), ToFields(ms, schemas))
  {
    hide AlignUp, AlignOf, SizeOf;
    assert ms[|ms|..] == [];
  }

  lemma {:induction false} Extended(ms: seq<Member>, schemas: map<Name, Schema>, more: map<Name, Schema>)
    requires Resolved(ms, schemas) && forall u <- schemas :: u in more && more[u] == schemas[u]
    ensures Resolved(ms, more) && ToFields(ms, more) == ToFields(ms, schemas)
  {
    if ms != [] { Extended(ms[1..], schemas, more); }
  }

  class Compiler {
    var layouts: map<Name, Layout>
    var hashes: map<Name, nat>
    /** The hash of the canonical text and the hashes of the nested types. */
    const fingerprint: (seq<Member>, seq<nat>) -> nat
    ghost var schemas: map<Name, Schema>

    ghost predicate Valid()
      reads this
    {
      && layouts.Keys == schemas.Keys && hashes.Keys == schemas.Keys
      && forall t <- schemas :: Fits(layouts[t], schemas[t].fields) && hashes[t] == schemas[t].hash
    }

    constructor (fingerprint: (seq<Member>, seq<nat>) -> nat)
      ensures Valid() && schemas == map[] && this.fingerprint == fingerprint
    {
      this.fingerprint := fingerprint;
      layouts, hashes, schemas := map[], map[], map[];
    }

    /** Size and alignment of a member; None when the nested type has no layout yet. */
    method MemberLayout(m: Member) returns (r: Option<(nat, nat)>)
      requires Valid()
      ensures r.None? <==> m.Msg? && m.t !in layouts
      ensures r.Some? && (m.MsgArray? ==> m.t in schemas) ==>
                var f := ToField(m, schemas); r.value == (SizeOf(f), AlignOf(f))
      ensures r.Some? ==> r.value.1 in {1, 2, 4, 8}
    {
      match m
      case Own(f) => return Some((SizeOf(f), AlignOf(f)));
      case Msg(t) =>
        if t !in layouts { return None; }
        return Some((layouts[t].size, ROOT_ALIGN));
      case MsgArray(t) => return Some((REF_SIZE, REF_ALIGN));
    }

    /** `compute_layout`: one member after the other at the next aligned offset. */
    method ComputeLayout(ms: seq<Member>) returns (r: Option<Layout>)
      requires Valid()
      ensures r.None? <==> exists m :: m in ms && m.Msg? && m.t !in layouts
      ensures r.Some? && Resolved(ms, schemas) ==> Fits(r.value, ToFields(ms, schemas))
    {
      hide Placed, Fits, AlignUp;
      var cur: nat := 0;
      var offsets: seq<nat> := [];
      var i := 0;
      PlaceFirst(ms, schemas);
      while i < |ms|
        invariant i <= |ms|
        invariant forall k :: 0 <= k < i ==> !(ms[k].Msg? && ms[k].t !in layouts)
        invariant Placed(ms, schemas, i, offsets, cur)
      {
        var l := MemberLayout(ms[i]);
        if l.None? { return None; }
        var (sz, al) := l.value;
        var off := AlignUp(cur, al);
        PlaceNext(ms, schemas, i, offsets, cur, sz, al);
        offsets := offsets + [off];
        cur := off + sz;
        i := i + 1;
      }
      if Resolved(ms, schemas) { PlacedAll(ms, schemas, offsets, cur); }
      return Some(Layout(if ms == [] then ROOT_ALIGN else AlignUp(cur, ROOT_ALIGN), offsets));
    }

    /** The hashes of the nested types; None when one is missing. */
    method NestedHashes(ms: seq<Member>) returns (r: Option<seq<nat>>)
      ensures r.None? <==> exists m :: m in ms && !m.Own? && m.t !in hashes
      ensures r.Some? ==>
                && |r.value| == |Named(ms)|
                && forall k :: 0 <= k < |r.value| ==>
                     Named(ms)[k] in hashes && r.value[k] == hashes[Named(ms)[k]]
    {
      var hs: seq<nat> := [];
      var i := 0;
      while i < |ms|
        invariant i <= |ms|
        invariant forall k :: 0 <= k < i && !ms[k].Own? ==> ms[k].t in hashes
        invariant |hs| <= |Named(ms)| && Named(ms)[|hs|..] == Named(ms[i..])
        invariant forall k :: 0 <= k < |hs| ==> Named(ms)[k] in hashes && hs[k] == hashes[Named(ms)[k]]
      {
        assert ms[i..][1..] == ms[i + 1..] && ms[i..][0] == ms[i];
        if !ms[i].Own? {
          if ms[i].t !in hashes { return None; }
          hs := hs + [hashes[ms[i].t]];
        }
        i := i + 1;
      }
      return Some(hs);
    }

    /** One message file: its layout, then its hash. False when a type it names has not been done. */
    method Generate(t: Name, ms: seq<Member>) returns (ok: bool)
      requires Valid() && t !in schemas
      modifies this
      ensures ok <==> old(Resolved(ms, schemas))
      ensures ok ==>
                && Valid() && schemas.Keys == old(schemas).Keys + {t}
                && (forall u <- old(schemas) :: schemas[u] == old(schemas)[u])
                     && schemas[t].fields == ToFields(ms, old(schemas))
      ensures ok ==> NestedIn(ms, old(schemas)) && schemas[t].hash == fingerprint(ms, HashesOf(ms, old(schemas)))
    {
      hide Fits, Named;
      ghost var was := schemas;
      NamedAll(ms);
      var l := ComputeLayout(ms);
      if l.None? { return false; }
      layouts := layouts[t := l.value];
      var nested := NestedHashes(ms);
      if nested.None? { return false; }
      assert nested.value == HashesOf(ms, was);
      hashes := hashes[t := fingerprint(ms, nested.value)];
      schemas := schemas[t := Schema(hashes[t], ToFields(ms, schemas))];
      return true;
    }
  }

  /** Which types mention which. */
  function GraphOf(defs: map<Name, seq<Member>>): Graph {
    Graph(defs.Keys, map t | t in defs :: Named(defs[t]))
  }

  /** The types compiled so far, each from those it names. */
  ghost predicate Grounded(schemas: map<Name, Schema>, defs: map<Name, seq<Member>>) {
    forall t <- schemas :: t in defs && Resolved(defs[t], schemas) && schemas[t].fields == ToFields(defs[t], schemas)
  }

  lemma GroundOne(was: map<Name, Schema>, now: map<Name, Schema>, defs: map<Name, seq<Member>>, t: Name)
    requires Grounded(was, defs) && t in defs && Resolved(defs[t], was) && now.Keys == was.Keys + {t} && t !in was
    requires (forall u <- was :: now[u] == was[u]) && now[t].fields == ToFields(defs[t], was)
    ensures Grounded(now, defs)
  {
    forall u | u in now
      ensures u in defs && Resolved(defs[u], now) && now[u].fields == ToFields(defs[u], now)
    {
      Extended(defs[u], was, now);
    }
  }

  /** Every type is compiled, from the types it names as they were compiled. */
  ghost predicate Complete(c: Compiler, defs: map<Name, seq<Member>>)
    reads c
  {
    c.Valid() && c.schemas.Keys == defs.Keys && Grounded(c.schemas, defs)
  }

  lemma DependenciesDone(defs: map<Name, seq<Member>>, order: seq<Name>, i: nat)
    requires DepsFirst(GraphOf(defs), order) && ToSet(order) == defs.Keys && i < |order|
    requires forall t <- defs :: forall u <- Named(defs[t]) :: u in defs
    ensures order[i] in defs && forall m <- defs[order[i]] :: !m.Own? ==> m.t in order[..i]
  {
    var t := order[i];
    assert t in ToSet(order);
    NamedAll(defs[t]);
    forall m | m in defs[t] && !m.Own? ensures m.t in order[..i] {
      assert m.t in Named(defs[t]);
      assert Edge(GraphOf(defs), t, m.t);
    }
  }

  lemma NextReady(defs: map<Name, seq<Member>>, order: seq<Name>, i: nat, schemas: map<Name, Schema>)
    requires DepsFirst(GraphOf(defs), order) && Distinct(order) && ToSet(order) == defs.Keys && i < |order|
    requires forall t <- defs :: forall u <- Named(defs[t]) :: u in defs
    requires schemas.Keys == ToSet(order[..i])
    ensures order[i] in defs && Resolved(defs[order[i]], schemas) && order[i] !in schemas
    ensures ToSet(order[..i + 1]) == ToSet(order[..i]) + {order[i]}
  {
    hide DepsFirst, GraphOf, Named;
    DependenciesDone(defs, order, i);
    assert order[i] !in order[..i];
    assert order[..i + 1] == order[..i] + [order[i]];
  }

  lemma NothingYet(schemas: map<Name, Schema>, defs: map<Name, seq<Member>>, order: seq<Name>)
    requires schemas == map[]
    ensures Grounded(schemas, defs) && schemas.Keys == ToSet(order[..0])
  {
  }

  /** In an order that puts dependencies first no lookup misses. */
  method GenerateAll(c: Compiler, defs: map<Name, seq<Member>>, order: seq<Name>)
    requires c.Valid() && c.schemas == map[]
    requires forall t <- defs :: forall u <- Named(defs[t]) :: u in defs
    requires Distinct(order) && ToSet(order) == defs.Keys && DepsFirst(GraphOf(defs), order)
    modifies c
    ensures Complete(c, defs)
  {
    hide Count, DepsFirst, Distinct, GraphOf, Named, Resolved, ToFields;
    NothingYet(c.schemas, defs, order);
    var i := 0;
    while i < |order|
      invariant i <= |order| && c.Valid() && c.schemas.Keys == ToSet(order[..i]) && Grounded(c.schemas, defs)
    {
      NextReady(defs, order, i, c.schemas);
      ghost var was := c.schemas;
      var ok := c.Generate(order[i], defs[order[i]]);
      GroundOne(was, c.schemas, defs, order[i]);
      i := i + 1;
    }
    assert order[..i] == order;
  }

  /** Sorting and compiling succeeds exactly for the sets of types without a cycle. */
  method Compile(defs: map<Name, seq<Member>>, roots: seq<Name>, c: Compiler) returns (ok: bool)
    requires c.Valid() && c.schemas == map[] && ToSet(roots) == defs.Keys
    requires forall t <- defs :: forall u <- Named(defs[t]) :: u in defs
    modifies c
    ensures ok <==> !Cyclic(GraphOf(defs))
    ensures ok ==> Complete(c, defs)
  {
    var order := Sort(GraphOf(defs), roots);
    if order.None? { return false; }
    GenerateAll(c, defs, order.value);
    return true;
  }
}
