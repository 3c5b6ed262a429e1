/** The order in which message types are generated: depth first, dependencies before their users. */
module DepSort {
  import opened Basics

  type Name = string

  /** `deps` lists what each type mentions; only the known types take part. */
  datatype Graph = Graph(known: set<Name>, deps: map<Name, seq<Name>>)

  predicate Edge(g: Graph, a: Name, b: Name) {
    a in g.known && b in g.known && a in g.deps && b in g.deps[a]
  }

  /** Each type mentions the next one. */
  ghost predicate Walk(g: Graph, p: seq<Name>) {
    forall i :: 0 <= i < |p| - 1 ==> Edge(g, p[i], p[i + 1])
  }

  ghost predicate IsCycle(g: Graph, p: seq<Name>) {
    |p| >= 2 && p[0] == p[|p| - 1] && Walk(g, p)
  }

  ghost predicate Cyclic(g: Graph) {
    exists p :: IsCycle(g, p)
  }

  /** Every known dependency of an element stands before it. */
  predicate DepsFirst(g: Graph, s: seq<Name>) {
    forall i, b :: 0 <= i < |s| && b in g.known && Edge(g, s[i], b) ==> b in s[..i]
  }

  function ToSet(s: seq<Name>): set<Name> {
    set x | x in s
  }

  // ---------------------------------------------------------------- an order excludes cycles

  /** Along a walk the places in the order go down. */
  lemma {:induction false} WalkDescends(g: Graph, s: seq<Name>, p: seq<Name>, i: nat)
    requires DepsFirst(g, s) && Distinct(s) && Walk(g, p) && |p| >= 2 && i < |s| && s[i] == p[0]
    ensures exists j :: 0 <= j < i && s[j] == p[|p| - 1]
    decreases |p|
  {
    assert Edge(g, p[0], p[1]);
    assert p[1] in s[..i];
    var j :| 0 <= j < i && s[..i][j] == p[1];
    if |p| > 2 {
      var q := p[1..];
      forall k | 0 <= k < |q| - 1 ensures Edge(g, q[k], q[k + 1]) {
        assert Edge(g, p[k + 1], p[k + 2]);
      }
      WalkDescends(g, s, q, j);
    }
  }

  /** When the types can be ordered, no type depends on itself, directly or through others. */
  lemma OrderedMeansAcyclic(g: Graph, s: seq<Name>)
    requires DepsFirst(g, s) && Distinct(s) && ToSet(s) == g.known
    ensures !Cyclic(g)
  {
    if Cyclic(g) {
      var p :| IsCycle(g, p);
      assert Edge(g, p[0], p[1]);
      assert p[0] in ToSet(s);
      var i :| 0 <= i < |s| && s[i] == p[0];
      WalkDescends(g, s, p, i);
      assert false;
    }
  }

  lemma CloseCycle(g: Graph, stack: seq<Name>, t: Name) returns (cycle: seq<Name>)
    requires Walk(g, stack) && t in ToSet(stack) && Edge(g, stack[|stack| - 1], t)
    ensures IsCycle(g, cycle)
  {
    var k :| 0 <= k < |stack| && stack[k] == t;
    cycle := stack[k..] + [t];
  }

  lemma PushStack(g: Graph, stack: seq<Name>, t: Name)
    requires Walk(g, stack) && (stack != [] ==> Edge(g, stack[|stack| - 1], t))
    ensures Walk(g, stack + [t]) && ToSet(stack + [t]) == ToSet(stack) + {t}
  {
  }

  // ---------------------------------------------------------------- the search

  class Sorter {
    const g: Graph
    var visiting: set<Name>
    var visited: set<Name>
    var sorted: seq<Name>

    ghost predicate Valid()
      reads this
    {
      && visited == ToSet(sorted) && Distinct(sorted) && DepsFirst(g, sorted)
      && visited <= g.known && visiting <= g.known && visiting !! visited
    }

    /** The types being visited form a walk, each waiting for the next. */
    ghost predicate OnStack(stack: seq<Name>)
      reads this
    {
      Walk(g, stack) && ToSet(stack) == visiting
    }

    constructor (g: Graph)
      ensures this.g == g && Valid() && visiting == {} && sorted == []
    {
      this.g := g;
      visiting, visited, sorted := {}, {}, [];
    }

    /** False stands for the exception; `cycle` is then the evidence. */
    method Visit(t: Name, ghost stack: seq<Name>) returns (ok: bool, ghost cycle: seq<Name>)
      requires Valid() && t in g.known && OnStack(stack)
      requires stack != [] ==> Edge(g, stack[|stack| - 1], t)
      modifies this
      ensures ok ==> Valid() && visiting == old(visiting) && t in visited && old(sorted) <= sorted
      ensures !ok ==> IsCycle(g, cycle)
      decreases g.known - visiting, 1
    {
      hide DepsFirst, Distinct, Walk, IsCycle;
      cycle := [];
      if t in visited { return true, []; }
      if t in visiting {
        cycle := CloseCycle(g, stack, t);
        return false, cycle;
      }
      visiting := visiting + {t};
      ghost var stack' := stack + [t];
      PushStack(g, stack, t);
      var todo := if t in g.deps then g.deps[t] else [];
      var i := 0;
      while i < |todo|
        invariant i <= |todo| && Valid() && visiting == old(visiting) + {t} && t !in old(visiting) && t !in visited
        invariant old(sorted) <= sorted
        invariant forall k :: 0 <= k < i && todo[k] in g.known ==> todo[k] in visited
      {
        if todo[i] in g.known {
          assert Edge(g, t, todo[i]);
          ok, cycle := Visit(todo[i], stack');
          if !ok { return; }
        }
        i := i + 1;
      }
      visiting := visiting - {t};
      visited := visited + {t};
      AppendOrdered(g, sorted, t);
      sorted := sorted + [t];
      return true, [];
    }
  }

  lemma AppendOrdered(g: Graph, s: seq<Name>, t: Name)
    requires DepsFirst(g, s) && Distinct(s) && t !in s
    requires forall b :: b in g.known && Edge(g, t, b) ==> b in s
    ensures DepsFirst(g, s + [t]) && Distinct(s + [t]) && ToSet(s + [t]) == ToSet(s) + {t}
  {
    var r := s + [t];
    forall i, b | 0 <= i < |r| && b in g.known && Edge(g, r[i], b) ensures b in r[..i] {
      if i < |s| { assert r[..i] == s[..i]; } else { assert r[..i] == s; }
    }
  }

  /** Raises exactly when the graph has a cycle; otherwise gives every type once, after everything it
      depends on. `roots` are the type names in the order they are tried. */
  method Sort(g: Graph, roots: seq<Name>) returns (order: Option<seq<Name>>)
    requires ToSet(roots) == g.known
    ensures order.None? <==> Cyclic(g)
    ensures order.Some? ==> Distinct(order.value) && ToSet(order.value) == g.known && DepsFirst(g, order.value)
  {
    var s := new Sorter(g);
    var i := 0;
    while i < |roots|
      invariant i <= |roots| && s.Valid() && s.visiting == {} && s.g == g
      invariant forall k :: 0 <= k < i ==> roots[k] in s.visited
    {
      assert roots[i] in ToSet(roots);
      var ok, cycle := s.Visit(roots[i], []);
      if !ok { return None; }
      i := i + 1;
    }
    forall x | x in g.known ensures x in s.visited { assert x in ToSet(roots); }
    OrderedMeansAcyclic(g, s.sorted);
    return Some(s.sorted);
  }

  // ---------------------------------------------------------------- what a message file depends on

  /** The types a file names, each once, in the order of their first use. */
  function Mentioned(registry: map<Name, Name>, bases: seq<Name>): (deps: seq<Name>)
    ensures Distinct(deps)
    ensures forall d :: d in deps <==> exists b :: b in bases && b in registry && registry[b] == d
  {
    if bases == [] then []
    else
      var n := |bases| - 1;
      var deps := Mentioned(registry, bases[..n]);
      assert bases == bases[..n] + [bases[n]];
      if bases[n] in registry && registry[bases[n]] !in deps then deps + [registry[bases[n]]] else deps
  }

  /** Line `i` is the first that uses type `d`. */
  predicate FirstUse(registry: map<Name, Name>, bases: seq<Name>, d: Name, i: nat) {
    && i < |bases| && bases[i] in registry && registry[bases[i]] == d
    && forall h :: 0 <= h < i && bases[h] in registry ==> registry[bases[h]] != d
  }

  /** A type comes before another exactly when its first use does. */
  lemma {:induction false} MentionedInOrder(registry: map<Name, Name>, bases: seq<Name>, j: nat, k: nat, p: nat, q: nat)
    requires j < |Mentioned(registry, bases)| && FirstUse(registry, bases, Mentioned(registry, bases)[j], p)
    requires k < |Mentioned(registry, bases)| && FirstUse(registry, bases, Mentioned(registry, bases)[k], q)
    ensures j < k <==> p < q
  {
    var n := |bases| - 1;
    var was := Mentioned(registry, bases[..n]);
    UsedBefore(registry, bases, j, p);
    UsedBefore(registry, bases, k, q);
    if j < |was| && k < |was| { MentionedInOrder(registry, bases[..n], j, k, p, q); }
  }

  lemma Unmentioned(registry: map<Name, Name>, bases: seq<Name>, d: Name)
    requires d !in Mentioned(registry, bases)
    ensures forall h :: 0 <= h < |bases| && bases[h] in registry ==> registry[bases[h]] != d
  {
  }

  lemma UsedBefore(registry: map<Name, Name>, bases: seq<Name>, j: nat, p: nat)
    requires j < |Mentioned(registry, bases)| && FirstUse(registry, bases, Mentioned(registry, bases)[j], p)
    ensures var n := |bases| - 1; var was := Mentioned(registry, bases[..n]);
            if j < |was| then was[j] == Mentioned(registry, bases)[j] && FirstUse(registry, bases[..n], was[j], p)
            else j == |was| && p == n
  {
    var n := |bases| - 1;
    var was := Mentioned(registry, bases[..n]);
    var d := Mentioned(registry, bases)[j];
    if j < |was| {
      var b :| b in bases[..n] && b in registry && registry[b] == d;
      var i :| 0 <= i < n && bases[..n][i] == b;
      assert bases[i] == b;
      assert forall h :: 0 <= h < n ==> bases[..n][h] == bases[h];
    } else {
      Unmentioned(registry, bases[..n], d);
      assert forall h :: 0 <= h < n ==> bases[..n][h] == bases[h];
    }
  }

  /** `bases` are the field types line by line; a spelling that is not registered is no message type.
      None is the exception for a type that contains itself. */
  method ParseDependencies(self: Name, bases: seq<Name>, registry: map<Name, Name>) returns (r: Option<seq<Name>>)
    ensures r.None? <==> exists b :: b in bases && b in registry && registry[b] == self
    ensures r.Some? ==> r.value == Mentioned(registry, bases)
  {
    var deps: seq<Name> := [];
    var i := 0;
    while i < |bases|
      invariant i <= |bases| && deps == Mentioned(registry, bases[..i])
      invariant forall k :: 0 <= k < i && bases[k] in registry ==> registry[bases[k]] != self
    {
      assert bases[..i + 1][..i] == bases[..i];
      var b := bases[i];
      i := i + 1;
      if b !in registry { continue; }
      var dep := registry[b];
      if dep == self { return None; }
      if dep !in deps { deps := deps + [dep]; }
    }
    assert bases[..i] == bases;
    return Some(deps);
  }
}
