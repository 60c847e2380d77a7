/** Which nodes of the graph the redactor expands: exactly those it can come to, and each of them once. */
module RedactionWalk {
  import opened Redaction

  // --- Each node at most once -------------------------------------------------------------

  /** Arrays and objects in a tree. */
  function Expanded(t: Tree): nat {
    match t
    case Leaf(_) => 0
    case List(items) => 1 + ExpandedIn(items)
    case Record(fields) => 1 + ExpandedInFields(fields)
  }

  function ExpandedIn(trees: seq<Tree>): nat {
    if trees == [] then 0 else ExpandedIn(trees[..|trees| - 1]) + Expanded(trees[|trees| - 1])
  }

  function ExpandedInFields(fields: seq<Field>): nat {
    if fields == [] then 0 else ExpandedInFields(fields[..|fields| - 1]) + Expanded(fields[|fields| - 1].tree)
  }

  lemma {:induction false} ExpandedRebuilt(n: Node, trees: seq<Tree>)
    requires |trees| == |Slots(n)|
    ensures Expanded(Rebuild(n, trees)) == 1 + ExpandedIn(trees)
  {
    if n.Object? {
      var fields := Rebuild(n, trees).fields;
      ExpandedFields(fields, trees);
    }
  }

  lemma {:induction false} ExpandedFields(fields: seq<Field>, trees: seq<Tree>)
    requires |trees| == |fields| && forall i :: 0 <= i < |fields| ==> fields[i].tree == trees[i]
    ensures ExpandedInFields(fields) == ExpandedIn(trees)
  {
    if fields != [] { ExpandedFields(fields[..|fields| - 1], trees[..|fields| - 1]); }
  }

  /** Each expansion uses up a node not seen before: the output has one container for each. */
  lemma {:induction false} ExpandsOnce(g: Graph, v: Value, seen: set<nat>)
    requires Closed(g) && Inside(g, v)
    ensures var r := Redact(g, v, seen);
            Expanded(r.0) == |r.1| - |seen| && r.1 <= seen + g.Keys
    decreases g.Keys - seen, 0
  {
    if v.Ref? && v.id !in seen {
      assert v.id in g.Keys - seen;
      ExpandAllOnce(g, Slots(g[v.id]), seen + {v.id});
      ExpandedRebuilt(g[v.id], RedactAll(g, Slots(g[v.id]), seen + {v.id}).0);
    }
  }

  lemma {:induction false} ExpandAllOnce(g: Graph, slots: seq<Slot>, seen: set<nat>)
    requires Closed(g) && AllInside(g, slots)
    ensures var r := RedactAll(g, slots, seen);
            ExpandedIn(r.0) == |r.1| - |seen| && r.1 <= seen + g.Keys
    decreases g.Keys - seen, |slots|
  {
    if slots != [] {
      var last := |slots| - 1;
      ExpandAllOnce(g, slots[..last], seen);
      var before := RedactAll(g, slots[..last], seen);
      assert RedactAll(g, slots, seen).0[..last] == before.0;
      if !slots[last].hidden {
        assert g.Keys - before.1 <= g.Keys - seen;
        ExpandsOnce(g, slots[last].value, before.1);
      }
    }
  }

  /** A whole call expands at most as many nodes as the graph has. */
  lemma ExpandsAtMostTheGraph(g: Graph, v: Value)
    requires Closed(g) && Inside(g, v)
    ensures Expanded(Redact(g, v, {}).0) <= |g|
  {
    ExpandsOnce(g, v, {});
    var nodes := Redact(g, v, {}).1;
    SubsetSize(nodes, g.Keys);
  }

  lemma {:induction false} SubsetSize<T>(a: set<T>, b: set<T>)
    requires a <= b
    ensures |a| <= |b|
  {
    if a != {} {
      var x :| x in a;
      SubsetSize(a - {x}, b - {x});
    }
  }

  // --- Which nodes are walked ------------------------------------------------------------------

  /** The redactor goes from a to b: b is a child of a that is not under a sensitive key. */
  ghost predicate Edge(g: Graph, a: nat, b: nat) {
    a in g && exists i :: 0 <= i < |Slots(g[a])| && Slots(g[a])[i] == Slot(false, Ref(b))
  }

  ghost predicate Leads(g: Graph, a: nat, b: nat, steps: nat)
    decreases steps
  {
    if steps == 0 then a == b else exists c: nat :: Edge(g, a, c) && Leads(g, c, b, steps - 1)
  }

  /** Some number of such steps leads from the value to the node. */
  ghost predicate Reached(g: Graph, v: Value, id: nat) {
    v.Ref? && exists steps: nat :: Leads(g, v.id, id, steps)
  }

  ghost predicate AnyReached(g: Graph, slots: seq<Slot>, id: nat) {
    exists i :: 0 <= i < |slots| && !slots[i].hidden && Reached(g, slots[i].value, id)
  }

  lemma ReachesItself(g: Graph, id: nat)
    ensures Reached(g, Ref(id), id)
  {
    assert Leads(g, id, id, 0);
  }

  lemma ReachedThrough(g: Graph, a: nat, id: nat)
    requires a in g && AnyReached(g, Slots(g[a]), id)
    ensures Reached(g, Ref(a), id)
  {
    var slots := Slots(g[a]);
    var i :| 0 <= i < |slots| && !slots[i].hidden && Reached(g, slots[i].value, id);
    var b := slots[i].value.id;
    assert slots[i] == Slot(false, Ref(b));
    var steps: nat :| Leads(g, b, id, steps);
    assert Edge(g, a, b) && Leads(g, a, id, steps + 1);
  }

  lemma AnyReachedMore(g: Graph, slots: seq<Slot>, k: nat, id: nat)
    requires k <= |slots| && AnyReached(g, slots[..k], id)
    ensures AnyReached(g, slots, id)
  {
    var i :| 0 <= i < k && !slots[..k][i].hidden && Reached(g, slots[..k][i].value, id);
    assert slots[i] == slots[..k][i];
  }

  /** Whatever is newly seen is reached. */
  lemma {:induction false} SeenIsReached(g: Graph, v: Value, seen: set<nat>)
    requires Closed(g) && Inside(g, v)
    ensures forall id :: id in Redact(g, v, seen).1 - seen ==> Reached(g, v, id)
    decreases g.Keys - seen, 0
  {
    if v.Ref? && v.id !in seen {
      assert v.id in g.Keys - seen;
      AllSeenIsReached(g, Slots(g[v.id]), seen + {v.id});
      ReachesItself(g, v.id);
      forall id | id in Redact(g, v, seen).1 - seen && id != v.id ensures Reached(g, v, id) {
        ReachedThrough(g, v.id, id);
      }
    }
  }

  lemma {:induction false} AllSeenIsReached(g: Graph, slots: seq<Slot>, seen: set<nat>)
    requires Closed(g) && AllInside(g, slots)
    ensures forall id :: id in RedactAll(g, slots, seen).1 - seen ==> AnyReached(g, slots, id)
    decreases g.Keys - seen, |slots|
  {
    if slots != [] {
      var last := |slots| - 1;
      var before := RedactAll(g, slots[..last], seen);
      AllSeenIsReached(g, slots[..last], seen);
      if !slots[last].hidden {
        assert g.Keys - before.1 <= g.Keys - seen;
        SeenIsReached(g, slots[last].value, before.1);
      }
      forall id | id in RedactAll(g, slots, seen).1 - seen ensures AnyReached(g, slots, id) {
        if id in before.1 { AnyReachedMore(g, slots, last, id); }
      }
    }
  }

  /** The nodes at which the walk has been, and everything they lead to. */
  ghost predicate Followed(g: Graph, nodes: set<nat>, seen: set<nat>) {
    forall a, b :: a in nodes && a !in seen && Edge(g, a, b) ==> b in nodes
  }

  /** Whatever is newly seen is followed all the way. */
  lemma {:induction false} SeenIsFollowed(g: Graph, v: Value, seen: set<nat>)
    requires Closed(g) && Inside(g, v)
    ensures var nodes := Redact(g, v, seen).1;
            (v.Ref? ==> v.id in nodes) && Followed(g, nodes, seen)
    decreases g.Keys - seen, 0
  {
    if v.Ref? && v.id !in seen {
      assert v.id in g.Keys - seen;
      AllSeenIsFollowed(g, Slots(g[v.id]), seen + {v.id});
    }
  }

  lemma {:induction false} AllSeenIsFollowed(g: Graph, slots: seq<Slot>, seen: set<nat>)
    requires Closed(g) && AllInside(g, slots)
    ensures var nodes := RedactAll(g, slots, seen).1;
      && Followed(g, nodes, seen)
      && forall i :: 0 <= i < |slots| && !slots[i].hidden && slots[i].value.Ref? ==> slots[i].value.id in nodes
    decreases g.Keys - seen, |slots|
  {
    if slots != [] {
      var last := |slots| - 1;
      var before := RedactAll(g, slots[..last], seen);
      AllSeenIsFollowed(g, slots[..last], seen);
      assert forall i :: 0 <= i < last ==> slots[..last][i] == slots[i];
      if !slots[last].hidden {
        assert g.Keys - before.1 <= g.Keys - seen;
        SeenIsFollowed(g, slots[last].value, before.1);
      }
    }
  }

  lemma {:induction false} LeadsInside(g: Graph, nodes: set<nat>, a: nat, b: nat, steps: nat)
    requires Followed(g, nodes, {}) && a in nodes && Leads(g, a, b, steps)
    ensures b in nodes
    decreases steps
  {
    if steps > 0 {
      var c: nat :| Edge(g, a, c) && Leads(g, c, b, steps - 1);
      LeadsInside(g, nodes, c, b, steps - 1);
    }
  }

  /**
   One call walks exactly the nodes that are reached along unhidden edges, cycles or not, and the
   output has exactly one array or object for each of them.
   */
  lemma WalksTheReached(g: Graph, v: Value)
    requires Closed(g) && Inside(g, v)
    ensures var r := Redact(g, v, {});
      && (forall id :: id in r.1 <==> Reached(g, v, id))
      && Expanded(r.0) == |r.1|
  {
    ExpandsOnce(g, v, {});
    SeenIsReached(g, v, {});
    SeenIsFollowed(g, v, {});
    var nodes := Redact(g, v, {}).1;
    forall id | Reached(g, v, id) ensures id in nodes {
      var steps: nat :| Leads(g, v.id, id, steps);
      LeadsInside(g, nodes, v.id, id, steps);
    }
  }
}
