/** What the redactor returns, compared with its input and with the simple recursion without `seen`. */
module RedactionOutput {
  import opened Text
  import opened Redaction
  import opened RedactionWalk

  // --- Shape and secrecy of the output ------------------------------------------------------

  /** Output t fits input v: an expanded node keeps its length and keys, its children fit in turn. */
  ghost predicate Fits(g: Graph, v: Value, t: Tree)
    requires Closed(g) && Inside(g, v)
    decreases t
  {
    if v.Buffer? then t == Leaf(Text("[REDACTED]"))
    else if !v.Ref? then t == Leaf(v)
    else if t == Leaf(Text("[Circular]")) then true
    else match (g[v.id], t)
      case (Array(items), List(trees)) =>
        |items| == |trees|
        && forall i :: 0 <= i < |trees| ==> Inside(g, Slots(g[v.id])[i].value) && Fits(g, items[i], trees[i])
      case (Object(entries), Record(fields)) =>
        |entries| == |fields|
        && forall i :: 0 <= i < |fields| ==>
          && fields[i].key == entries[i].key
          && Inside(g, Slots(g[v.id])[i].value)
          && if IsSensitiveKey(entries[i].key) then fields[i].tree == Leaf(Text("[REDACTED]"))
             else Fits(g, entries[i].value, fields[i].tree)
      case _ => false
  }

  lemma {:induction false} OutputFits(g: Graph, v: Value, seen: set<nat>)
    requires Closed(g) && Inside(g, v)
    ensures Fits(g, v, Redact(g, v, seen).0)
    decreases g.Keys - seen, 0
  {
    if v.Ref? && v.id !in seen {
      assert v.id in g.Keys - seen;
      AllFit(g, Slots(g[v.id]), seen + {v.id});
    }
  }

  lemma {:induction false} AllFit(g: Graph, slots: seq<Slot>, seen: set<nat>)
    requires Closed(g) && AllInside(g, slots)
    ensures var trees := RedactAll(g, slots, seen).0;
      forall i :: 0 <= i < |slots| ==>
        if slots[i].hidden then trees[i] == REDACTED else Fits(g, slots[i].value, trees[i])
    decreases g.Keys - seen, |slots|
  {
    if slots != [] {
      var last := |slots| - 1;
      AllFit(g, slots[..last], seen);
      var before := RedactAll(g, slots[..last], seen);
      if !slots[last].hidden {
        assert g.Keys - before.1 <= g.Keys - seen;
        OutputFits(g, slots[last].value, before.1);
      }
    }
  }

  /** No buffer and no reference anywhere, and nothing but the marker under a sensitive key. */
  predicate Clean(t: Tree) {
    match t
    case Leaf(value) => !value.Buffer? && !value.Ref?
    case List(items) => forall i :: 0 <= i < |items| ==> Clean(items[i])
    case Record(fields) =>
      forall i :: 0 <= i < |fields| ==>
        Clean(fields[i].tree) && (IsSensitiveKey(fields[i].key) ==> fields[i].tree == REDACTED)
  }

  lemma {:induction false} FittingIsClean(g: Graph, v: Value, t: Tree)
    requires Closed(g) && Inside(g, v) && Fits(g, v, t)
    ensures Clean(t)
    decreases t
  {
    match t {
      case Leaf(_) =>
      case List(items) =>
        forall i | 0 <= i < |items| ensures Clean(items[i]) {
          FittingIsClean(g, g[v.id].items[i], items[i]);
        }
      case Record(fields) =>
        forall i | 0 <= i < |fields| && !IsSensitiveKey(fields[i].key) ensures Clean(fields[i].tree) {
          FittingIsClean(g, g[v.id].entries[i].value, fields[i].tree);
        }
    }
  }

  /** The output of every call is clean. */
  lemma OutputIsClean(g: Graph, v: Value, seen: set<nat>)
    requires Closed(g) && Inside(g, v)
    ensures Clean(Redact(g, v, seen).0)
  {
    OutputFits(g, v, seen);
    FittingIsClean(g, v, Redact(g, v, seen).0);
  }

  // --- Against the recursion that remembers only the way down ----------------------------------

  /** The redactor with a `seen` of its own ancestors only: a marker stands exactly where a cycle closes. */
  ghost function OnPath(g: Graph, v: Value, path: set<nat>): Tree
    requires Closed(g) && Inside(g, v)
    decreases g.Keys - path, 0
  {
    if v.Buffer? then REDACTED
    else if !v.Ref? then Leaf(v)
    else if v.id in path then CIRCULAR
    else
      assert v.id in g.Keys - path;
      Rebuild(g[v.id], OnPathAll(g, Slots(g[v.id]), path + {v.id}))
  }

  ghost function OnPathAll(g: Graph, slots: seq<Slot>, path: set<nat>): (trees: seq<Tree>)
    requires Closed(g) && AllInside(g, slots)
    ensures |trees| == |slots|
    decreases g.Keys - path, 1 + |slots|
  {
    if slots == [] then []
    else
      var last := |slots| - 1;
      OnPathAll(g, slots[..last], path)
      + [if slots[last].hidden then REDACTED else OnPath(g, slots[last].value, path)]
  }

  /** The nodes that recursion comes to and expands, once for every time it does. */
  ghost function Comings(g: Graph, v: Value, path: set<nat>): seq<nat>
    requires Closed(g) && Inside(g, v)
    decreases g.Keys - path, 0
  {
    if v.Ref? && v.id !in path then
      assert v.id in g.Keys - path;
      [v.id] + AllComings(g, Slots(g[v.id]), path + {v.id})
    else []
  }

  ghost function AllComings(g: Graph, slots: seq<Slot>, path: set<nat>): seq<nat>
    requires Closed(g) && AllInside(g, slots)
    decreases g.Keys - path, 1 + |slots|
  {
    if slots == [] then []
    else
      var last := |slots| - 1;
      AllComings(g, slots[..last], path)
      + (if slots[last].hidden then [] else Comings(g, slots[last].value, path))
  }

  /** Visits that are all different, and different from what was seen before. */
  ghost predicate Fresh(visits: seq<nat>, seen: set<nat>) {
    && (forall i :: 0 <= i < |visits| ==> visits[i] !in seen)
    && (forall i, j :: 0 <= i < j < |visits| ==> visits[i] != visits[j])
  }

  function Ids(visits: seq<nat>): set<nat> {
    set i | 0 <= i < |visits| :: visits[i]
  }

  lemma FreshSum(a: seq<nat>, b: seq<nat>, seen: set<nat>)
    ensures Fresh(a + b, seen) <==> Fresh(a, seen) && Fresh(b, seen + Ids(a))
    ensures Ids(a + b) == Ids(a) + Ids(b)
  {
    var c := a + b;
    assert forall i :: 0 <= i < |a| ==> c[i] == a[i];
    assert forall i :: 0 <= i < |b| ==> c[|a| + i] == b[i];
    forall x ensures x in Ids(c) <==> x in Ids(a) + Ids(b) {
      if x in Ids(a) { var i :| 0 <= i < |a| && a[i] == x; assert c[i] == x; }
      if x in Ids(b) { var i :| 0 <= i < |b| && b[i] == x; assert c[|a| + i] == x; }
    }
    if Fresh(c, seen) {
      forall i | 0 <= i < |b| ensures b[i] !in seen + Ids(a) { assert c[|a| + i] == b[i]; }
      forall i, j | 0 <= i < j < |b| ensures b[i] != b[j] { assert c[|a| + i] == b[i] && c[|a| + j] == b[j]; }
    }
    if Fresh(a, seen) && Fresh(b, seen + Ids(a)) {
      forall i, j | 0 <= i < j < |c| ensures c[i] != c[j] {
        if i < |a| <= j { assert c[i] in Ids(a) && c[j] == b[j - |a|]; }
        else if |a| <= i { assert c[i] == b[i - |a|] && c[j] == b[j - |a|]; }
      }
      forall i | 0 <= i < |c| ensures c[i] !in seen {
        if i >= |a| { assert c[i] == b[i - |a|]; }
      }
    }
  }

  lemma SameRebuilt(n: Node, a: seq<Tree>, b: seq<Tree>)
    requires |a| == |b| == |Slots(n)|
    ensures Rebuild(n, a) == Rebuild(n, b) <==> a == b
  {
    if n.Object? && Rebuild(n, a) == Rebuild(n, b) {
      forall i | 0 <= i < |a| ensures a[i] == b[i] {
        assert Rebuild(n, a).fields[i].tree == a[i] && Rebuild(n, b).fields[i].tree == b[i];
      }
    }
  }

  lemma SameExtended(a: seq<Tree>, x: Tree, b: seq<Tree>, y: Tree)
    requires |a| == |b|
    ensures a + [x] == b + [y] <==> a == b && x == y
  {
    assert (a + [x])[..|a|] == a && (b + [y])[..|b|] == b;
    assert (a + [x])[|a|] == x && (b + [y])[|b|] == y;
  }

  lemma {:induction false} MarksIffFresh(g: Graph, v: Value, path: set<nat>, seen: set<nat>)
    requires Closed(g) && Inside(g, v) && path <= seen
    ensures var r := Redact(g, v, seen); var visits := Comings(g, v, path);
      && (r.0 == OnPath(g, v, path) <==> Fresh(visits, seen))
      && (Fresh(visits, seen) ==> r.1 == seen + Ids(visits))
    decreases g.Keys - path, 0
  {
    if v.Ref? && v.id !in path {
      var slots := Slots(g[v.id]);
      assert v.id in g.Keys - path;
      var rest := AllComings(g, slots, path + {v.id});
      FreshSum([v.id], rest, seen);
      assert Ids([v.id]) == {v.id} by { assert [v.id][0] == v.id; }
      if v.id in seen {
        assert !Fresh([v.id], seen) by { assert [v.id][0] in seen; }
      } else {
        AllMarkIffFresh(g, slots, path + {v.id}, seen + {v.id});
        SameRebuilt(g[v.id], RedactAll(g, slots, seen + {v.id}).0, OnPathAll(g, slots, path + {v.id}));
      }
    }
  }

  lemma {:induction false} AllMarkIffFresh(g: Graph, slots: seq<Slot>, path: set<nat>, seen: set<nat>)
    requires Closed(g) && AllInside(g, slots) && path <= seen
    ensures var r := RedactAll(g, slots, seen); var visits := AllComings(g, slots, path);
      && (r.0 == OnPathAll(g, slots, path) <==> Fresh(visits, seen))
      && (Fresh(visits, seen) ==> r.1 == seen + Ids(visits))
    decreases g.Keys - path, 1 + |slots|
  {
    if slots != [] {
      var last := |slots| - 1;
      var before := RedactAll(g, slots[..last], seen);
      var visits, marked := AllComings(g, slots[..last], path), OnPathAll(g, slots[..last], path);
      AllMarkIffFresh(g, slots[..last], path, seen);
      if slots[last].hidden {
        assert visits + [] == visits;
        SameExtended(before.0, REDACTED, marked, REDACTED);
      } else {
        var value := slots[last].value;
        var r, more := Redact(g, value, before.1), Comings(g, value, path);
        MarksIffFresh(g, value, path, before.1);
        FreshSum(visits, more, seen);
        SameExtended(before.0, r.0, marked, OnPath(g, value, path));
        if Fresh(visits, seen) {
          assert before.1 == seen + Ids(visits);
          assert seen + Ids(visits) + Ids(more) == seen + Ids(visits + more);
        }
      }
    }
  }

  /**
   On every graph the markers stand exactly where cycles close if and only if the walk that knows only
   its own ancestors never expands the same node twice: sharing alone puts a marker where there is none.
   */
  lemma MarksCyclesIffUnshared(g: Graph, v: Value)
    requires Closed(g) && Inside(g, v)
    ensures Redact(g, v, {}).0 == OnPath(g, v, {}) <==> Fresh(Comings(g, v, {}), {})
  {
    MarksIffFresh(g, v, {}, {});
  }

  // --- Against the simple recursion -----------------------------------------------------------

  /**
   A rank for some nodes and all that the redactor can come to from them, which decreases along every
   edge it follows: what it follows has no cycle. Nodes elsewhere have no rank and may be on cycles.
   */
  ghost predicate Ranked(g: Graph, rank: map<nat, nat>) {
    forall id :: id in rank ==> id in g && BelowRank(Slots(g[id]), rank, rank[id])
  }

  predicate Within(v: Value, rank: map<nat, nat>) {
    v.Ref? ==> v.id in rank
  }

  function Height(v: Value, rank: map<nat, nat>): nat {
    if v.Ref? && v.id in rank then rank[v.id] + 1 else 0
  }

  ghost predicate BelowRank(slots: seq<Slot>, rank: map<nat, nat>, bound: nat) {
    forall i :: 0 <= i < |slots| && !slots[i].hidden ==>
      Within(slots[i].value, rank) && Height(slots[i].value, rank) <= bound
  }

  /** The redactor without `seen`. */
  ghost function Plain(g: Graph, v: Value, rank: map<nat, nat>): Tree
    requires Closed(g) && Ranked(g, rank) && Inside(g, v) && Within(v, rank)
    decreases Height(v, rank), 0
  {
    if v.Buffer? then REDACTED
    else if !v.Ref? then Leaf(v)
    else Rebuild(g[v.id], PlainAll(g, Slots(g[v.id]), rank, rank[v.id]))
  }

  ghost function PlainAll(g: Graph, slots: seq<Slot>, rank: map<nat, nat>, bound: nat): (trees: seq<Tree>)
    requires Closed(g) && Ranked(g, rank) && AllInside(g, slots) && BelowRank(slots, rank, bound)
    ensures |trees| == |slots|
    decreases bound, |slots|
  {
    if slots == [] then []
    else
      var last := |slots| - 1;
      PlainAll(g, slots[..last], rank, bound)
      + [if slots[last].hidden then REDACTED else Plain(g, slots[last].value, rank)]
  }

  /** The nodes the simple recursion comes to, once for every time it comes to them. */
  ghost function Visits(g: Graph, v: Value, rank: map<nat, nat>): seq<nat>
    requires Closed(g) && Ranked(g, rank) && Inside(g, v) && Within(v, rank)
    decreases Height(v, rank), 0
  {
    if v.Ref? then [v.id] + AllVisits(g, Slots(g[v.id]), rank, rank[v.id]) else []
  }

  ghost function AllVisits(g: Graph, slots: seq<Slot>, rank: map<nat, nat>, bound: nat): seq<nat>
    requires Closed(g) && Ranked(g, rank) && AllInside(g, slots) && BelowRank(slots, rank, bound)
    decreases bound, |slots|
  {
    if slots == [] then []
    else
      var last := |slots| - 1;
      AllVisits(g, slots[..last], rank, bound)
      + (if slots[last].hidden then [] else Visits(g, slots[last].value, rank))
  }

  /** Nodes above the value: without a cycle none of them is come to again. */
  ghost predicate Above(path: set<nat>, rank: map<nat, nat>, height: nat) {
    forall id :: id in path ==> id in rank && height <= rank[id]
  }

  lemma {:induction false} OnPathIsPlain(g: Graph, v: Value, rank: map<nat, nat>, path: set<nat>)
    requires Closed(g) && Ranked(g, rank) && Inside(g, v) && Within(v, rank) && Above(path, rank, Height(v, rank))
    ensures OnPath(g, v, path) == Plain(g, v, rank) && Comings(g, v, path) == Visits(g, v, rank)
    decreases Height(v, rank), 0
  {
    if v.Ref? {
      AllOnPathIsPlain(g, Slots(g[v.id]), rank, rank[v.id], path + {v.id});
    }
  }

  lemma {:induction false} AllOnPathIsPlain(g: Graph, slots: seq<Slot>, rank: map<nat, nat>, bound: nat, path: set<nat>)
    requires Closed(g) && Ranked(g, rank) && AllInside(g, slots) && BelowRank(slots, rank, bound)
    requires Above(path, rank, bound)
    ensures OnPathAll(g, slots, path) == PlainAll(g, slots, rank, bound)
    ensures AllComings(g, slots, path) == AllVisits(g, slots, rank, bound)
    decreases bound, 1 + |slots|
  {
    if slots != [] {
      var last := |slots| - 1;
      AllOnPathIsPlain(g, slots[..last], rank, bound, path);
      if !slots[last].hidden { OnPathIsPlain(g, slots[last].value, rank, path); }
    }
  }

  /** For any rank, then, the redactor is the simple recursion if and only if that meets no node twice. */
  lemma SameAsPlainIffFresh(g: Graph, v: Value, rank: map<nat, nat>)
    requires Closed(g) && Ranked(g, rank) && Inside(g, v) && Within(v, rank)
    ensures Redact(g, v, {}).0 == Plain(g, v, rank) <==> Fresh(Visits(g, v, rank), {})
  {
    OnPathIsPlain(g, v, rank, {});
    MarksCyclesIffUnshared(g, v);
  }

  // --- No cycle, no rank needed ----------------------------------------------------------------

  /** One or more steps lead from a to b. */
  ghost predicate LeadsOn(g: Graph, a: nat, b: nat) {
    exists steps: nat :: steps > 0 && Leads(g, a, b, steps)
  }

  /** No node that is reached from the value leads back to itself. */
  ghost predicate Acyclic(g: Graph, v: Value) {
    forall id :: Reached(g, v, id) ==> !LeadsOn(g, id, id)
  }

  ghost function Below(g: Graph, nodes: set<nat>, a: nat): set<nat> {
    set b | b in nodes && LeadsOn(g, a, b)
  }

  /** How many of the walked nodes lie below each of them. */
  ghost function RankOf(g: Graph, v: Value): map<nat, nat>
    requires Closed(g) && Inside(g, v)
  {
    var nodes := Redact(g, v, {}).1;
    map a | a in nodes :: |Below(g, nodes, a)|
  }

  lemma EdgeLeads(g: Graph, a: nat, b: nat)
    requires Edge(g, a, b)
    ensures LeadsOn(g, a, b) && forall c :: LeadsOn(g, b, c) ==> LeadsOn(g, a, c)
  {
    assert Leads(g, b, b, 0) && Leads(g, a, b, 1);
    forall c | LeadsOn(g, b, c) ensures LeadsOn(g, a, c) {
      var steps: nat :| steps > 0 && Leads(g, b, c, steps);
      assert Leads(g, a, c, steps + 1);
    }
  }

  lemma EdgeGoesDown(g: Graph, nodes: set<nat>, a: nat, b: nat)
    requires Edge(g, a, b) && b in nodes && !LeadsOn(g, b, b)
    ensures |Below(g, nodes, b)| + 1 <= |Below(g, nodes, a)|
  {
    EdgeLeads(g, a, b);
    assert Below(g, nodes, b) + {b} <= Below(g, nodes, a);
    SubsetSize(Below(g, nodes, b) + {b}, Below(g, nodes, a));
  }

  lemma AcyclicIsRanked(g: Graph, v: Value)
    requires Closed(g) && Inside(g, v) && Acyclic(g, v)
    ensures Ranked(g, RankOf(g, v)) && Within(v, RankOf(g, v))
  {
    var nodes, rank := Redact(g, v, {}).1, RankOf(g, v);
    WalksTheReached(g, v);
    ExpandsOnce(g, v, {});
    SeenIsFollowed(g, v, {});
    forall id | id in rank ensures id in g && BelowRank(Slots(g[id]), rank, rank[id]) {
      var slots := Slots(g[id]);
      forall i | 0 <= i < |slots| && !slots[i].hidden
        ensures Within(slots[i].value, rank) && Height(slots[i].value, rank) <= rank[id]
      {
        if slots[i].value.Ref? {
          var b := slots[i].value.id;
          assert slots[i] == Slot(false, Ref(b));
          assert Edge(g, id, b);
          EdgeGoesDown(g, nodes, id, b);
        }
      }
    }
  }

  ghost predicate Descends(g: Graph, rank: map<nat, nat>) {
    forall a, b :: a in rank && Edge(g, a, b) ==> b in rank && rank[b] < rank[a]
  }

  lemma RankDescends(g: Graph, rank: map<nat, nat>)
    requires Ranked(g, rank)
    ensures Descends(g, rank)
  {
    forall a, b | a in rank && Edge(g, a, b) ensures b in rank && rank[b] < rank[a] {
      assert BelowRank(Slots(g[a]), rank, rank[a]);
      var i :| 0 <= i < |Slots(g[a])| && Slots(g[a])[i] == Slot(false, Ref(b));
      assert Within(Slots(g[a])[i].value, rank) && Height(Slots(g[a])[i].value, rank) <= rank[a];
    }
  }

  lemma {:induction false} LeadsDown(g: Graph, rank: map<nat, nat>, a: nat, b: nat, steps: nat)
    requires Descends(g, rank) && a in rank && Leads(g, a, b, steps)
    ensures b in rank && rank[b] + steps <= rank[a]
    decreases steps
  {
    if steps > 0 {
      var c: nat :| Edge(g, a, c) && Leads(g, c, b, steps - 1);
      LeadsDown(g, rank, c, b, steps - 1);
    }
  }

  /** A rank exists exactly when no cycle is reached. */
  lemma RankedIsAcyclic(g: Graph, v: Value, rank: map<nat, nat>)
    requires Closed(g) && Inside(g, v) && Ranked(g, rank) && Within(v, rank)
    ensures Acyclic(g, v)
  {
    RankDescends(g, rank);
    forall id | Reached(g, v, id) ensures !LeadsOn(g, id, id) {
      var steps: nat :| Leads(g, v.id, id, steps);
      LeadsDown(g, rank, v.id, id, steps);
      forall more: nat | more > 0 ensures !Leads(g, id, id, more) {
        if Leads(g, id, id, more) { LeadsDown(g, rank, id, id, more); }
      }
    }
  }

  /**
   When no cycle is reached, the redactor returns what the simple recursion without `seen` returns if and
   only if that recursion never comes to the same node twice.
   */
  lemma SameAsPlainIffTree(g: Graph, v: Value)
    requires Closed(g) && Inside(g, v) && Acyclic(g, v)
    ensures Ranked(g, RankOf(g, v)) && Within(v, RankOf(g, v))
    ensures Redact(g, v, {}).0 == Plain(g, v, RankOf(g, v)) <==> Fresh(Visits(g, v, RankOf(g, v)), {})
  {
    AcyclicIsRanked(g, v);
    SameAsPlainIffFresh(g, v, RankOf(g, v));
  }

  /** The smallest graph that is shared and has no cycle: a list that holds the same empty list twice. */
  const SHARED: Graph := map[0 := Array([Ref(1), Ref(1)]), 1 := Array([])]

  lemma SharingIsCalledCircular()
    ensures Closed(SHARED) && Inside(SHARED, Ref(0)) && Acyclic(SHARED, Ref(0))
    ensures Redact(SHARED, Ref(0), {}).0 == List([List([]), CIRCULAR])
  {
    var g := SHARED;
    var slots := Slots(g[0]);
    assert slots == [Slot(false, Ref(1)), Slot(false, Ref(1))] && Slots(g[1]) == [];
    RankedIsAcyclic(g, Ref(0), map[0 := 1, 1 := 0]);
    assert Redact(g, Ref(1), {0}) == (List([]), {0, 1}) by { assert {0} + {1} == {0, 1}; }
    assert slots[..0] == [] && slots[..2] == slots;
    RedactNext(g, slots, 0, {0});
    RedactNext(g, slots, 1, {0});
    assert {} + {0} == {0};
  }

  /** The same with a cycle besides: of two markers in the output only the second one closes a cycle. */
  const SHARED_AND_CYCLIC: Graph := map[0 := Array([Ref(1), Ref(1), Ref(0)]), 1 := Array([])]

  lemma {:induction false} OnPathAt(g: Graph, slots: seq<Slot>, path: set<nat>, i: nat)
    requires Closed(g) && AllInside(g, slots) && i < |slots|
    ensures OnPathAll(g, slots, path)[i]
            == if slots[i].hidden then REDACTED else OnPath(g, slots[i].value, path)
  {
    if i < |slots| - 1 { OnPathAt(g, slots[..|slots| - 1], path, i); }
  }

  lemma OneMarkerIsFalse()
    ensures Closed(SHARED_AND_CYCLIC) && Inside(SHARED_AND_CYCLIC, Ref(0))
    ensures Redact(SHARED_AND_CYCLIC, Ref(0), {}).0 == List([List([]), CIRCULAR, CIRCULAR])
    ensures OnPath(SHARED_AND_CYCLIC, Ref(0), {}) == List([List([]), List([]), CIRCULAR])
  {
    var g := SHARED_AND_CYCLIC;
    var slots := Slots(g[0]);
    assert slots == [Slot(false, Ref(1)), Slot(false, Ref(1)), Slot(false, Ref(0))] && Slots(g[1]) == [];
    assert Redact(g, Ref(1), {0}) == (List([]), {0, 1}) by { assert {0} + {1} == {0, 1}; }
    assert slots[..0] == [] && slots[..3] == slots;
    RedactNext(g, slots, 0, {0});
    RedactNext(g, slots, 1, {0});
    RedactNext(g, slots, 2, {0});
    assert {} + {0} == {0};
    OnPathAt(g, slots, {0}, 0);
    OnPathAt(g, slots, {0}, 1);
    OnPathAt(g, slots, {0}, 2);
    assert OnPath(g, Ref(1), {0}) == List([]);
  }

  // --- Redacting again ------------------------------------------------------------------------

  /** Value v of the graph spells out tree t. */
  ghost predicate Spells(g: Graph, v: Value, t: Tree)
    requires Closed(g) && Inside(g, v)
    decreases t
  {
    match t
    case Leaf(value) => v == value && !v.Ref?
    case List(trees) =>
      v.Ref? && g[v.id].Array? && |g[v.id].items| == |trees|
      && forall i :: 0 <= i < |trees| ==>
        Inside(g, Slots(g[v.id])[i].value) && Spells(g, g[v.id].items[i], trees[i])
    case Record(fields) =>
      v.Ref? && g[v.id].Object? && |g[v.id].entries| == |fields|
      && forall i :: 0 <= i < |fields| ==>
        && g[v.id].entries[i].key == fields[i].key
        && Inside(g, Slots(g[v.id])[i].value) && Spells(g, g[v.id].entries[i].value, fields[i].tree)
  }

  lemma {:induction false} PlainKeepsClean(g: Graph, v: Value, rank: map<nat, nat>, t: Tree)
    requires Closed(g) && Ranked(g, rank) && Inside(g, v) && Within(v, rank) && Spells(g, v, t) && Clean(t)
    ensures Plain(g, v, rank) == t
    decreases t
  {
    match t {
      case Leaf(_) =>
      case List(trees) =>
        var slots := Slots(g[v.id]);
        forall i | 0 <= i < |trees| ensures Plain(g, slots[i].value, rank) == trees[i] {
          PlainKeepsClean(g, g[v.id].items[i], rank, trees[i]);
        }
        PlainPointwise(g, slots, rank, rank[v.id], trees);
      case Record(fields) =>
        var slots := Slots(g[v.id]);
        var trees := seq(|fields|, i requires 0 <= i < |fields| => fields[i].tree);
        forall i | 0 <= i < |trees| && !slots[i].hidden ensures Plain(g, slots[i].value, rank) == trees[i] {
          PlainKeepsClean(g, g[v.id].entries[i].value, rank, fields[i].tree);
        }
        PlainPointwise(g, slots, rank, rank[v.id], trees);
        assert Rebuild(g[v.id], trees).fields == fields;
    }
  }

  lemma {:induction false} PlainPointwise(g: Graph, slots: seq<Slot>, rank: map<nat, nat>, bound: nat, trees: seq<Tree>)
    requires Closed(g) && Ranked(g, rank) && AllInside(g, slots) && BelowRank(slots, rank, bound)
    requires |trees| == |slots|
    requires forall i :: 0 <= i < |slots| ==>
               if slots[i].hidden then trees[i] == REDACTED else Plain(g, slots[i].value, rank) == trees[i]
    ensures PlainAll(g, slots, rank, bound) == trees
    decreases slots
  {
    if slots != [] {
      var last := |slots| - 1;
      PlainPointwise(g, slots[..last], rank, bound, trees[..last]);
      assert trees == trees[..last] + [trees[last]];
    }
  }

  /** However the output of a call is laid out again as a tree, a second call returns it unchanged. */
  lemma RedactingAnyLayout(g: Graph, v: Value, seen: set<nat>, g2: Graph, v2: Value, rank2: map<nat, nat>)
    requires Closed(g) && Inside(g, v)
    requires Closed(g2) && Inside(g2, v2) && Ranked(g2, rank2) && Within(v2, rank2)
    requires Spells(g2, v2, Redact(g, v, seen).0) && Fresh(Visits(g2, v2, rank2), {})
    ensures Redact(g2, v2, {}).0 == Redact(g, v, seen).0
  {
    OutputIsClean(g, v, seen);
    PlainKeepsClean(g2, v2, rank2, Redact(g, v, seen).0);
    SameAsPlainIffFresh(g2, v2, rank2);
  }
}
