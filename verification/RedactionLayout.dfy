/** Every output of the redactor can be laid out as a graph again, and redacting that changes nothing. */
module RedactionLayout {
  import opened Redaction
  import opened RedactionWalk
  import opened RedactionOutput

  // --- Laying a tree out ------------------------------------------------------------------------

  function Kids(t: Tree): seq<Tree> {
    match t
    case Leaf(_) => []
    case List(items) => items
    case Record(fields) => seq(|fields|, i requires 0 <= i < |fields| => fields[i].tree)
  }

  lemma ExpandedKids(t: Tree)
    ensures Expanded(t) == if t.Leaf? then 0 else 1 + ExpandedIn(Kids(t))
  {
    if t.Record? { ExpandedFields(t.fields, Kids(t)); }
  }

  /** The value that stands for a tree whose nodes are numbered from lo on, itself last. */
  function Place(t: Tree, lo: nat): Value {
    if t.Leaf? then t.value
    else
      ExpandedKids(t);
      Ref(lo + Expanded(t) - 1)
  }

  function Places(trees: seq<Tree>, lo: nat): (values: seq<Value>)
    ensures |values| == |trees|
  {
    if trees == [] then []
    else
      var last := |trees| - 1;
      Places(trees[..last], lo) + [Place(trees[last], lo + ExpandedIn(trees[..last]))]
  }

  function NodeFor(t: Tree, values: seq<Value>): Node
    requires !t.Leaf? && |values| == |Kids(t)|
  {
    match t
    case List(_) => Array(values)
    case Record(fields) => Object(seq(|fields|, i requires 0 <= i < |fields| => Entry(fields[i].key, values[i])))
  }

  predicate Between(lo: nat, hi: nat, id: nat) {
    lo <= id < hi
  }

  /** Node number id of a tree whose nodes are numbered from lo on, children before their parent. */
  function NodeAt(t: Tree, lo: nat, id: nat): Node
    requires Between(lo, lo + Expanded(t), id)
    decreases Expanded(t), 0
  {
    ExpandedKids(t);
    if id == lo + ExpandedIn(Kids(t)) then NodeFor(t, Places(Kids(t), lo)) else NodeAtAll(Kids(t), lo, id)
  }

  function NodeAtAll(trees: seq<Tree>, lo: nat, id: nat): Node
    requires Between(lo, lo + ExpandedIn(trees), id)
    decreases ExpandedIn(trees), 1 + |trees|
  {
    var last := |trees| - 1;
    var mid := lo + ExpandedIn(trees[..last]);
    if id >= mid then NodeAt(trees[last], mid, id) else NodeAtAll(trees[..last], lo, id)
  }

  /** The graph of a tree. */
  function LayOut(t: Tree): Graph {
    map id: nat | 0 <= id < Expanded(t) :: NodeAt(t, 0, id)
  }

  /** Tree t sits in g with its nodes numbered from lo on. */
  predicate LaidOut(g: Graph, t: Tree, lo: nat)
    decreases Expanded(t), 0
  {
    ExpandedKids(t);
    t.Leaf? ||
    var id := lo + ExpandedIn(Kids(t));
    id in g && g[id] == NodeFor(t, Places(Kids(t), lo)) && AllLaidOut(g, Kids(t), lo)
  }

  predicate AllLaidOut(g: Graph, trees: seq<Tree>, lo: nat)
    decreases ExpandedIn(trees), 1 + |trees|
  {
    trees == [] ||
    var last := |trees| - 1;
    AllLaidOut(g, trees[..last], lo) && LaidOut(g, trees[last], lo + ExpandedIn(trees[..last]))
  }

  lemma {:induction false} NodesLaidOut(g: Graph, t: Tree, lo: nat)
    requires forall id :: Between(lo, lo + Expanded(t), id) ==> id in g && g[id] == NodeAt(t, lo, id)
    ensures LaidOut(g, t, lo)
    decreases Expanded(t), 0
  {
    ExpandedKids(t);
    if !t.Leaf? {
      var kids, hi := Kids(t), lo + ExpandedIn(Kids(t));
      assert Between(lo, hi + 1, hi);
      forall id | Between(lo, hi, id) ensures id in g && g[id] == NodeAtAll(kids, lo, id) {
        assert Between(lo, hi + 1, id);
      }
      AllNodesLaidOut(g, kids, lo);
    }
  }

  lemma {:induction false} AllNodesLaidOut(g: Graph, trees: seq<Tree>, lo: nat)
    requires forall id :: Between(lo, lo + ExpandedIn(trees), id) ==> id in g && g[id] == NodeAtAll(trees, lo, id)
    ensures AllLaidOut(g, trees, lo)
    decreases ExpandedIn(trees), 1 + |trees|
  {
    if trees != [] {
      var last := |trees| - 1;
      var mid, hi := lo + ExpandedIn(trees[..last]), lo + ExpandedIn(trees);
      forall id | Between(lo, mid, id) ensures id in g && g[id] == NodeAtAll(trees[..last], lo, id) {
        assert Between(lo, hi, id);
      }
      forall id | Between(mid, hi, id) ensures id in g && g[id] == NodeAt(trees[last], mid, id) {
        assert Between(lo, hi, id);
      }
      AllNodesLaidOut(g, trees[..last], lo);
      NodesLaidOut(g, trees[last], mid);
    }
  }

  lemma LayOutIsLaidOut(t: Tree)
    ensures LaidOut(LayOut(t), t, 0)
  {
    forall id | Between(0, 0 + Expanded(t), id) ensures id in LayOut(t) && LayOut(t)[id] == NodeAt(t, 0, id) {
    }
    NodesLaidOut(LayOut(t), t, 0);
  }

  lemma CleanKids(t: Tree)
    requires Clean(t)
    ensures forall i :: 0 <= i < |Kids(t)| ==> Clean(Kids(t)[i])
  {
  }

  lemma PlaceInside(g: Graph, t: Tree, lo: nat)
    requires Clean(t) && LaidOut(g, t, lo)
    ensures Inside(g, Place(t, lo))
  {
    ExpandedKids(t);
  }

  lemma {:induction false} PlacesAt(trees: seq<Tree>, lo: nat, i: nat)
    requires i < |trees|
    ensures Places(trees, lo)[i] == Place(trees[i], lo + ExpandedIn(trees[..i]))
  {
    var last := |trees| - 1;
    if i < last {
      PlacesAt(trees[..last], lo, i);
      assert trees[..last][..i] == trees[..i];
    }
  }

  lemma {:induction false} EachLaidOut(g: Graph, trees: seq<Tree>, lo: nat, i: nat)
    requires i < |trees| && AllLaidOut(g, trees, lo)
    ensures LaidOut(g, trees[i], lo + ExpandedIn(trees[..i]))
  {
    var last := |trees| - 1;
    if i < last {
      EachLaidOut(g, trees[..last], lo, i);
      assert trees[..last][..i] == trees[..i];
    }
  }

  ghost predicate Apart(nodes: set<nat>, lo: nat, hi: nat) {
    forall id :: id in nodes ==> !Between(lo, hi, id)
  }

  ghost predicate GrownBetween(before: set<nat>, after: set<nat>, lo: nat, hi: nat) {
    forall id :: id in after ==> id in before || Between(lo, hi, id)
  }

  /** The slots hold the places of the trees; a hidden one holds the marker. */
  predicate Hold(slots: seq<Slot>, trees: seq<Tree>, lo: nat)
    requires |slots| == |trees|
  {
    trees == [] ||
    var last := |trees| - 1;
    && Hold(slots[..last], trees[..last], lo)
    && Clean(trees[last]) && slots[last].value == Place(trees[last], lo + ExpandedIn(trees[..last]))
    && (slots[last].hidden ==> trees[last] == REDACTED)
  }

  lemma {:induction false} HoldEach(slots: seq<Slot>, trees: seq<Tree>, lo: nat)
    requires |slots| == |trees|
    requires forall i :: 0 <= i < |trees| ==>
               && Clean(trees[i]) && slots[i].value == Places(trees, lo)[i]
               && (slots[i].hidden ==> trees[i] == REDACTED)
    ensures Hold(slots, trees, lo)
  {
    if trees != [] {
      var last := |trees| - 1;
      assert forall i :: 0 <= i < last ==> Places(trees[..last], lo)[i] == Places(trees, lo)[i];
      HoldEach(slots[..last], trees[..last], lo);
    }
  }

  lemma KidsHold(t: Tree, lo: nat)
    requires !t.Leaf? && Clean(t)
    ensures var slots := Slots(NodeFor(t, Places(Kids(t), lo)));
            |slots| == |Kids(t)| && Hold(slots, Kids(t), lo)
  {
    HoldEach(Slots(NodeFor(t, Places(Kids(t), lo))), Kids(t), lo);
  }

  lemma RebuiltKids(t: Tree, values: seq<Value>)
    requires !t.Leaf? && |values| == |Kids(t)|
    ensures |Slots(NodeFor(t, values))| == |Kids(t)| && Rebuild(NodeFor(t, values), Kids(t)) == t
  {
    if t.Record? {
      assert Rebuild(NodeFor(t, values), Kids(t)).fields == t.fields;
    }
  }

  /** A clean tree that is laid out in a graph redacts to itself, if none of its nodes were seen. */
  lemma {:induction false} RedactsToItself(g: Graph, t: Tree, lo: nat, seen: set<nat>)
    requires Closed(g) && Clean(t) && LaidOut(g, t, lo) && Apart(seen, lo, lo + Expanded(t))
    ensures Inside(g, Place(t, lo))
    ensures var r := Redact(g, Place(t, lo), seen);
            r.0 == t && GrownBetween(seen, r.1, lo, lo + Expanded(t))
    decreases Expanded(t), 1
  {
    if !t.Leaf? {
      RootFacts(g, t, lo);
      RootRedacts(g, t, Kids(t), lo, lo + ExpandedIn(Kids(t)), seen);
    }
  }

  lemma {:induction false} RootRedacts(g: Graph, t: Tree, kids: seq<Tree>, lo: nat, id: nat, seen: set<nat>)
    requires Closed(g) && id in g && id == lo + ExpandedIn(kids) && AllLaidOut(g, kids, lo)
    requires |Slots(g[id])| == |kids| && Hold(Slots(g[id]), kids, lo) && Rebuild(g[id], kids) == t
    requires Apart(seen, lo, id + 1)
    ensures var r := Redact(g, Ref(id), seen);
            r.0 == t && GrownBetween(seen, r.1, lo, id + 1)
    decreases 1 + ExpandedIn(kids), 0
  {
    RootApart(seen, lo, id);
    RedactsRoot(g, id, seen);
    AllRedactToThemselves(g, Slots(g[id]), kids, lo, seen + {id});
    RootGrown(seen, RedactAll(g, Slots(g[id]), seen + {id}).1, lo, id);
  }

  lemma RedactsRoot(g: Graph, id: nat, seen: set<nat>)
    requires Closed(g) && id in g && id !in seen
    ensures AllInside(g, Slots(g[id]))
    ensures var r := RedactAll(g, Slots(g[id]), seen + {id});
            Redact(g, Ref(id), seen) == (Rebuild(g[id], r.0), r.1)
  {
  }

  lemma RootApart(seen: set<nat>, lo: nat, hi: nat)
    requires lo <= hi && Apart(seen, lo, hi + 1)
    ensures hi !in seen && Apart(seen + {hi}, lo, hi)
  {
    assert Between(lo, hi + 1, hi);
  }

  lemma RootGrown(seen: set<nat>, after: set<nat>, lo: nat, hi: nat)
    requires lo <= hi && GrownBetween(seen + {hi}, after, lo, hi)
    ensures GrownBetween(seen, after, lo, hi + 1)
  {
    assert Between(lo, hi + 1, hi);
  }

  lemma RootOf(g: Graph, t: Tree, lo: nat)
    requires !t.Leaf? && LaidOut(g, t, lo)
    ensures var kids, id := Kids(t), lo + ExpandedIn(Kids(t));
      && Expanded(t) == 1 + ExpandedIn(kids) && Place(t, lo) == Ref(id)
      && id in g && g[id] == NodeFor(t, Places(kids, lo)) && AllLaidOut(g, kids, lo)
  {
    ExpandedKids(t);
  }

  lemma RootFacts(g: Graph, t: Tree, lo: nat)
    requires !t.Leaf? && Clean(t) && LaidOut(g, t, lo)
    ensures var kids, id := Kids(t), lo + ExpandedIn(Kids(t));
      && Expanded(t) == 1 + ExpandedIn(kids) && Place(t, lo) == Ref(id) && id in g && AllLaidOut(g, kids, lo)
      && |Slots(g[id])| == |kids| && Hold(Slots(g[id]), kids, lo) && Rebuild(g[id], kids) == t
  {
    RootOf(g, t, lo);
    KidsHold(t, lo);
    RebuiltKids(t, Places(Kids(t), lo));
  }

  lemma RedactsLast(g: Graph, slots: seq<Slot>, seen: set<nat>)
    requires Closed(g) && AllInside(g, slots) && slots != []
    ensures var last := |slots| - 1;
      AllInside(g, slots[..last]) && Inside(g, slots[last].value)
      && var before := RedactAll(g, slots[..last], seen);
         var r := RedactSlot(g, slots[last], before.1);
         RedactAll(g, slots, seen) == (before.0 + [r.0], r.1)
  {
  }

  lemma StaysApart(seen: set<nat>, after: set<nat>, lo: nat, mid: nat, hi: nat)
    requires lo <= mid <= hi && Apart(seen, lo, hi) && GrownBetween(seen, after, lo, mid)
    ensures Apart(seen, lo, mid) && Apart(after, mid, hi)
  {
  }

  lemma GrowsOn(a: set<nat>, b: set<nat>, c: set<nat>, lo: nat, mid: nat, hi: nat)
    requires lo <= mid <= hi && GrownBetween(a, b, lo, mid) && GrownBetween(b, c, mid, hi)
    ensures GrownBetween(a, c, lo, hi)
  {
  }

  ghost function RedactSlot(g: Graph, slot: Slot, seen: set<nat>): (Tree, set<nat>)
    requires Closed(g) && Inside(g, slot.value)
  {
    if slot.hidden then (REDACTED, seen) else Redact(g, slot.value, seen)
  }

  lemma {:induction false} SlotRedacts(g: Graph, slot: Slot, t: Tree, lo: nat, seen: set<nat>)
    requires Closed(g) && Clean(t) && LaidOut(g, t, lo) && Apart(seen, lo, lo + Expanded(t))
    requires slot.value == Place(t, lo) && (slot.hidden ==> t == REDACTED)
    ensures Inside(g, slot.value)
    ensures var r := RedactSlot(g, slot, seen);
            r.0 == t && GrownBetween(seen, r.1, lo, lo + Expanded(t))
    decreases Expanded(t), 2
  {
    RedactsToItself(g, t, lo, seen);
  }

  lemma {:induction false} AllRedactToThemselves(g: Graph, slots: seq<Slot>, trees: seq<Tree>, lo: nat, seen: set<nat>)
    requires Closed(g) && AllInside(g, slots) && AllLaidOut(g, trees, lo) && |slots| == |trees|
    requires Hold(slots, trees, lo) && Apart(seen, lo, lo + ExpandedIn(trees))
    ensures var r := RedactAll(g, slots, seen);
            r.0 == trees && GrownBetween(seen, r.1, lo, lo + ExpandedIn(trees))
    decreases ExpandedIn(trees), 4 + |trees|
  {
    if trees != [] {
      var last := |trees| - 1;
      RedactsLast(g, slots, seen);
      StaysApart(seen, seen, lo, lo + ExpandedIn(trees[..last]), lo + ExpandedIn(trees));
      AllRedactToThemselves(g, slots[..last], trees[..last], lo, seen);
      LastRedacts(g, slots[last], trees, lo, seen, RedactAll(g, slots[..last], seen));
    }
  }

  /** The last of some trees, after the others. */
  lemma {:induction false} LastRedacts(g: Graph, slot: Slot, trees: seq<Tree>, lo: nat, seen: set<nat>,
                                       before: (seq<Tree>, set<nat>))
    requires Closed(g) && trees != [] && AllLaidOut(g, trees, lo) && Apart(seen, lo, lo + ExpandedIn(trees))
    requires var last := |trees| - 1; var mid := lo + ExpandedIn(trees[..last]);
      && before.0 == trees[..last] && GrownBetween(seen, before.1, lo, mid)
      && Clean(trees[last]) && slot.value == Place(trees[last], mid) && (slot.hidden ==> trees[last] == REDACTED)
    ensures Inside(g, slot.value)
    ensures var r := RedactSlot(g, slot, before.1);
            before.0 + [r.0] == trees && GrownBetween(seen, r.1, lo, lo + ExpandedIn(trees))
    decreases ExpandedIn(trees), 3
  {
    var last := |trees| - 1;
    var mid, hi := lo + ExpandedIn(trees[..last]), lo + ExpandedIn(trees);
    StaysApart(seen, before.1, lo, mid, hi);
    SlotRedacts(g, slot, trees[last], mid, before.1);
    GrowsOn(seen, before.1, RedactSlot(g, slot, before.1).1, lo, mid, hi);
    assert trees == trees[..last] + [trees[last]];
  }

  /** A laid-out clean tree refers to nothing outside, and spells the tree. */
  lemma SlotOf(t: Tree, values: seq<Value>, i: nat)
    requires !t.Leaf? && |values| == |Kids(t)| && i < |values|
    ensures var slots := Slots(NodeFor(t, values)); |slots| == |values| && slots[i].value == values[i]
  {
  }

  lemma {:induction false} ExpandedAt(trees: seq<Tree>, i: nat)
    requires i < |trees|
    ensures Expanded(trees[i]) <= ExpandedIn(trees)
  {
    if i < |trees| - 1 { ExpandedAt(trees[..|trees| - 1], i); }
  }

  lemma SpellsByKids(g: Graph, id: nat, t: Tree, values: seq<Value>)
    requires Closed(g) && !t.Leaf? && |values| == |Kids(t)| && id in g && g[id] == NodeFor(t, values)
    requires forall i :: 0 <= i < |values| ==> Inside(g, values[i]) && Spells(g, values[i], Kids(t)[i])
    ensures Spells(g, Ref(id), t)
  {
    forall i | 0 <= i < |values| ensures Slots(g[id])[i].value == values[i] { SlotOf(t, values, i); }
  }

  lemma {:induction false} LaidOutSpells(g: Graph, t: Tree, lo: nat)
    requires Closed(g) && Clean(t) && LaidOut(g, t, lo)
    ensures Inside(g, Place(t, lo)) && Spells(g, Place(t, lo), t)
    decreases Expanded(t), 1
  {
    if !t.Leaf? {
      RootOf(g, t, lo);
      var values := Places(Kids(t), lo);
      forall i | 0 <= i < |values| ensures Inside(g, values[i]) && Spells(g, values[i], Kids(t)[i]) {
        KidSpells(g, t, lo, i);
      }
      SpellsByKids(g, lo + ExpandedIn(Kids(t)), t, values);
    }
  }

  lemma {:induction false} KidSpells(g: Graph, t: Tree, lo: nat, i: nat)
    requires Closed(g) && Clean(t) && !t.Leaf? && LaidOut(g, t, lo) && i < |Kids(t)|
    ensures var value := Places(Kids(t), lo)[i]; Inside(g, value) && Spells(g, value, Kids(t)[i])
    decreases Expanded(t), 0
  {
    var kids := Kids(t);
    RootOf(g, t, lo);
    CleanKids(t);
    PlacesAt(kids, lo, i);
    EachLaidOut(g, kids, lo, i);
    ExpandedAt(kids, i);
    LaidOutSpells(g, kids[i], lo + ExpandedIn(kids[..i]));
  }

  ghost predicate ClosedBetween(g: Graph, lo: nat, hi: nat) {
    forall id, i :: Between(lo, hi, id) && id in g && 0 <= i < |Slots(g[id])| ==> Inside(g, Slots(g[id])[i].value)
  }

  lemma PlacesInside(g: Graph, trees: seq<Tree>, lo: nat)
    requires (forall i :: 0 <= i < |trees| ==> Clean(trees[i])) && AllLaidOut(g, trees, lo)
    ensures forall i :: 0 <= i < |trees| ==> Inside(g, Places(trees, lo)[i])
  {
    forall i | 0 <= i < |trees| ensures Inside(g, Places(trees, lo)[i]) {
      PlacesAt(trees, lo, i);
      EachLaidOut(g, trees, lo, i);
      PlaceInside(g, trees[i], lo + ExpandedIn(trees[..i]));
    }
  }

  lemma RootClosed(g: Graph, t: Tree, lo: nat)
    requires !t.Leaf? && Clean(t) && LaidOut(g, t, lo)
    ensures var id := lo + ExpandedIn(Kids(t));
            id in g && forall i :: 0 <= i < |Slots(g[id])| ==> Inside(g, Slots(g[id])[i].value)
  {
    RootOf(g, t, lo);
    CleanKids(t);
    PlacesInside(g, Kids(t), lo);
    var values := Places(Kids(t), lo);
    forall i | 0 <= i < |values| ensures Slots(NodeFor(t, values))[i].value == values[i] { SlotOf(t, values, i); }
  }

  lemma {:induction false} LaidOutClosed(g: Graph, t: Tree, lo: nat)
    requires Clean(t) && LaidOut(g, t, lo)
    ensures ClosedBetween(g, lo, lo + Expanded(t))
    decreases Expanded(t), 0
  {
    if !t.Leaf? {
      RootOf(g, t, lo);
      CleanKids(t);
      AllLaidOutClosed(g, Kids(t), lo);
      RootClosed(g, t, lo);
      var hi := lo + ExpandedIn(Kids(t));
      assert forall id :: Between(lo, hi + 1, id) ==> id == hi || Between(lo, hi, id);
    }
  }

  lemma {:induction false} AllLaidOutClosed(g: Graph, trees: seq<Tree>, lo: nat)
    requires (forall i :: 0 <= i < |trees| ==> Clean(trees[i])) && AllLaidOut(g, trees, lo)
    ensures ClosedBetween(g, lo, lo + ExpandedIn(trees))
    decreases ExpandedIn(trees), 1 + |trees|
  {
    if trees != [] {
      var last := |trees| - 1;
      AllLaidOutClosed(g, trees[..last], lo);
      LaidOutClosed(g, trees[last], lo + ExpandedIn(trees[..last]));
    }
  }

  /** The output of any call, laid out as a graph again, is returned unchanged by a second call. */
  lemma RedactingAgain(g: Graph, v: Value, seen: set<nat>)
    requires Closed(g) && Inside(g, v)
    ensures var t := Redact(g, v, seen).0; var g2, v2 := LayOut(t), Place(t, 0);
      && Closed(g2) && Inside(g2, v2) && Spells(g2, v2, t)
      && Redact(g2, v2, {}).0 == t
  {
    var t := Redact(g, v, seen).0;
    var g2 := LayOut(t);
    OutputIsClean(g, v, seen);
    LayOutIsLaidOut(t);
    LaidOutClosed(g2, t, 0);
    assert forall id :: id in g2 ==> Between(0, 0 + Expanded(t), id);
    assert Closed(g2);
    LaidOutSpells(g2, t, 0);
    RedactsToItself(g2, t, 0, {});
  }
}
