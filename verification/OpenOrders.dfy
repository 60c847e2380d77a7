/** The open-orders cache of the trading view, kept up to date by pushed order events. */
module OpenOrders {
  import opened Text

  const OPEN_STATUSES: seq<string> := ["PENDING", "OPEN", "PARTIALLY_FILLED"]

  datatype Order = Order(id: string, status: string, details: string)

  predicate IsOpen(o: Order) {
    o.status in OPEN_STATUSES
  }

  function Without(items: seq<Order>, id: string): (r: seq<Order>)
    ensures |r| <= |items|
  {
    if items == [] then []
    else (if items[0].id != id then [items[0]] else []) + Without(items[1..], id)
  }

  /** One update: the order moves to the front, or goes away when it is no longer open. */
  function Upsert(items: seq<Order>, o: Order): seq<Order> {
    if IsOpen(o) then [o] + Without(items, o.id) else Without(items, o.id)
  }

  // --- The cache --------------------------------------------------------------------

  /** A cached page: its orders, and everything else the envelope holds. */
  datatype Page = Page(items: seq<Order>, rest: string)

  datatype QueryKey = QueryKey(head: string, tail: string)

  function Updated(key: QueryKey, page: Option<Page>, o: Order): Option<Page> {
    if key.head == "open-orders" && page.Some? then Some(page.value.(items := Upsert(page.value.items, o))) else page
  }

  class QueryCache {
    var queries: map<QueryKey, Option<Page>>

    constructor (queries: map<QueryKey, Option<Page>>)
      ensures this.queries == queries
    {
      this.queries := queries;
    }

    /** Every open-orders query that has data takes the update; nothing else changes. */
    method OnOrderUpdated(o: Order)
      modifies this
      ensures queries.Keys == old(queries).Keys
      ensures forall key :: key in queries ==> queries[key] == Updated(key, old(queries)[key], o)
      ensures forall key :: key in queries && key.head != "open-orders" ==> queries[key] == old(queries)[key]
      ensures forall key :: key in queries && key.head == "open-orders" && old(queries)[key].Some? ==>
                queries[key] == Some(Page(Upsert(old(queries)[key].value.items, o), old(queries)[key].value.rest))
    {
      var todo := queries.Keys;
      ghost var before := queries;
      while todo != {}
        invariant todo <= queries.Keys == before.Keys
        invariant forall key :: key in queries ==>
                    queries[key] == if key in todo then before[key] else Updated(key, before[key], o)
        decreases |todo|
      {
        var key :| key in todo;
        todo := todo - {key};
        if key.head == "open-orders" && queries[key].Some? {
          var page := queries[key].value;
          var rest := Filtered(page.items, o.id);
          var items := if IsOpen(o) then [o] + rest else rest;
          queries := queries[key := Some(page.(items := items))];
        }
      }
    }
  }

  method Filtered(items: seq<Order>, id: string) returns (rest: seq<Order>)
    ensures rest == Without(items, id)
  {
    rest := [];
    var i := |items|;
    while i > 0
      invariant 0 <= i <= |items|
      invariant rest == Without(items[i..], id)
    {
      i := i - 1;
      if items[i].id != id { rest := [items[i]] + rest; }
      assert items[i..][1..] == items[i + 1..];
    }
  }

  // --- Any number of updates ------------------------------------------------------------

  function Run(items: seq<Order>, updates: seq<Order>): seq<Order> {
    if updates == [] then items else Upsert(Run(items, updates[..|updates| - 1]), updates[|updates| - 1])
  }

  predicate Mentions(orders: seq<Order>, id: string) {
    exists i :: 0 <= i < |orders| && orders[i].id == id
  }

  /** Reading the updates backwards: each order at its last update, if that left it open. */
  function LastOpen(updates: seq<Order>, done: set<string>): seq<Order> {
    if updates == [] then []
    else
      var last := |updates| - 1;
      var u := updates[last];
      if u.id in done then LastOpen(updates[..last], done)
      else (if IsOpen(u) then [u] else []) + LastOpen(updates[..last], done + {u.id})
  }

  /** The orders no update mentions, in their original order. */
  function Untouched(items: seq<Order>, updates: seq<Order>): seq<Order> {
    if items == [] then []
    else (if Mentions(updates, items[0].id) then [] else [items[0]]) + Untouched(items[1..], updates)
  }

  lemma {:induction false} WithoutSum(a: seq<Order>, b: seq<Order>, id: string)
    ensures Without(a + b, id) == Without(a, id) + Without(b, id)
  {
    if a == [] {
      assert a + b == b;
    } else {
      var head := if a[0].id != id then [a[0]] else [];
      assert (a + b)[1..] == a[1..] + b;
      WithoutSum(a[1..], b, id);
      assert head + (Without(a[1..], id) + Without(b, id)) == (head + Without(a[1..], id)) + Without(b, id);
    }
  }

  lemma {:induction false} WithoutLastOpen(updates: seq<Order>, done: set<string>, id: string)
    ensures Without(LastOpen(updates, done), id) == LastOpen(updates, done + {id})
    decreases updates
  {
    if updates != [] {
      var last := |updates| - 1;
      var u := updates[last];
      if u.id in done {
        WithoutLastOpen(updates[..last], done, id);
      } else {
        WithoutLastOpen(updates[..last], done + {u.id}, id);
        WithoutSum(if IsOpen(u) then [u] else [], LastOpen(updates[..last], done + {u.id}), id);
        if u.id == id {
          assert done + {u.id} + {id} == done + {id};
        } else {
          assert done + {u.id} + {id} == done + {id} + {u.id};
        }
      }
    }
  }

  lemma {:induction false} WithoutUntouched(items: seq<Order>, updates: seq<Order>, u: Order)
    ensures Without(Untouched(items, updates), u.id) == Untouched(items, updates + [u])
  {
    if items != [] {
      WithoutUntouched(items[1..], updates, u);
      var id := items[0].id;
      assert Mentions(updates + [u], id) <==> Mentions(updates, id) || id == u.id by {
        assert (updates + [u])[|updates|] == u;
        assert forall i :: 0 <= i < |updates| ==> (updates + [u])[i] == updates[i];
      }
      WithoutSum(if Mentions(updates, id) then [] else [items[0]], Untouched(items[1..], updates), u.id);
    }
  }

  lemma {:induction false} NoneTouched(items: seq<Order>)
    ensures Untouched(items, []) == items
  {
    if items != [] { NoneTouched(items[1..]); }
  }

  /**
   After any sequence of updates the list is the orders whose last update was open, the most recently
   updated first and each with its latest value, and then the orders never mentioned, as they were.
   */
  lemma {:induction false} ClosedForm(items: seq<Order>, updates: seq<Order>)
    ensures Run(items, updates) == LastOpen(updates, {}) + Untouched(items, updates)
  {
    if updates == [] {
      NoneTouched(items);
    } else {
      var last := |updates| - 1;
      var u, before := updates[last], updates[..last];
      var open, rest := LastOpen(before, {}), Untouched(items, before);
      ClosedForm(items, before);
      WithoutLastOpen(before, {}, u.id);
      WithoutUntouched(items, before, u);
      assert before + [u] == updates;
      UpsertSum(open, rest, u);
    }
  }

  lemma UpsertSum(open: seq<Order>, rest: seq<Order>, u: Order)
    ensures Upsert(open + rest, u) == (if IsOpen(u) then [u] else []) + Without(open, u.id) + Without(rest, u.id)
  {
    WithoutSum(open, rest, u.id);
  }

  /** An order is kept by `LastOpen` exactly when it is the last update of its id, and open. */
  lemma {:induction false} LastOpenMeans(updates: seq<Order>, done: set<string>, o: Order)
    ensures o in LastOpen(updates, done)
            <==> o.status in {"PENDING", "OPEN", "PARTIALLY_FILLED"} && o.id !in done
                 && exists i :: 0 <= i < |updates| && updates[i] == o && !Mentions(updates[i + 1..], o.id)
    decreases updates
  {
    if updates != [] {
      var last := |updates| - 1;
      var u, before := updates[last], updates[..last];
      LastOpenMeans(before, if u.id in done then done else done + {u.id}, o);
      forall i | 0 <= i < last
        ensures before[i] == updates[i]
        ensures Mentions(updates[i + 1..], o.id) <==> Mentions(before[i + 1..], o.id) || u.id == o.id
      {
        var after := updates[i + 1..];
        assert after == before[i + 1..] + [u] && after[|after| - 1] == u;
        assert forall j :: 0 <= j < |after| - 1 ==> after[j] == before[i + 1..][j];
      }
      assert updates[last + 1..] == [];
    }
  }

  /** The position of the last update of an id, or -1. */
  function LastIndex(updates: seq<Order>, id: string): (i: int)
    ensures -1 <= i < |updates|
    ensures i >= 0 ==> updates[i].id == id
  {
    if updates == [] then -1
    else if updates[|updates| - 1].id == id then |updates| - 1
    else LastIndex(updates[..|updates| - 1], id)
  }

  lemma {:induction false} LastIndexFinds(updates: seq<Order>, i: nat)
    requires i < |updates|
    ensures LastIndex(updates, updates[i].id) >= i
  {
    if i < |updates| - 1 { LastIndexFinds(updates[..|updates| - 1], i); }
  }

  lemma LastIndexBefore(updates: seq<Order>, done: set<string>, o: Order)
    requires updates != [] && updates[|updates| - 1].id in done
    requires o in LastOpen(updates[..|updates| - 1], done)
    ensures LastIndex(updates, o.id) == LastIndex(updates[..|updates| - 1], o.id) < |updates| - 1
  {
    LastOpenMeans(updates[..|updates| - 1], done, o);
  }

  lemma NewestKept(updates: seq<Order>, done: set<string>, i: nat, j: nat)
    requires updates != [] && updates[|updates| - 1].id in done
    requires var before := updates[..|updates| - 1]; var open := LastOpen(before, done);
      i < |open| && j < |open| && LastIndex(before, open[i].id) > LastIndex(before, open[j].id)
    ensures var open := LastOpen(updates[..|updates| - 1], done);
      LastIndex(updates, open[i].id) > LastIndex(updates, open[j].id)
  {
    var open := LastOpen(updates[..|updates| - 1], done);
    LastIndexBefore(updates, done, open[i]);
    LastIndexBefore(updates, done, open[j]);
  }

  /** Orders nearer to the front were updated later. */
  lemma {:induction false} NewestFirst(updates: seq<Order>, done: set<string>, i: nat, j: nat)
    requires i < j < |LastOpen(updates, done)|
    ensures var open := LastOpen(updates, done);
            LastIndex(updates, open[i].id) > LastIndex(updates, open[j].id)
    decreases updates
  {
    var last := |updates| - 1;
    var u, before := updates[last], updates[..last];
    if u.id in done {
      NewestFirst(before, done, i, j);
      NewestKept(updates, done, i, j);
    } else if !IsOpen(u) {
      NewestFirst(before, done + {u.id}, i, j);
      NewestKept(updates, done + {u.id}, i, j);
    } else if i > 0 {
      NewestFirst(before, done + {u.id}, i - 1, j - 1);
      NewestKept(updates, done + {u.id}, i - 1, j - 1);
    } else {
      LastIndexBefore(updates, done + {u.id}, LastOpen(before, done + {u.id})[j - 1]);
    }
  }

  ghost predicate Distinct(orders: seq<Order>) {
    forall i, j :: 0 <= i < j < |orders| ==> orders[i].id != orders[j].id
  }

  lemma {:induction false} WithoutDistinct(orders: seq<Order>, id: string)
    requires Distinct(orders)
    ensures Distinct(Without(orders, id))
    ensures forall o :: o in Without(orders, id) ==> o in orders && o.id != id
  {
    if orders != [] {
      var rest := Without(orders[1..], id);
      WithoutDistinct(orders[1..], id);
      forall i | 0 <= i < |rest| ensures rest[i].id != orders[0].id {
        assert rest[i] in rest && rest[i] in orders[1..];
      }
    }
  }

  /** No id ever appears twice. */
  lemma {:induction false} StaysDistinct(items: seq<Order>, updates: seq<Order>)
    requires Distinct(items)
    ensures Distinct(Run(items, updates))
    decreases updates
  {
    if updates != [] {
      var last := |updates| - 1;
      StaysDistinct(items, updates[..last]);
      WithoutDistinct(Run(items, updates[..last]), updates[last].id);
      var rest := Without(Run(items, updates[..last]), updates[last].id);
      assert forall i :: 0 <= i < |rest| ==> rest[i] in rest;
    }
  }
}
