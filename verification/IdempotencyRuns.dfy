/** Runs of the idempotency protocol, put together from the steps of one request at a time. */
module IdempotencyRuns {
  import opened Text
  import opened Idempotency
  import opened IdempotencyProofs

  lemma {:induction false} RunThen(s: State, one: seq<Action>, two: seq<Action>)
    ensures Run(s, one + two) == Run(Run(s, one), two)
    decreases one
  {
    if one == [] {
      assert one + two == two;
    } else {
      assert (one + two)[1..] == one[1..] + two;
      RunThen(Do(s, one[0]), one[1..], two);
    }
  }

  lemma RunOne(s: State, a: Action)
    ensures Run(s, [a]) == Do(s, a)
  {
    assert [a][1..] == [];
  }

  lemma RunTwo(s: State, a: Action, b: Action)
    ensures Run(s, [a, b]) == Do(Do(s, a), b)
  {
    RunThen(s, [a], [b]);
    RunOne(s, a);
    RunOne(Do(s, a), b);
    assert [a, b] == [a] + [b];
  }

  lemma RunThree(s: State, a: Action, b: Action, c: Action)
    ensures Run(s, [a, b, c]) == Do(Do(Do(s, a), b), c)
  {
    RunThen(s, [a, b], [c]);
    RunTwo(s, a, b);
    RunOne(Do(Do(s, a), b), c);
    assert [a, b, c] == [a, b] + [c];
  }

  lemma ReachableRun(s: State, schedule: seq<Action>)
    requires Reachable(s)
    ensures Reachable(Run(s, schedule))
  {
    var earlier :| Run(INITIAL, earlier) == s;
    RunThen(INITIAL, earlier, schedule);
  }

  lemma ReachableStep(s: State, a: Action)
    requires Reachable(s)
    ensures Reachable(Do(s, a))
  {
    ReachableRun(s, [a]);
    RunOne(s, a);
  }

  lemma InitialReachable()
    ensures Reachable(INITIAL)
  {
    assert Run(INITIAL, []) == INITIAL;
  }

  // --- One request that is left alone ---------------------------------------------

  function Claiming3(n: nat, q: Request): seq<Action> { [Arrive(n, q), Lookup(n), Claim(n)] }

  lemma ClaimsAlone(s: State, n: nat, q: Request)
    requires n !in s.phases && Admit(q).Admitted? && Admit(q).k !in s.rows
    ensures var k := Admit(q).k;
      Run(s, Claiming3(n, q))
      == State(s.rows[k := PLACEHOLDER], s.phases[n := Handling(k, FRESH_RESPONSE)], s.log + [Claimed(n, k)])
  {
    var k := Admit(q).k;
    RunThree(s, Arrive(n, q), Lookup(n), Claim(n));
    var s1 := State(s.rows, s.phases[n := Looking(k)], s.log);
    assert DoArrive(s, n, q) == s1;
    var s2 := State(s.rows, s.phases[n := Claiming(k)], s.log);
    assert DoLookup(s1, n) == s2 by { assert s1.phases[n := Claiming(k)] == s2.phases; }
    assert s2.phases[n := Handling(k, FRESH_RESPONSE)] == s.phases[n := Handling(k, FRESH_RESPONSE)];
  }

  function Handles(n: nat, ops: seq<HandlerOp>): seq<Action> {
    seq(|ops|, i requires 0 <= i < |ops| => Handle(n, ops[i]))
  }

  function HandledEvents(n: nat, k: Key, ops: seq<HandlerOp>): seq<Event> {
    if ops == [] then []
    else
      var before, op := ops[..|ops| - 1], ops[|ops| - 1];
      HandledEvents(n, k, before) + [Handled(n, k, op, SentBy(RespondAll(before), op))]
  }

  lemma HandlesOne(s: State, n: nat, k: Key, res: Response, op: HandlerOp)
    requires n in s.phases && s.phases[n] == Handling(k, res)
    ensures Run(s, [Handle(n, op)])
            == State(s.rows, s.phases[n := Handling(k, Respond(res, op))], s.log + [Handled(n, k, op, SentBy(res, op))])
  {
    RunOne(s, Handle(n, op));
  }

  /** A handler that is left alone does to its response what its operations say, and nothing else. */
  lemma {:induction false} HandlesAll(s: State, n: nat, k: Key, ops: seq<HandlerOp>)
    requires n in s.phases && s.phases[n] == Handling(k, FRESH_RESPONSE)
    ensures Run(s, Handles(n, ops))
            == State(s.rows, s.phases[n := Handling(k, RespondAll(ops))], s.log + HandledEvents(n, k, ops))
  {
    if ops == [] {
      assert s.phases[n := Handling(k, FRESH_RESPONSE)] == s.phases;
    } else {
      var before, op := ops[..|ops| - 1], ops[|ops| - 1];
      HandlesAll(s, n, k, before);
      var t := State(s.rows, s.phases[n := Handling(k, RespondAll(before))], s.log + HandledEvents(n, k, before));
      HandlesOne(t, n, k, RespondAll(before), op);
      RunThen(s, Handles(n, before), [Handle(n, op)]);
      assert Handles(n, ops) == Handles(n, before) + [Handle(n, op)];
      assert t.phases[n := Handling(k, RespondAll(ops))] == s.phases[n := Handling(k, RespondAll(ops))];
    }
  }

  function FinishedBy(n: nat, k: Key, ops: seq<HandlerOp>): Event
    requires RespondAll(ops).wire.Some?
  {
    var res := RespondAll(ops);
    Finished(n, k, res.statusCode, Stored(res.captured), res.wire.value)
  }

  /** A request from its arrival to the end of its handler, and what it writes. */
  function Serving(n: nat, q: Request, ops: seq<HandlerOp>): seq<Action> {
    Claiming3(n, q) + (Handles(n, ops) + [Finish(n)])
  }

  function Served(n: nat, k: Key, ops: seq<HandlerOp>): seq<Event>
    requires RespondAll(ops).wire.Some?
  {
    [Claimed(n, k)] + (HandledEvents(n, k, ops) + [FinishedBy(n, k, ops)])
  }

  lemma FinishesAlone(s: State, n: nat, k: Key, ops: seq<HandlerOp>)
    requires n in s.phases && s.phases[n] == Handling(k, FRESH_RESPONSE) && RespondAll(ops).wire.Some?
    ensures var e := FinishedBy(n, k, ops);
      Run(s, Handles(n, ops) + [Finish(n)])
      == State(s.rows, s.phases[n := Settling(k, e.status, e.body, e.wire)], s.log + (HandledEvents(n, k, ops) + [e]))
  {
    var e := FinishedBy(n, k, ops);
    HandlesAll(s, n, k, ops);
    RunThen(s, Handles(n, ops), [Finish(n)]);
    var t := State(s.rows, s.phases[n := Handling(k, RespondAll(ops))], s.log + HandledEvents(n, k, ops));
    RunOne(t, Finish(n));
    assert t.log + [e] == s.log + (HandledEvents(n, k, ops) + [e]);
    var settling := Settling(k, e.status, e.body, e.wire);
    assert t.phases[n := settling] == s.phases[n := settling];
  }

  lemma Serves(s: State, n: nat, q: Request, ops: seq<HandlerOp>)
    requires n !in s.phases && Admit(q).Admitted? && Admit(q).k !in s.rows && RespondAll(ops).wire.Some?
    ensures var k := Admit(q).k; var e := FinishedBy(n, k, ops);
      Run(s, Serving(n, q, ops))
      == State(s.rows[k := PLACEHOLDER], s.phases[n := Settling(k, e.status, e.body, e.wire)],
               s.log + Served(n, k, ops))
  {
    var k := Admit(q).k;
    var t := State(s.rows[k := PLACEHOLDER], s.phases[n := Handling(k, FRESH_RESPONSE)], s.log + [Claimed(n, k)]);
    ClaimsAlone(s, n, q);
    RunThen(s, Claiming3(n, q), Handles(n, ops) + [Finish(n)]);
    FinishesAlone(t, n, k, ops);
    var e := FinishedBy(n, k, ops);
    var settling := Settling(k, e.status, e.body, e.wire);
    assert t.phases[n := settling] == s.phases[n := settling];
    assert t.log + (HandledEvents(n, k, ops) + [e]) == s.log + Served(n, k, ops);
  }

  // --- Reading what was written ------------------------------------------------------

  lemma {:induction false} TallySum(one: seq<Event>, two: seq<Event>, k: Key, kind: Kind)
    ensures Tally(one + two, k, kind) == Tally(one, k, kind) + Tally(two, k, kind)
  {
    if two == [] {
      assert one + two == one;
    } else {
      var last := |two| - 1;
      assert (one + two)[..|one| + last] == one + two[..last];
      TallySum(one, two[..last], k, kind);
    }
  }

  lemma {:induction false} OpsSum(one: seq<Event>, two: seq<Event>, r: nat)
    ensures OpsOf(one + two, r) == OpsOf(one, r) + OpsOf(two, r)
  {
    if two == [] {
      assert one + two == one;
    } else {
      var last := |two| - 1;
      assert (one + two)[..|one| + last] == one + two[..last];
      OpsSum(one, two[..last], r);
    }
  }

  /** The status the client was sent is a success. */
  predicate SentSuccess(ops: seq<HandlerOp>) {
    RespondAll(ops).wire.Some? && RespondAll(ops).wire.value.status < 500
  }

  lemma {:induction false} HandledSays(n: nat, k: Key, ops: seq<HandlerOp>, r: nat)
    ensures OpsOf(HandledEvents(n, k, ops), r) == if r == n then ops else []
    ensures Tally(HandledEvents(n, k, ops), k, Seen) == if SentSuccess(ops) then 1 else 0
    ensures forall e :: e in HandledEvents(n, k, ops) ==> e.Handled?
  {
    if ops != [] {
      var before, op := ops[..|ops| - 1], ops[|ops| - 1];
      var e := Handled(n, k, op, SentBy(RespondAll(before), op));
      HandledSays(n, k, before, r);
      OpsAppend(HandledEvents(n, k, before), e, r);
      TallyAppend(HandledEvents(n, k, before), e, k, Seen);
      assert before + [op] == ops;
    }
  }

  lemma OneSays(e: Event, k: Key, kind: Kind, r: nat)
    ensures Tally([e], k, kind) == if Counts(e, k, kind) then 1 else 0
    ensures OpsOf([e], r) == if e.Handled? && e.r == r then [e.op] else []
  {
    assert [e][..0] == [];
  }

  lemma ServedOps(n: nat, k: Key, ops: seq<HandlerOp>, r: nat)
    requires RespondAll(ops).wire.Some?
    ensures OpsOf(Served(n, k, ops), r) == if r == n then ops else []
  {
    var events, e := HandledEvents(n, k, ops), FinishedBy(n, k, ops);
    HandledSays(n, k, ops, r);
    OneSays(Claimed(n, k), k, Seen, r);
    OneSays(e, k, Seen, r);
    OpsSum(events, [e], r);
    OpsSum([Claimed(n, k)], events + [e], r);
  }

  lemma ServedSeen(n: nat, k: Key, ops: seq<HandlerOp>)
    requires RespondAll(ops).wire.Some?
    ensures Tally(Served(n, k, ops), k, Seen) == if SentSuccess(ops) then 1 else 0
  {
    var events, e := HandledEvents(n, k, ops), FinishedBy(n, k, ops);
    HandledSays(n, k, ops, n);
    OneSays(Claimed(n, k), k, Seen, n);
    OneSays(e, k, Seen, n);
    TallySum(events, [e], k, Seen);
    TallySum([Claimed(n, k)], events + [e], k, Seen);
  }

  lemma ServedSays(n: nat, k: Key, ops: seq<HandlerOp>, r: nat)
    requires RespondAll(ops).wire.Some?
    ensures OpsOf(Served(n, k, ops), r) == if r == n then ops else []
    ensures Tally(Served(n, k, ops), k, Seen) == if SentSuccess(ops) then 1 else 0
    ensures forall e :: e in Served(n, k, ops) && e.Finished? ==> e == FinishedBy(n, k, ops)
  {
    ServedOps(n, k, ops, r);
    ServedSeen(n, k, ops);
    HandledSays(n, k, ops, r);
  }
}
