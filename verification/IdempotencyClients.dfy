/** What the clients of the idempotency protocol get to see, first answers and replays. */
module IdempotencyClients {
  import opened Text
  import opened Idempotency
  import opened IdempotencyProofs
  import opened IdempotencyRuns
  import opened IdempotencyTheorems

  // --- First answers ------------------------------------------------------------

  /** The client of an owner has been sent a success that is still going to count. */
  function Showing(p: Phase): nat {
    match p
    case Handling(_, res) => if res.wire.Some? && res.wire.value.status < 500 then 1 else 0
    case Settling(_, status, _, wire) => if wire.status < 500 && status < 500 then 1 else 0
    case _ => 0
  }

  /** Successes sent are the masked ones, plus at most one: the present owner's, or that of the last claim. */
  ghost predicate Sightings(s: State, k: Key) {
    var seen, masked := Tally(s.log, k, Seen), Tally(s.log, k, Masked);
    && masked <= seen <= masked + 1
    && (k !in s.rows ==> seen == masked)
    && (forall r :: r in s.phases && Owns(s.phases[r], k) ==> seen == masked + Showing(s.phases[r]))
  }

  lemma SightStep(s: State, a: Action, k: Key)
    requires KeyInv(s, k) && Sightings(s, k)
    ensures Sightings(Do(s, a), k)
  {
    if !Concerns(s, a.r, k) {
      Elsewhere(s, a, k);
    } else {
      match a {
        case Handle(r, op) => SightHandle(s, r, op, k);
        case Finish(r) => SightFinish(s, r, k);
        case Settle(r, tookEffect) => SightSettle(s, r, tookEffect, k);
        case Claim(r) => SightClaim(s, r, k);
        case _ => SightQuiet(s, a, k);
      }
    }
  }

  lemma SightQuiet(s: State, a: Action, k: Key)
    requires KeyInv(s, k) && Sightings(s, k) && Concerns(s, a.r, k)
    requires !a.Handle? && !a.Finish? && !a.Settle? && !a.Claim?
    ensures Sightings(Do(s, a), k)
  {
    OneEvent(s, a, k);
  }

  lemma SightClaim(s: State, r: nat, k: Key)
    requires KeyInv(s, k) && Sightings(s, k) && Concerns(s, r, k)
    ensures Sightings(DoClaim(s, r), k)
  {
    OneEvent(s, Claim(r), k);
  }

  lemma SightHandle(s: State, r: nat, op: HandlerOp, k: Key)
    requires KeyInv(s, k) && Sightings(s, k) && Concerns(s, r, k)
    ensures Sightings(DoHandle(s, r, op), k)
  {
    OneEvent(s, Handle(r, op), k);
  }

  lemma SightFinish(s: State, r: nat, k: Key)
    requires KeyInv(s, k) && Sightings(s, k) && Concerns(s, r, k)
    ensures Sightings(DoFinish(s, r), k)
  {
    OneEvent(s, Finish(r), k);
  }

  lemma SightSettle(s: State, r: nat, tookEffect: bool, k: Key)
    requires KeyInv(s, k) && Sightings(s, k) && Concerns(s, r, k)
    ensures Sightings(DoSettle(s, r, tookEffect), k)
  {
    OneEvent(s, Settle(r, tookEffect), k);
  }

  lemma {:induction false} SightRun(s: State, schedule: seq<Action>, k: Key)
    requires Good(s) && Sightings(s, k)
    ensures Sightings(Run(s, schedule), k)
    decreases schedule
  {
    if schedule != [] {
      assert KeyInv(s, k);
      SightStep(s, schedule[0], k);
      GoodStep(s, schedule[0]);
      SightRun(Do(s, schedule[0]), schedule[1..], k);
    }
  }

  /**
   The successes that the handlers of a key have sent to clients, finished or lost, are exceeded by
   those that were masked by a later 5xx by nothing, and exceed them by at most one.
   */
  lemma SeenOrMasked(s: State, k: Key)
    requires Reachable(s)
    ensures Tally(s.log, k, Masked) <= Tally(s.log, k, Seen) <= Tally(s.log, k, Masked) + 1
  {
    var schedule :| Run(INITIAL, schedule) == s;
    SightRun(INITIAL, schedule, k);
  }

  /** Operations of a handler that send a success and finish with a 5xx. */
  predicate Masks(ops: seq<HandlerOp>) {
    SentSuccess(ops) && RespondAll(ops).statusCode >= 500
  }

  /** Every execution that finished did one of the things a handler may do. */
  ghost predicate Obeys(log: seq<Event>, may: seq<HandlerOp> -> bool) {
    forall e :: e in log && e.Finished? ==> may(OpsOf(log, e.r))
  }

  lemma {:induction false} TallyNone(log: seq<Event>, k: Key, kind: Kind)
    requires forall e :: e in log ==> !Counts(e, k, kind)
    ensures Tally(log, k, kind) == 0
  {
    if log != [] { TallyNone(log[..|log| - 1], k, kind); }
  }

  lemma SeenAtMostOnce(s: State, k: Key, may: seq<HandlerOp> -> bool)
    requires Reachable(s) && Obeys(s.log, may) && forall ops :: may(ops) ==> !Masks(ops)
    ensures Tally(s.log, k, Seen) <= 1
  {
    GoodAlways(s);
    forall e | e in s.log && e.Finished? ensures !Counts(e, k, Masked) {
      assert RequestInv(s, e.r);
      assert !Masks(OpsOf(s.log, e.r));
    }
    TallyNone(s.log, k, Masked);
    SeenOrMasked(s, k);
  }

  function Masking(n: nat, q: Request, ops: seq<HandlerOp>): seq<Action> {
    Serving(n, q, ops) + [Settle(n, true)]
  }

  /** A masking handler leaves the table as it was, but its client has seen a success. */
  lemma LateFailureReleases(s: State, n: nat, q: Request, ops: seq<HandlerOp>)
    requires n !in s.phases && Admit(q).Admitted? && Admit(q).k !in s.rows && Masks(ops)
    ensures var t, k := Run(s, Masking(n, q, ops)), Admit(q).k;
      && t.rows == s.rows && t.phases == s.phases[n := Closed]
      && t.log == s.log + (Served(n, k, ops) + [Released(n, k)])
      && Tally(t.log, k, Seen) == Tally(s.log, k, Seen) + 1
  {
    var k := Admit(q).k;
    var e := FinishedBy(n, k, ops);
    Serves(s, n, q, ops);
    RunThen(s, Serving(n, q, ops), [Settle(n, true)]);
    var phases := s.phases[n := Settling(k, e.status, e.body, e.wire)];
    var t := State(s.rows[k := PLACEHOLDER], phases, s.log + Served(n, k, ops));
    RunOne(t, Settle(n, true));
    assert t.rows - {k} == s.rows && t.phases[n := Closed] == s.phases[n := Closed];
    assert t.log + [Released(n, k)] == s.log + (Served(n, k, ops) + [Released(n, k)]);
    MaskedSays(n, k, ops, n);
    TallySum(s.log, Served(n, k, ops) + [Released(n, k)], k, Seen);
  }

  lemma MaskedSays(n: nat, k: Key, ops: seq<HandlerOp>, r: nat)
    requires SentSuccess(ops)
    ensures var events := Served(n, k, ops) + [Released(n, k)];
      && Tally(events, k, Seen) == 1
      && OpsOf(events, r) == (if r == n then ops else [])
      && forall e :: e in events && e.Finished? ==> e.r == n
  {
    ServedSays(n, k, ops, r);
    TallyAppend(Served(n, k, ops), Released(n, k), k, Seen);
    OpsAppend(Served(n, k, ops), Released(n, k), r);
  }

  /** All executions so far have done exactly these operations. */
  ghost predicate OnlyDid(log: seq<Event>, ops: seq<HandlerOp>) {
    forall e :: e in log && e.Finished? ==> OpsOf(log, e.r) == ops
  }

  lemma OnlyDidMore(s: State, n: nat, k: Key, ops: seq<HandlerOp>)
    requires Good(s) && n !in s.phases && SentSuccess(ops) && OnlyDid(s.log, ops)
    ensures OnlyDid(s.log + (Served(n, k, ops) + [Released(n, k)]), ops)
  {
    var events := Served(n, k, ops) + [Released(n, k)];
    assert RequestInv(s, n);
    forall e | e in s.log + events && e.Finished? ensures OpsOf(s.log + events, e.r) == ops {
      MaskedSays(n, k, ops, e.r);
      OpsSum(s.log, events, e.r);
    }
  }

  lemma OnceMore(s: State, n: nat, q: Request, ops: seq<HandlerOp>)
    requires Reachable(s) && n !in s.phases && Admit(q).Admitted? && Admit(q).k !in s.rows
    requires Masks(ops) && OnlyDid(s.log, ops)
    ensures var t := Run(s, Masking(n, q, ops));
      && Reachable(t) && OnlyDid(t.log, ops) && t.rows == s.rows && t.phases == s.phases[n := Closed]
      && Tally(t.log, Admit(q).k, Seen) == Tally(s.log, Admit(q).k, Seen) + 1
  {
    GoodAlways(s);
    LateFailureReleases(s, n, q, ops);
    OnlyDidMore(s, n, Admit(q).k, ops);
    ReachableRun(s, Masking(n, q, ops));
  }

  /** When a handler's operations mask, runs of nothing else show the clients of a key any number of successes. */
  lemma {:induction false} SeenWithoutBound(q: Request, ops: seq<HandlerOp>, m: nat) returns (s: State)
    requires Admit(q).Admitted? && Masks(ops)
    ensures Reachable(s) && OnlyDid(s.log, ops) && Tally(s.log, Admit(q).k, Seen) == m
    ensures Admit(q).k !in s.rows && forall n :: n in s.phases ==> n < m
  {
    if m == 0 {
      s := INITIAL;
      InitialReachable();
    } else {
      var earlier := SeenWithoutBound(q, ops, m - 1);
      OnceMore(earlier, m - 1, q, ops);
      s := Run(earlier, Masking(m - 1, q, ops));
    }
  }

  const SAMPLE := Request(Some("user"), Some("12345678"), "POST", "/api", "/withdrawals")

  lemma SampleAdmitted()
    ensures Admit(SAMPLE).Admitted?
  {
    TrimPadded("", "12345678", "");
    assert "" + "12345678" + "" == "12345678";
  }

  /**
   What handlers may do keeps the bound "no key shows two successes" in every run, with any number of
   requests and any losses, if and only if none of it masks.
   */
  lemma SeenAtMostOnceIff(may: seq<HandlerOp> -> bool)
    ensures (forall s, k :: Reachable(s) && Obeys(s.log, may) ==> Tally(s.log, k, Seen) <= 1)
            <==> (forall ops :: may(ops) ==> !Masks(ops))
  {
    if forall ops :: may(ops) ==> !Masks(ops) {
      forall s, k | Reachable(s) && Obeys(s.log, may) ensures Tally(s.log, k, Seen) <= 1 {
        SeenAtMostOnce(s, k, may);
      }
    } else {
      var ops :| may(ops) && Masks(ops);
      SampleAdmitted();
      var s := SeenWithoutBound(SAMPLE, ops, 2);
      assert Obeys(s.log, may);
      assert Tally(s.log, Admit(SAMPLE).k, Seen) == 2;
    }
  }

  const OK := Some(JsonValue("ok"))
  const ERROR := Some(JsonValue("error"))

  /** A handler that answers and then fails: the error handler does not ask whether an answer was sent. */
  const SENT_THEN_FAILED := [SendJson(OK), SetStatus(500), SendJson(ERROR)]

  lemma SentThenFailedMasks()
    ensures RespondAll(SENT_THEN_FAILED) == Response(500, ERROR, Some(Wire(200, OK))) && Masks(SENT_THEN_FAILED)
  {
    RespondAppend([], SendJson(OK));
    RespondAppend([SendJson(OK)], SetStatus(500));
    RespondAppend([SendJson(OK), SetStatus(500)], SendJson(ERROR));
    assert [] + [SendJson(OK)] == [SendJson(OK)];
    assert [SendJson(OK)] + [SetStatus(500)] == [SendJson(OK), SetStatus(500)];
    assert [SendJson(OK), SetStatus(500)] + [SendJson(ERROR)] == SENT_THEN_FAILED;
  }

  // --- Is the replay the original response? ---------------------------------------------

  predicate Sends(op: HandlerOp) { !op.SetStatus? }

  function LastStatus(ops: seq<HandlerOp>, status: nat): nat {
    if ops == [] then status
    else if ops[|ops| - 1].SetStatus? then ops[|ops| - 1].status
    else LastStatus(ops[..|ops| - 1], status)
  }

  function LastJson(ops: seq<HandlerOp>, body: Option<Json>): Option<Json> {
    if ops == [] then body
    else if ops[|ops| - 1].SendJson? then ops[|ops| - 1].body
    else LastJson(ops[..|ops| - 1], body)
  }

  lemma {:induction false} BeforeSending(before: seq<HandlerOp>)
    requires forall op :: op in before ==> !Sends(op)
    ensures RespondAll(before) == Response(LastStatus(before, 200), None, None)
  {
    if before != [] {
      assert !Sends(before[|before| - 1]);
      BeforeSending(before[..|before| - 1]);
    }
  }

  lemma {:induction false} AfterSending(before: seq<HandlerOp>, op: HandlerOp, after: seq<HandlerOp>)
    requires (forall o :: o in before ==> !Sends(o)) && Sends(op)
    ensures var status := LastStatus(before, 200);
      var body := if op.SendJson? then op.body else None;
      RespondAll(before + [op] + after)
      == Response(LastStatus(after, status), LastJson(after, body), Some(Wire(status, body)))
    decreases after
  {
    if after == [] {
      BeforeSending(before);
      RespondAppend(before, op);
      assert before + [op] + after == before + [op];
    } else {
      var last := |after| - 1;
      AfterSending(before, op, after[..last]);
      RespondAppend(before + [op] + after[..last], after[last]);
      assert before + [op] + after == before + [op] + after[..last] + [after[last]];
    }
  }

  lemma OriginalShape(before: seq<HandlerOp>, op: HandlerOp, after: seq<HandlerOp>)
    requires (forall o :: o in before ==> !Sends(o)) && Sends(op)
    ensures var res := RespondAll(before + [op] + after);
      var status := LastStatus(before, 200);
      && res.wire.Some?
      && (Wire(res.statusCode, Some(Stored(res.captured))) == res.wire.value
          <==> op.SendJson? && op.body.Some?
               && Stored(LastJson(after, op.body)) == op.body.value
               && LastStatus(after, status) == status)
  {
    AfterSending(before, op, after);
  }

  /** A response without anything on the wire is one to which nothing was sent. */
  lemma {:induction false} FirstSend(ops: seq<HandlerOp>)
    returns (before: seq<HandlerOp>, op: HandlerOp, after: seq<HandlerOp>)
    requires RespondAll(ops).wire.Some?
    ensures ops == before + [op] + after && Sends(op) && forall o :: o in before ==> !Sends(o)
  {
    var last := |ops| - 1;
    if RespondAll(ops[..last]).wire.Some? {
      var rest: seq<HandlerOp>;
      before, op, rest := FirstSend(ops[..last]);
      after := rest + [ops[last]];
      assert ops == ops[..last] + [ops[last]];
    } else {
      before, op, after := ops[..last], ops[last], [];
      NothingSent(before);
      assert ops == before + [op] + after;
    }
  }

  lemma {:induction false} NothingSent(ops: seq<HandlerOp>)
    requires RespondAll(ops).wire.None?
    ensures forall o :: o in ops ==> !Sends(o)
  {
    if ops != [] { NothingSent(ops[..|ops| - 1]); }
  }

  /**
   Every replay in a run repeats one execution, and is what that execution's client received if and
   only if the first thing its handler sent was JSON, and nothing it did to the response after that
   changed the status or the captured body.
   */
  lemma ReplayIsOriginal(s: State, e: Event)
    returns (f: Event, before: seq<HandlerOp>, op: HandlerOp, after: seq<HandlerOp>)
    requires Reachable(s) && e in s.log && e.Replayed?
    ensures f in s.log && f.Finished? && f.k == e.k && f.status < 500
    ensures OpsOf(s.log, f.r) == before + [op] + after && Sends(op) && forall o :: o in before ==> !Sends(o)
    ensures var status := LastStatus(before, 200);
      Wire(e.status, Some(e.body)) == f.wire
      <==> op.SendJson? && op.body.Some? && Stored(LastJson(after, op.body)) == op.body.value
           && LastStatus(after, status) == status
  {
    f := ReplaysTheOwner(s, e);
    before, op, after := FirstSend(OpsOf(s.log, f.r));
    OriginalShape(before, op, after);
  }

  function Repeating(n: nat, q: Request): seq<Action> { [Arrive(n, q), Lookup(n)] }

  /** The repeated request of a run that is served, settled and repeated. */
  lemma ReplayFollows(q: Request, ops: seq<HandlerOp>) returns (s: State)
    requires Admit(q).Admitted? && RespondAll(ops).wire.Some? && RespondAll(ops).statusCode < 500
    ensures var k, e := Admit(q).k, FinishedBy(0, Admit(q).k, ops);
            Reachable(s) && e in s.log && Replayed(1, k, e.status, e.body) in s.log
  {
    var k, e := Admit(q).k, FinishedBy(0, Admit(q).k, ops);
    InitialReachable();
    Serves(INITIAL, 0, q, ops);
    var s1 := Run(INITIAL, Serving(0, q, ops));
    ReachableRun(INITIAL, Serving(0, q, ops));
    var s2 := Do(s1, Settle(0, true));
    ReachableStep(s1, Settle(0, true));
    assert e in s1.log && e in s2.log;
    assert s2.rows[k] == Row(Some(e.status), Some(e.body));
    RunTwo(s2, Arrive(1, q), Lookup(1));
    ReachableRun(s2, Repeating(1, q));
    s := Run(s2, Repeating(1, q));
    RepeatedAlone(s2, 1, q);
  }

  /**
   A request that is refused although nobody is in flight and its answer is recorded: it looked the key
   up before another request was served from beginning to end.
   */
  lemma RefusedThoughRecorded(q: Request, ops: seq<HandlerOp>) returns (s: State)
    requires Admit(q).Admitted? && RespondAll(ops).wire.Some? && RespondAll(ops).statusCode < 500
    ensures var k := Admit(q).k;
      && Reachable(s) && IsRecorded(s, k) && !Owned(s, k) && 1 in s.phases && s.phases[1] == Claiming(k)
      && Do(s, Claim(1)).log == s.log + [Refused(1, k)]
  {
    var k := Admit(q).k;
    var s1 := State(map[], map[1 := Claiming(k)], []);
    InitialReachable();
    RunTwo(INITIAL, Arrive(1, q), Lookup(1));
    assert DoLookup(DoArrive(INITIAL, 1, q), 1) == s1;
    ReachableRun(INITIAL, Repeating(1, q));
    Serves(s1, 0, q, ops);
    ReachableRun(s1, Serving(0, q, ops));
    var s2 := Run(s1, Serving(0, q, ops));
    s := Do(s2, Settle(0, true));
    ReachableStep(s2, Settle(0, true));
    assert s.phases == map[1 := Claiming(k), 0 := Closed];
  }

  lemma RepeatedAlone(s: State, n: nat, q: Request)
    requires n !in s.phases && Admit(q).Admitted? && Admit(q).k in s.rows
    requires s.rows[Admit(q).k].responseStatus.Some?
    ensures var k := Admit(q).k;
      Run(s, Repeating(n, q)).log
      == s.log + [Replayed(n, k, s.rows[k].responseStatus.value, Stored(s.rows[k].responseBody))]
  {
    RunTwo(s, Arrive(n, q), Lookup(n));
    var s1 := State(s.rows, s.phases[n := Looking(Admit(q).k)], s.log);
    assert DoArrive(s, n, q) == s1;
  }

  /** A page sent with status 200 by other means than JSON is replayed as a JSON null. */
  lemma ReplayDiffers(q: Request) returns (s: State)
    requires Admit(q).Admitted?
    ensures var k := Admit(q).k;
      && Reachable(s)
      && Finished(0, k, 200, JsonNull, Wire(200, None)) in s.log
      && Replayed(1, k, 200, JsonNull) in s.log
  {
    RespondAppend([], SendOther);
    assert [] + [SendOther] == [SendOther];
    assert RespondAll([SendOther]) == Response(200, None, Some(Wire(200, None)));
    s := ReplayFollows(q, [SendOther]);
  }
}
