/** What every run of the idempotency protocol keeps. */
module IdempotencyProofs {
  import opened Text
  import opened Idempotency

  // --- The atomic map the protocol stands for ---------------------------------

  /** A key in flight belongs to the request that claimed it, alive or not. */
  datatype Cell = InFlight(owner: nat) | Done(status: nat, body: Json)

  function RowOf(c: Cell): Row {
    if c.InFlight? then PLACEHOLDER else Row(Some(c.status), Some(c.body))
  }

  function Rows(m: map<Key, Cell>): map<Key, Row> {
    map k | k in m :: RowOf(m[k])
  }

  /** The table holds what the map says, and whoever runs or settles a key is its owner there. */
  ghost predicate Mirrors(m: map<Key, Cell>, s: State) {
    && s.rows == Rows(m)
    && forall r :: r in s.phases && (s.phases[r].Handling? || s.phases[r].Settling?) ==>
         s.phases[r].k in m && m[s.phases[r].k] == InFlight(r)
  }

  predicate IsOwner(m: map<Key, Cell>, r: nat, k: Key) {
    k in m && m[k] == InFlight(r)
  }

  /** The atomic map takes an event, or does not allow it. */
  function Atomic(m: map<Key, Cell>, e: Event): Option<map<Key, Cell>> {
    match e
    case Rejected(_, _) => Some(m)
    case Claimed(r, k) => if k in m then None else Some(m[k := InFlight(r)])
    case Refused(_, k) => if k in m then Some(m) else None
    case Replayed(_, k, status, body) => if k in m && m[k] == Done(status, body) then Some(m) else None
    case Handled(r, k, _, _) => if IsOwner(m, r, k) then Some(m) else None
    case Finished(r, k, _, _, _) => if IsOwner(m, r, k) then Some(m) else None
    case Released(r, k) => if IsOwner(m, r, k) then Some(m - {k}) else None
    case Recorded(r, k, status, body) =>
      if IsOwner(m, r, k) && status < 500 then Some(m[k := Done(status, body)]) else None
  }

  /** The atomic map after a history; `None` if the map does not allow the history. */
  function Atomically(log: seq<Event>): Option<map<Key, Cell>> {
    if log == [] then Some(map[])
    else
      var m := Atomically(log[..|log| - 1]);
      if m.None? then None else Atomic(m.value, log[|log| - 1])
  }

  // --- Counting events ----------------------------------------------------------

  datatype Kind = Claims | Releases | Successes | Seen | Masked

  /**
   A success is a handler execution that finished with a status under 500. `Seen` counts the clients
   that were sent such a status by a handler, whatever became of the request afterwards; `Masked` the
   executions that sent one and finished with a 5xx all the same.
   */
  predicate Counts(e: Event, k: Key, kind: Kind) {
    match kind
    case Claims => e.Claimed? && e.k == k
    case Releases => e.Released? && e.k == k
    case Successes => e.Finished? && e.k == k && e.status < 500
    case Seen => e.Handled? && e.k == k && e.sent.Some? && e.sent.value.status < 500
    case Masked => e.Finished? && e.k == k && e.wire.status < 500 <= e.status
  }

  function Tally(log: seq<Event>, k: Key, kind: Kind): nat {
    if log == [] then 0
    else Tally(log[..|log| - 1], k, kind) + (if Counts(log[|log| - 1], k, kind) then 1 else 0)
  }

  lemma TallyAppend(log: seq<Event>, e: Event, k: Key, kind: Kind)
    ensures Tally(log + [e], k, kind) == Tally(log, k, kind) + (if Counts(e, k, kind) then 1 else 0)
  {
  }

  // --- The invariant ------------------------------------------------------------

  predicate Owns(p: Phase, k: Key) {
    (p.Handling? || p.Settling?) && p.k == k
  }

  ghost predicate Owned(s: State, k: Key) {
    exists r :: r in s.phases && Owns(s.phases[r], k)
  }

  ghost predicate Ownership(s: State, k: Key) {
    && (forall r :: r in s.phases && Owns(s.phases[r], k) ==> k in s.rows && s.rows[k] == PLACEHOLDER)
    && (forall r, q :: r in s.phases && q in s.phases && Owns(s.phases[r], k) && Owns(s.phases[q], k) ==> r == q)
  }

  ghost predicate Balance(s: State, k: Key) {
    Tally(s.log, k, Claims) == Tally(s.log, k, Releases) + (if k in s.rows then 1 else 0)
  }

  /** Once a handler has succeeded, the row stays and nobody runs or releases the key. */
  ghost predicate Success(s: State, k: Key) {
    && Tally(s.log, k, Successes) <= 1
    && (Tally(s.log, k, Successes) == 1 ==>
      && k in s.rows
      && forall r :: r in s.phases && Owns(s.phases[r], k) ==> s.phases[r].Settling? && s.phases[r].status < 500)
  }

  ghost predicate Settlement(s: State, k: Key) {
    forall r :: r in s.phases && s.phases[r].Settling? && s.phases[r].k == k ==>
      var Settling(_, status, body, wire) := s.phases[r];
      && Finished(r, k, status, body, wire) in s.log
      && (status < 500 ==> Tally(s.log, k, Successes) == 1)
  }

  /** A row is a placeholder, or holds what some successful execution finished with. */
  ghost predicate Record(s: State, k: Key) {
    k in s.rows ==>
      || s.rows[k] == PLACEHOLDER
      || (exists r, status, body, wire ::
        && Finished(r, k, status, body, wire) in s.log && status < 500
        && Tally(s.log, k, Successes) == 1
        && s.rows[k] == Row(Some(status), Some(body)))
  }

  ghost predicate Replays(s: State, k: Key) {
    forall e :: e in s.log && e.Replayed? && e.k == k ==>
      k in s.rows && s.rows[k] == Row(Some(e.status), Some(e.body))
  }

  ghost predicate KeyInv(s: State, k: Key) {
    Ownership(s, k) && Balance(s, k) && Success(s, k) && Settlement(s, k) && Record(s, k) && Replays(s, k)
  }

  ghost predicate Inv(s: State) {
    && (forall k :: KeyInv(s, k))
    && Atomically(s.log).Some? && Mirrors(Atomically(s.log).value, s)
  }

  lemma AtomicallyAppend(log: seq<Event>, e: Event)
    requires Atomically(log).Some?
    ensures Atomically(log + [e]) == Atomic(Atomically(log).value, e)
  {
  }

  /** A step writes at most one event. */
  lemma OneEvent(s: State, a: Action, k: Key)
    ensures var t := Do(s, a);
      || t.log == s.log
      || (|t.log| == |s.log| + 1 && t.log == s.log + [t.log[|s.log|]]
          && forall kind :: Tally(t.log, k, kind)
                            == Tally(s.log, k, kind) + (if Counts(t.log[|s.log|], k, kind) then 1 else 0))
  {
  }

  predicate About(e: Event, k: Key) {
    !e.Rejected? && e.k == k
  }

  predicate Concerns(s: State, r: nat, k: Key) {
    r in s.phases && !s.phases[r].Closed? && s.phases[r].k == k
  }

  /** Two states that cannot be told apart by looking at one key. */
  ghost predicate Agree(s: State, t: State, k: Key) {
    && (k in s.rows <==> k in t.rows)
    && (k in s.rows ==> s.rows[k] == t.rows[k])
    && (forall r :: r in t.phases && Owns(t.phases[r], k) ==> r in s.phases && s.phases[r] == t.phases[r])
    && (forall e :: About(e, k) ==> (e in s.log <==> e in t.log))
    && (forall kind :: Tally(s.log, k, kind) == Tally(t.log, k, kind))
  }

  lemma Elsewhere(s: State, a: Action, k: Key)
    requires !Concerns(s, a.r, k)
    ensures Agree(s, Do(s, a), k)
  {
    NothingAbout(s, a, k);
    SameAbout(s.log, Do(s, a).log, k);
  }

  lemma SameAbout(log: seq<Event>, log2: seq<Event>, k: Key)
    requires log2 == log || exists e :: !About(e, k) && log2 == log + [e]
    ensures forall e :: About(e, k) ==> (e in log <==> e in log2)
    ensures forall kind :: Tally(log, k, kind) == Tally(log2, k, kind)
  {
    if log2 != log {
      var e :| !About(e, k) && log2 == log + [e];
      forall kind ensures Tally(log, k, kind) == Tally(log2, k, kind) { TallyAppend(log, e, k, kind); }
    }
  }

  lemma NothingAbout(s: State, a: Action, k: Key)
    requires !Concerns(s, a.r, k)
    ensures var t := Do(s, a);
      && (t.log == s.log || exists e :: !About(e, k) && t.log == s.log + [e])
      && (forall r :: r in t.phases && Owns(t.phases[r], k) ==> r in s.phases && s.phases[r] == t.phases[r])
      && (k in s.rows <==> k in t.rows) && (k in s.rows ==> s.rows[k] == t.rows[k])
  {
  }

  lemma AgreeKeeps(s: State, t: State, k: Key)
    requires KeyInv(s, k) && Agree(s, t, k)
    ensures KeyInv(t, k)
  {
  }

  lemma KeyLookup(s: State, r: nat, k: Key)
    requires KeyInv(s, k) && Concerns(s, r, k)
    ensures KeyInv(DoLookup(s, r), k)
  {
    OneEvent(s, Lookup(r), k);
  }

  lemma KeyLost(s: State, r: nat, k: Key)
    requires KeyInv(s, k)
    ensures KeyInv(Move(s, r, Closed), k)
  {
  }

  /** Of a key without a row there is no owner, no success and no replay. */
  lemma KeyFree(s: State, k: Key)
    requires KeyInv(s, k) && k !in s.rows
    ensures forall r :: r in s.phases ==> !Owns(s.phases[r], k)
    ensures forall e :: e in s.log && e.Replayed? ==> e.k != k
    ensures Tally(s.log, k, Claims) == Tally(s.log, k, Releases) && Tally(s.log, k, Successes) == 0
  {
  }

  /** A placeholder with a single owner, who has not finished. */
  lemma KeyOwned(t: State, r: nat, k: Key)
    requires k in t.rows && t.rows[k] == PLACEHOLDER && r in t.phases && t.phases[r].Handling?
    requires forall q :: q in t.phases && Owns(t.phases[q], k) ==> q == r
    requires forall e :: e in t.log && e.Replayed? ==> e.k != k
    requires Tally(t.log, k, Claims) == Tally(t.log, k, Releases) + 1 && Tally(t.log, k, Successes) == 0
    ensures KeyInv(t, k)
  {
  }

  lemma KeyGranted(s: State, r: nat, k: Key)
    requires KeyInv(s, k) && k !in s.rows
    ensures var phases := s.phases[r := Handling(k, FRESH_RESPONSE)];
      KeyInv(State(s.rows[k := PLACEHOLDER], phases, s.log + [Claimed(r, k)]), k)
  {
    KeyFree(s, k);
    TallyAppend(s.log, Claimed(r, k), k, Claims);
    TallyAppend(s.log, Claimed(r, k), k, Releases);
    TallyAppend(s.log, Claimed(r, k), k, Successes);
    var phases := s.phases[r := Handling(k, FRESH_RESPONSE)];
    KeyOwned(State(s.rows[k := PLACEHOLDER], phases, s.log + [Claimed(r, k)]), r, k);
  }

  lemma KeyRefused(s: State, r: nat, k: Key)
    requires KeyInv(s, k)
    ensures KeyInv(Emit(s, Refused(r, k)), k)
  {
    forall kind ensures Tally(s.log + [Refused(r, k)], k, kind) == Tally(s.log, k, kind) {
      TallyAppend(s.log, Refused(r, k), k, kind);
    }
  }

  lemma KeyClaim(s: State, r: nat, k: Key)
    requires KeyInv(s, k) && Concerns(s, r, k)
    ensures KeyInv(DoClaim(s, r), k)
  {
    if s.phases[r].Claiming? && k in s.rows {
      KeyLost(s, r, k);
      KeyRefused(Move(s, r, Closed), r, k);
    } else if s.phases[r].Claiming? {
      KeyGranted(s, r, k);
    }
  }

  /** A placeholder that nobody owns. */
  lemma KeyUnowned(t: State, k: Key)
    requires k in t.rows && t.rows[k] == PLACEHOLDER
    requires forall r :: r in t.phases ==> !Owns(t.phases[r], k)
    requires forall e :: e in t.log && e.Replayed? ==> e.k != k
    requires Tally(t.log, k, Claims) == Tally(t.log, k, Releases) + 1 && Tally(t.log, k, Successes) == 0
    ensures KeyInv(t, k)
  {
  }

  /** An insert takes effect, but nobody owns it. */
  lemma KeyPlaced(s: State, r: nat, k: Key)
    requires KeyInv(s, k) && k !in s.rows
    ensures KeyInv(Emit(s, Claimed(r, k)).(rows := s.rows[k := PLACEHOLDER]), k)
  {
    KeyFree(s, k);
    TallyAppend(s.log, Claimed(r, k), k, Claims);
    TallyAppend(s.log, Claimed(r, k), k, Releases);
    TallyAppend(s.log, Claimed(r, k), k, Successes);
    KeyUnowned(State(s.rows[k := PLACEHOLDER], s.phases, s.log + [Claimed(r, k)]), k);
  }

  lemma KeyClaimFails(s: State, r: nat, tookEffect: bool, k: Key)
    requires KeyInv(s, k) && Concerns(s, r, k)
    ensures KeyInv(DoClaimFails(s, r, tookEffect), k)
  {
    KeyLost(s, r, k);
    if s.phases[r].Claiming? && tookEffect && k !in s.rows {
      KeyPlaced(Move(s, r, Closed), r, k);
    }
  }

  lemma KeyFinish(s: State, r: nat, k: Key)
    requires KeyInv(s, k) && Concerns(s, r, k)
    ensures KeyInv(DoFinish(s, r), k)
  {
    OneEvent(s, Finish(r), k);
  }

  lemma KeySettle(s: State, r: nat, tookEffect: bool, k: Key)
    requires KeyInv(s, k) && Concerns(s, r, k)
    ensures KeyInv(DoSettle(s, r, tookEffect), k)
  {
    var t := DoSettle(s, r, tookEffect);
    if s.phases[r].Settling? {
      assert s.rows[k] == PLACEHOLDER;
      assert !Owned(t, k);
      OneEvent(s, Settle(r, tookEffect), k);
      var Settling(_, status, body, wire) := s.phases[r];
      assert Finished(r, k, status, body, wire) in t.log;
    }
  }

  lemma KeyStep(s: State, a: Action, k: Key)
    requires KeyInv(s, k)
    ensures KeyInv(Do(s, a), k)
  {
    if !Concerns(s, a.r, k) {
      Elsewhere(s, a, k);
      AgreeKeeps(s, Do(s, a), k);
    } else {
      match a {
        case Arrive(r, q) =>
        case Lookup(r) => KeyLookup(s, r, k);
        case Claim(r) => KeyClaim(s, r, k);
        case ClaimFails(r, tookEffect) => KeyClaimFails(s, r, tookEffect, k);
        case Handle(r, op) => OneEvent(s, a, k);
        case Finish(r) => KeyFinish(s, r, k);
        case Settle(r, tookEffect) => KeySettle(s, r, tookEffect, k);
        case Crash(r) =>
      }
    }
  }

  /** The event a step writes is one the atomic map allows, and has the same effect there. */
  lemma EventIsAtomic(m: map<Key, Cell>, s: State, a: Action, e: Event)
    requires Mirrors(m, s) && Do(s, a).log == s.log + [e]
    ensures Atomic(m, e).Some? && Mirrors(Atomic(m, e).value, Do(s, a))
  {
    assert e == Do(s, a).log[|s.log|];
    match a {
      case Settle(r, tookEffect) => SettleIsAtomic(m, s, r, tookEffect, e);
      case Claim(r) => ClaimIsAtomic(m, s, r, e);
      case _ =>
    }
  }

  lemma ClaimIsAtomic(m: map<Key, Cell>, s: State, r: nat, e: Event)
    requires Mirrors(m, s) && DoClaim(s, r).log == s.log + [e]
    ensures Atomic(m, e).Some? && Mirrors(Atomic(m, e).value, DoClaim(s, r))
  {
    assert e == DoClaim(s, r).log[|s.log|];
  }

  lemma SettleIsAtomic(m: map<Key, Cell>, s: State, r: nat, tookEffect: bool, e: Event)
    requires Mirrors(m, s) && DoSettle(s, r, tookEffect).log == s.log + [e]
    ensures Atomic(m, e).Some? && Mirrors(Atomic(m, e).value, DoSettle(s, r, tookEffect))
  {
    assert e == DoSettle(s, r, tookEffect).log[|s.log|];
  }

  /** A step that writes no event leaves the table alone and makes nobody an owner. */
  lemma QuietMirrors(m: map<Key, Cell>, s: State, a: Action)
    requires Mirrors(m, s) && Do(s, a).log == s.log
    ensures Mirrors(m, Do(s, a))
  {
  }

  /** One step is a step of the atomic map, or none. */
  lemma AtomicStep(s: State, a: Action)
    requires Inv(s)
    ensures var log := Do(s, a).log; Atomically(log).Some? && Mirrors(Atomically(log).value, Do(s, a))
  {
    var t, m := Do(s, a), Atomically(s.log).value;
    if t.log == s.log {
      QuietMirrors(m, s, a);
    } else {
      var e := t.log[|s.log|];
      assert t.log == s.log + [e];
      AtomicallyAppend(s.log, e);
      EventIsAtomic(m, s, a, e);
    }
  }

  // --- Each request by itself -----------------------------------------------------

  /** What request r's handler did to its response, in order. */
  function OpsOf(log: seq<Event>, r: nat): seq<HandlerOp> {
    if log == [] then []
    else
      var e := log[|log| - 1];
      OpsOf(log[..|log| - 1], r) + (if e.Handled? && e.r == r then [e.op] else [])
  }

  function RespondAll(ops: seq<HandlerOp>): Response {
    if ops == [] then FRESH_RESPONSE
    else Respond(RespondAll(ops[..|ops| - 1]), ops[|ops| - 1])
  }

  predicate Before(s: State, r: nat) {
    r !in s.phases || s.phases[r].Looking? || s.phases[r].Claiming?
  }

  /** A request handles nothing before its claim, and nothing after it has finished. */
  ghost predicate RequestInv(s: State, r: nat) {
    var res := RespondAll(OpsOf(s.log, r));
    && (Before(s, r) ==>
      OpsOf(s.log, r) == [] && forall e :: e in s.log && e.Finished? ==> e.r != r)
    && (r in s.phases && s.phases[r].Handling? ==>
      s.phases[r].res == res && forall e :: e in s.log && e.Finished? ==> e.r != r)
    && (forall e :: e in s.log && e.Finished? && e.r == r ==>
      e.status == res.statusCode && e.body == Stored(res.captured) && Some(e.wire) == res.wire)
  }

  lemma OpsAppend(log: seq<Event>, e: Event, r: nat)
    ensures OpsOf(log + [e], r) == OpsOf(log, r) + (if e.Handled? && e.r == r then [e.op] else [])
  {
  }

  lemma RespondAppend(ops: seq<HandlerOp>, op: HandlerOp)
    ensures RespondAll(ops + [op]) == Respond(RespondAll(ops), op)
  {
  }

  /** A step moves one request only, and writes at most one event, about that request. */
  lemma OneRequest(s: State, a: Action)
    ensures var t := Do(s, a);
      && (forall r :: r != a.r ==> (r in s.phases <==> r in t.phases))
      && (forall r :: r != a.r && r in s.phases ==> s.phases[r] == t.phases[r])
      && (t.log == s.log
          || (|t.log| == |s.log| + 1 && t.log == s.log + [t.log[|s.log|]] && t.log[|s.log|].r == a.r))
  {
  }

  lemma RequestElsewhere(s: State, a: Action, r: nat)
    requires RequestInv(s, r) && a.r != r
    ensures RequestInv(Do(s, a), r)
  {
    var t := Do(s, a);
    OneRequest(s, a);
    if t.log != s.log {
      OpsAppend(s.log, t.log[|s.log|], r);
    }
    assert OpsOf(t.log, r) == OpsOf(s.log, r);
    assert forall e :: e in t.log && e.r == r ==> e in s.log;
  }

  lemma HandledLog(s: State, r: nat, op: HandlerOp)
    requires r in s.phases && s.phases[r].Handling?
    ensures var t := DoHandle(s, r, op);
      && OpsOf(t.log, r) == OpsOf(s.log, r) + [op]
      && forall f: Event :: f.Finished? ==> (f in t.log <==> f in s.log)
  {
    var Handling(k, res) := s.phases[r];
    OpsAppend(s.log, Handled(r, k, op, SentBy(res, op)), r);
  }

  /** A request that is handling, with the response its operations make, and has not finished. */
  lemma RequestHandling(t: State, r: nat, ops: seq<HandlerOp>)
    requires r in t.phases && t.phases[r].Handling? && t.phases[r].res == RespondAll(ops) && OpsOf(t.log, r) == ops
    requires forall e: Event :: e in t.log && e.Finished? ==> e.r != r
    ensures RequestInv(t, r)
  {
  }

  lemma RequestHandles(s: State, r: nat, op: HandlerOp)
    requires RequestInv(s, r)
    ensures RequestInv(DoHandle(s, r, op), r)
  {
    if r in s.phases && s.phases[r].Handling? {
      var ops := OpsOf(s.log, r);
      HandledLog(s, r, op);
      RespondAppend(ops, op);
      RequestHandling(DoHandle(s, r, op), r, ops + [op]);
    }
  }

  lemma RequestFinishes(s: State, r: nat)
    requires RequestInv(s, r)
    ensures RequestInv(DoFinish(s, r), r)
  {
    var t := DoFinish(s, r);
    if t.log != s.log {
      OpsAppend(s.log, t.log[|s.log|], r);
      assert OpsOf(t.log, r) == OpsOf(s.log, r);
    }
  }

  lemma OtherEvent(log: seq<Event>, e: Event, r: nat)
    requires !e.Handled? && !e.Finished?
    ensures OpsOf(log + [e], r) == OpsOf(log, r)
    ensures forall f: Event :: f.Finished? ==> (f in log + [e] <==> f in log)
  {
    OpsAppend(log, e, r);
  }

  /** Only the handler's own steps and the finish write what a request's response is about. */
  lemma OtherStep(s: State, a: Action)
    requires !a.Handle? && !a.Finish?
    ensures var t := Do(s, a);
            t.log == s.log || exists e: Event :: t.log == s.log + [e] && !e.Handled? && !e.Finished?
  {
    var t := Do(s, a);
    if t.log != s.log { assert t.log == s.log + [t.log[|s.log|]]; }
  }

  lemma OtherPhase(s: State, a: Action)
    requires !a.Handle? && !a.Finish?
    ensures var t := Do(s, a);
      && (Before(t, a.r) ==> Before(s, a.r))
      && (a.r in t.phases && t.phases[a.r].Handling? ==>
        (Before(s, a.r) && t.phases[a.r].res == FRESH_RESPONSE)
        || (a.r in s.phases && s.phases[a.r] == t.phases[a.r]))
  {
  }

  lemma RequestAdvances(s: State, a: Action)
    requires RequestInv(s, a.r) && !a.Handle? && !a.Finish?
    ensures RequestInv(Do(s, a), a.r)
  {
    OtherPhase(s, a);
    OtherLog(s, a);
  }

  lemma OtherLog(s: State, a: Action)
    requires !a.Handle? && !a.Finish?
    ensures OpsOf(Do(s, a).log, a.r) == OpsOf(s.log, a.r)
    ensures forall f: Event :: f.Finished? ==> (f in Do(s, a).log <==> f in s.log)
  {
    var t := Do(s, a);
    OtherStep(s, a);
    if t.log != s.log {
      var e: Event :| t.log == s.log + [e] && !e.Handled? && !e.Finished?;
      OtherEvent(s.log, e, a.r);
    }
  }

  lemma RequestStep(s: State, a: Action, r: nat)
    requires RequestInv(s, r)
    ensures RequestInv(Do(s, a), r)
  {
    if a.r != r {
      RequestElsewhere(s, a, r);
    } else if a.Handle? {
      RequestHandles(s, r, a.op);
    } else if a.Finish? {
      RequestFinishes(s, r);
    } else {
      RequestAdvances(s, a);
    }
  }

  // --- Whole runs -------------------------------------------------------------------

  ghost predicate Good(s: State) {
    Inv(s) && forall r :: RequestInv(s, r)
  }

  lemma GoodStep(s: State, a: Action)
    requires Good(s)
    ensures Good(Do(s, a))
  {
    forall k ensures KeyInv(Do(s, a), k) { KeyStep(s, a, k); }
    AtomicStep(s, a);
    forall r ensures RequestInv(Do(s, a), r) { RequestStep(s, a, r); }
  }

  lemma {:induction false} GoodRun(s: State, schedule: seq<Action>)
    requires Good(s)
    ensures Good(Run(s, schedule))
    decreases schedule
  {
    if schedule != [] {
      GoodStep(s, schedule[0]);
      GoodRun(Do(s, schedule[0]), schedule[1..]);
    }
  }

  lemma GoodAlways(s: State)
    requires Reachable(s)
    ensures Good(s)
  {
    var schedule :| Run(INITIAL, schedule) == s;
    GoodRun(INITIAL, schedule);
  }
}
