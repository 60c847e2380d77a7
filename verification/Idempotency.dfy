/**
 The idempotency protocol: many requests, one table keyed by (user, endpoint, key).

 A request takes separate steps - look up, claim, run the handler, finish, settle - and the steps
 of different requests interleave in any order. A step is one `Action`; an action that is not
 enabled leaves the state alone, so every sequence of actions is a run of the system.
 */
module Idempotency {
  import opened Text

  const KEY_MIN: nat := 8
  const KEY_MAX: nat := 255

  datatype Json = JsonNull | JsonValue(text: string)

  /** The unique index of the table. */
  datatype Key = Key(userId: string, endpoint: string, key: string)

  /** A row; a placeholder has no status yet. */
  datatype Row = Row(responseStatus: Option<nat>, responseBody: Option<Json>)

  const PLACEHOLDER := Row(None, None)

  // --- Admission ------------------------------------------------------------

  datatype Request = Request(userId: Option<string>, header: Option<string>,
                             verb: string, baseUrl: string, routePath: string)

  datatype Denial = Unauthorized | HeaderMissing | BadLength

  datatype Admission = Denied(reason: Denial) | Admitted(k: Key)

  /** Method and mounted route; the query string takes no part. */
  function EndpointId(q: Request): string {
    q.verb + ":" + q.baseUrl + q.routePath
  }

  function Admit(q: Request): Admission {
    if q.userId.None? then Denied(Unauthorized)
    else if q.header.None? || q.header.value == "" then Denied(HeaderMissing)
    else
      var key := Trim(q.header.value);
      if |key| < KEY_MIN || |key| > KEY_MAX then Denied(BadLength)
      else Admitted(Key(q.userId.value, EndpointId(q), key))
  }

  // --- The response object the handler writes to ------------------------------

  /** What the client received; `body` is `None` when it was not sent as JSON. */
  datatype Wire = Wire(status: nat, body: Option<Json>)

  datatype Response = Response(statusCode: nat, captured: Option<Json>, wire: Option<Wire>)

  const FRESH_RESPONSE := Response(200, None, None)

  /** `body` is `None` for `res.json(undefined)`. */
  datatype HandlerOp = SetStatus(status: nat) | SendJson(body: Option<Json>) | SendOther

  /** The wrapped `res.json` captures first and sends second; only the first send reaches the client. */
  function Respond(res: Response, op: HandlerOp): Response {
    match op
    case SetStatus(status) => res.(statusCode := status)
    case SendJson(body) =>
      res.(captured := body, wire := if res.wire.None? then Some(Wire(res.statusCode, body)) else res.wire)
    case SendOther =>
      res.(wire := if res.wire.None? then Some(Wire(res.statusCode, None)) else res.wire)
  }

  function SentBy(res: Response, op: HandlerOp): Option<Wire> {
    if res.wire.None? then Respond(res, op).wire else None
  }

  /** The body that is stored: JSON null when nothing was captured. */
  function Stored(captured: Option<Json>): Json {
    if captured.None? then JsonNull else captured.value
  }

  // --- The system -------------------------------------------------------------

  /** Where a request stands. `Handling` and `Settling` requests own their key. */
  datatype Phase =
    | Looking(k: Key)
    | Claiming(k: Key)
    | Handling(k: Key, res: Response)
    | Settling(k: Key, status: nat, body: Json, wire: Wire)
    | Closed

  datatype Event =
    | Rejected(r: nat, reason: Denial)
    | Claimed(r: nat, k: Key)
    | Refused(r: nat, k: Key)
    | Replayed(r: nat, k: Key, status: nat, body: Json)
      // `sent` is what the client received by this operation.
    | Handled(r: nat, k: Key, op: HandlerOp, sent: Option<Wire>)
    | Finished(r: nat, k: Key, status: nat, body: Json, wire: Wire)
    | Released(r: nat, k: Key)
    | Recorded(r: nat, k: Key, status: nat, body: Json)

  datatype State = State(rows: map<Key, Row>, phases: map<nat, Phase>, log: seq<Event>)

  const INITIAL := State(map[], map[], [])

  datatype Action =
    | Arrive(r: nat, q: Request)
    | Lookup(r: nat)
    | Claim(r: nat)
      // The insert reports an error other than a unique violation, after or without taking effect.
    | ClaimFails(r: nat, tookEffect: bool)
    | Handle(r: nat, op: HandlerOp)
    | Finish(r: nat)
      // The final write reports an error, after or without taking effect.
    | Settle(r: nat, tookEffect: bool)
      // The request disappears, together with its claim on the key's future.
    | Crash(r: nat)

  function Move(s: State, r: nat, p: Phase): State {
    s.(phases := s.phases[r := p])
  }

  function Emit(s: State, e: Event): State {
    s.(log := s.log + [e])
  }

  function DoArrive(s: State, r: nat, q: Request): State {
    if r in s.phases then s
    else match Admit(q)
      case Denied(reason) => Emit(Move(s, r, Closed), Rejected(r, reason))
      case Admitted(k) => Move(s, r, Looking(k))
  }

  /** What the row found decides the answer, so the answer is fixed here. */
  function DoLookup(s: State, r: nat): State {
    if r !in s.phases || !s.phases[r].Looking? then s
    else
      var k := s.phases[r].k;
      if k !in s.rows then Move(s, r, Claiming(k))
      else if s.rows[k].responseStatus.None? then Emit(Move(s, r, Closed), Refused(r, k))
      else Emit(Move(s, r, Closed),
                Replayed(r, k, s.rows[k].responseStatus.value, Stored(s.rows[k].responseBody)))
  }

  function DoClaim(s: State, r: nat): State {
    if r !in s.phases || !s.phases[r].Claiming? then s
    else
      var k := s.phases[r].k;
      if k in s.rows then Emit(Move(s, r, Closed), Refused(r, k))
      else Emit(Move(s, r, Handling(k, FRESH_RESPONSE)), Claimed(r, k)).(rows := s.rows[k := PLACEHOLDER])
  }

  function DoClaimFails(s: State, r: nat, tookEffect: bool): State {
    if r !in s.phases || !s.phases[r].Claiming? then s
    else
      var k := s.phases[r].k;
      if tookEffect && k !in s.rows
      then Emit(Move(s, r, Closed), Claimed(r, k)).(rows := s.rows[k := PLACEHOLDER])
      else Move(s, r, Closed)
  }

  function DoHandle(s: State, r: nat, op: HandlerOp): State {
    if r !in s.phases || !s.phases[r].Handling? then s
    else
      var Handling(k, res) := s.phases[r];
      Emit(Move(s, r, Handling(k, Respond(res, op))), Handled(r, k, op, SentBy(res, op)))
  }

  /** The `finish` callback reads the status and the captured body before it waits for anything. */
  function DoFinish(s: State, r: nat): State {
    if r !in s.phases || !s.phases[r].Handling? || s.phases[r].res.wire.None? then s
    else
      var Handling(k, res) := s.phases[r];
      Emit(Move(s, r, Settling(k, res.statusCode, Stored(res.captured), res.wire.value)),
           Finished(r, k, res.statusCode, Stored(res.captured), res.wire.value))
  }

  /** `deleteMany` is guarded by a null status; `update` has no guard but needs the row. */
  function DoSettle(s: State, r: nat, tookEffect: bool): State {
    if r !in s.phases || !s.phases[r].Settling? then s
    else
      var Settling(k, status, body, _) := s.phases[r];
      var t := Move(s, r, Closed);
      if !tookEffect || k !in s.rows then t
      else if status >= 500 then
        if s.rows[k].responseStatus.Some? then t
        else Emit(t, Released(r, k)).(rows := s.rows - {k})
      else Emit(t, Recorded(r, k, status, body)).(rows := s.rows[k := Row(Some(status), Some(body))])
  }

  function DoCrash(s: State, r: nat): State {
    if r in s.phases then Move(s, r, Closed) else s
  }

  function Do(s: State, a: Action): State {
    match a
    case Arrive(r, q) => DoArrive(s, r, q)
    case Lookup(r) => DoLookup(s, r)
    case Claim(r) => DoClaim(s, r)
    case ClaimFails(r, tookEffect) => DoClaimFails(s, r, tookEffect)
    case Handle(r, op) => DoHandle(s, r, op)
    case Finish(r) => DoFinish(s, r)
    case Settle(r, tookEffect) => DoSettle(s, r, tookEffect)
    case Crash(r) => DoCrash(s, r)
  }

  /** The state after a schedule. */
  function Run(s: State, schedule: seq<Action>): State
    decreases schedule
  {
    if schedule == [] then s else Run(Do(s, schedule[0]), schedule[1..])
  }

  ghost predicate Reachable(s: State) {
    exists schedule :: Run(INITIAL, schedule) == s
  }
}
