/**
 The middleware as it runs: a table that is updated in place, and one method for each stretch of
 code between two waits. Every method is proved to be one step of the protocol in `Idempotency`.
 */
module IdempotencyServer {
  import opened Text
  import opened Idempotency
  import opened IdempotencyProofs
  import opened IdempotencyRuns
  import opened IdempotencyTheorems

  /** Whether a write reports an error of its own, and if so whether it had taken effect by then. */
  datatype Fault = NoFault | FaultBefore | FaultAfter

  class Table {
    var rows: map<Key, Row>

    constructor ()
      ensures rows == map[]
    {
      rows := map[];
    }

    method FindUnique(k: Key) returns (row: Option<Row>)
      ensures row.Some? <==> k in rows
      ensures row.Some? ==> row.value == rows[k]
    {
      row := if k in rows then Some(rows[k]) else None;
    }

    /** Inserts a placeholder unless the unique index objects. */
    method Create(k: Key) returns (violation: bool)
      modifies this
      ensures violation <==> k in old(rows)
      ensures rows == if violation then old(rows) else old(rows)[k := PLACEHOLDER]
    {
      violation := k in rows;
      if !violation { rows := rows[k := PLACEHOLDER]; }
    }

    /** Deletes the row if its status is still null. */
    method DeletePending(k: Key) returns (count: nat)
      modifies this
      ensures count == if k in old(rows) && old(rows)[k].responseStatus.None? then 1 else 0
      ensures rows == if count == 1 then old(rows) - {k} else old(rows)
    {
      count := 0;
      if k in rows && rows[k].responseStatus.None? {
        rows := rows - {k};
        count := 1;
      }
    }

    /** Overwrites the row whatever it holds; fails when there is none. */
    method Update(k: Key, status: nat, body: Json) returns (found: bool)
      modifies this
      ensures found <==> k in old(rows)
      ensures rows == if found then old(rows)[k := Row(Some(status), Some(body))] else old(rows)
    {
      found := k in rows;
      if found { rows := rows[k := Row(Some(status), Some(body))]; }
    }
  }

  class Middleware {
    const table: Table
    var phases: map<nat, Phase>
    ghost var log: seq<Event>

    ghost function Current(): State
      reads this, table
    {
      State(table.rows, phases, log)
    }

    /** The state is one that the protocol can reach, so all its theorems hold of it. */
    ghost predicate Valid()
      reads this, table
    {
      Reachable(Current())
    }

    constructor ()
      ensures fresh(table) && Current() == INITIAL && Valid()
    {
      table := new Table();
      phases := map[];
      log := [];
      new;
      InitialReachable();
    }

    /** What holds of the table and the history after any calls. */
    lemma Promises(k: Key)
      requires Valid()
      ensures Atomically(log).Some? && table.rows == Rows(Atomically(log).value)
      ensures Tally(log, k, Claims) == Tally(log, k, Releases) + (if k in table.rows then 1 else 0)
      ensures Tally(log, k, Successes) <= 1
    {
      RefinesAtomicMap(Current());
      AtMostOnce(Current(), k);
    }

    /** Up to the first wait: check the caller and the header, then start the look-up. */
    method Enter(r: nat, q: Request) returns (denial: Option<Denial>)
      requires Valid() && r !in phases
      modifies this
      ensures Valid() && Current() == Do(old(Current()), Arrive(r, q))
      ensures denial == match Admit(q) { case Denied(reason) => Some(reason) case Admitted(_) => None }
      ensures denial.None? <==>
        q.userId.Some? && q.header.Some? && q.header.value != "" && 8 <= |Trim(q.header.value)| <= 255
      ensures denial.None? ==> log == old(log) && phases == old(phases)[
        r := Looking(Key(q.userId.value, q.verb + ":" + q.baseUrl + q.routePath, Trim(q.header.value)))]
    {
      ReachableStep(Current(), Arrive(r, q));
      denial := None;
      if q.userId.None? {
        denial := Some(Unauthorized);
      } else if q.header.None? || q.header.value == "" {
        denial := Some(HeaderMissing);
      } else {
        var key := Trim(q.header.value);
        if |key| < KEY_MIN || |key| > KEY_MAX {
          denial := Some(BadLength);
        } else {
          phases := phases[r := Looking(Key(q.userId.value, EndpointId(q), key))];
        }
      }
      if denial.Some? {
        phases := phases[r := Closed];
        log := log + [Rejected(r, denial.value)];
      }
    }

    /** The look-up returns: replay, refuse, or go on to claim the key. */
    method LookedUp(r: nat) returns (replay: Option<(nat, Json)>)
      requires Valid() && r in phases && phases[r].Looking?
      modifies this
      ensures Valid() && Current() == Do(old(Current()), Lookup(r))
      ensures replay.Some? <==> log != old(log) && log[|log| - 1].Replayed?
      ensures replay.Some? ==> log[|log| - 1] == Replayed(r, old(phases)[r].k, replay.value.0, replay.value.1)
    {
      ReachableStep(Current(), Lookup(r));
      var k := phases[r].k;
      replay := None;
      var existing := table.FindUnique(k);
      if existing.Some? {
        phases := phases[r := Closed];
        if existing.value.responseStatus.None? {
          log := log + [Refused(r, k)];
          return;
        }
        replay := Some((existing.value.responseStatus.value, Stored(existing.value.responseBody)));
        log := log + [Replayed(r, k, replay.value.0, replay.value.1)];
        return;
      }
      phases := phases[r := Claiming(k)];
    }

    /** The insert returns: the handler runs only if it took effect without an error. */
    method ClaimReturned(r: nat, fault: Fault) returns (owner: bool)
      requires Valid() && r in phases && phases[r].Claiming?
      modifies this, table
      ensures Valid()
      ensures Current() == Do(old(Current()), if fault.NoFault? then Claim(r) else ClaimFails(r, fault.FaultAfter?))
      ensures owner <==> r in phases && phases[r].Handling?
    {
      ReachableStep(Current(), if fault.NoFault? then Claim(r) else ClaimFails(r, fault.FaultAfter?));
      var k := phases[r].k;
      owner := false;
      if fault.FaultBefore? {
        phases := phases[r := Closed];
        return;
      }
      var violation := table.Create(k);
      if !violation { log := log + [Claimed(r, k)]; }
      if fault.FaultAfter? {
        phases := phases[r := Closed];
        return;
      }
      if violation {
        phases := phases[r := Closed];
        log := log + [Refused(r, k)];
      } else {
        phases := phases[r := Handling(k, FRESH_RESPONSE)];
        owner := true;
      }
    }

    /** `res.status(...)`, the wrapped `res.json(...)`, or any other way to answer. */
    method HandlerDoes(r: nat, op: HandlerOp)
      requires Valid() && r in phases && phases[r].Handling?
      modifies this
      ensures Valid() && Current() == Do(old(Current()), Handle(r, op))
    {
      ReachableStep(Current(), Handle(r, op));
      var Handling(k, res) := phases[r];
      ghost var sent := SentBy(res, op);
      match op {
        case SetStatus(status) => res := res.(statusCode := status);
        case SendJson(body) =>
          res := res.(captured := body);
          if res.wire.None? { res := res.(wire := Some(Wire(res.statusCode, body))); }
        case SendOther =>
          if res.wire.None? { res := res.(wire := Some(Wire(res.statusCode, None))); }
      }
      phases := phases[r := Handling(k, res)];
      log := log + [Handled(r, k, op, sent)];
    }

    /** The `finish` callback up to its wait. */
    method OnFinish(r: nat)
      requires Valid() && r in phases && phases[r].Handling? && phases[r].res.wire.Some?
      modifies this
      ensures Valid() && Current() == Do(old(Current()), Finish(r))
    {
      ReachableStep(Current(), Finish(r));
      var Handling(k, res) := phases[r];
      phases := phases[r := Settling(k, res.statusCode, Stored(res.captured), res.wire.value)];
      log := log + [Finished(r, k, res.statusCode, Stored(res.captured), res.wire.value)];
    }

    /** The final write: release the claim after a 5xx, record the response otherwise. */
    method SettleReturned(r: nat, fault: Fault)
      requires Valid() && r in phases && phases[r].Settling?
      modifies this, table
      ensures Valid() && Current() == Do(old(Current()), Settle(r, !fault.FaultBefore?))
    {
      ReachableStep(Current(), Settle(r, !fault.FaultBefore?));
      var Settling(k, status, body, _) := phases[r];
      phases := phases[r := Closed];
      if fault.FaultBefore? { return; }
      if status >= 500 {
        var count := table.DeletePending(k);
        if count == 1 { log := log + [Released(r, k)]; }
        return;
      }
      var found := table.Update(k, status, body);
      if found { log := log + [Recorded(r, k, status, body)]; }
    }

    /** The request is lost: its connection closed, or its process died. */
    method Lost(r: nat)
      requires Valid() && r in phases
      modifies this
      ensures Valid() && Current() == Do(old(Current()), Crash(r))
    {
      ReachableStep(Current(), Crash(r));
      phases := phases[r := Closed];
    }
  }
}
