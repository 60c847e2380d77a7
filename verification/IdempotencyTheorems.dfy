/** The promises of the idempotency protocol, for every interleaving of any number of requests. */
module IdempotencyTheorems {
  import opened Text
  import opened Idempotency
  import opened IdempotencyProofs
  import opened IdempotencyRuns

  // --- Refinement ---------------------------------------------------------------

  /** The history of every run is one the atomic map allows, and it leads there to the map the table shows. */
  lemma RefinesAtomicMap(s: State)
    requires Reachable(s)
    ensures Atomically(s.log).Some? && Mirrors(Atomically(s.log).value, s)
  {
    GoodAlways(s);
  }

  /** What one indivisible claim-or-read would answer. */
  function Fused(m: map<Key, Cell>, r: nat, k: Key): Event {
    if k !in m then Claimed(r, k)
    else if m[k].InFlight? then Refused(r, k)
    else Replayed(r, k, m[k].status, m[k].body)
  }

  lemma {:induction false} PrefixAllowed(log: seq<Event>, i: nat)
    requires i < |log| && Atomically(log).Some?
    ensures Atomically(log[..i]).Some? && Atomic(Atomically(log[..i]).value, log[i]).Some?
  {
    var last := |log| - 1;
    if i < last {
      PrefixAllowed(log[..last], i);
      assert log[..last][..i] == log[..i];
    }
  }

  /**
   Splitting the claim-or-read into look-up and insert adds no answer, in any run: each answer is the
   one the indivisible step would have given at that moment, or a refusal while the row existed.
   */
  lemma SplitAddsOnlyRefusals(s: State, i: nat)
    requires Reachable(s) && i < |s.log| && (s.log[i].Claimed? || s.log[i].Replayed? || s.log[i].Refused?)
    ensures Atomically(s.log[..i]).Some?
    ensures var m, e := Atomically(s.log[..i]).value, s.log[i];
            e == Fused(m, e.r, e.k) || (e.Refused? && e.k in m)
  {
    RefinesAtomicMap(s);
    PrefixAllowed(s.log, i);
  }

  /** A request that runs its steps undisturbed gets exactly the indivisible answer. */
  lemma UndisturbedAnswer(s: State, n: nat, q: Request)
    requires Reachable(s) && n !in s.phases && Admit(q).Admitted?
    ensures Atomically(s.log).Some?
    ensures Run(s, Claiming3(n, q)).log == s.log + [Fused(Atomically(s.log).value, n, Admit(q).k)]
  {
    RefinesAtomicMap(s);
    var k := Admit(q).k;
    if k in s.rows {
      RunThree(s, Arrive(n, q), Lookup(n), Claim(n));
      var s1 := State(s.rows, s.phases[n := Looking(k)], s.log);
      assert DoArrive(s, n, q) == s1;
      AnsweredAlone(s1, n, k);
    } else {
      ClaimsAlone(s, n, q);
    }
  }

  /** An answer at the look-up is final. */
  lemma AnsweredAlone(s: State, n: nat, k: Key)
    requires n in s.phases && s.phases[n] == Looking(k) && k in s.rows
    ensures var row := s.rows[k];
      DoClaim(DoLookup(s, n), n).log
      == s.log + [if row.responseStatus.None? then Refused(n, k)
                  else Replayed(n, k, row.responseStatus.value, Stored(row.responseBody))]
  {
    assert DoClaim(DoLookup(s, n), n) == DoLookup(s, n);
  }

  // --- At most once ---------------------------------------------------------------

  /** Claims are releases plus one for a present row; one owner at a time; one success ever. */
  lemma AtMostOnce(s: State, k: Key)
    requires Reachable(s)
    ensures Tally(s.log, k, Claims) == Tally(s.log, k, Releases) + (if k in s.rows then 1 else 0)
    ensures forall r, q ::
              r in s.phases && q in s.phases && Owns(s.phases[r], k) && Owns(s.phases[q], k) ==> r == q
    ensures Owned(s, k) ==> k in s.rows && s.rows[k] == PLACEHOLDER
    ensures Tally(s.log, k, Successes) <= 1
  {
    GoodAlways(s);
    assert KeyInv(s, k);
  }

  // --- Write once -------------------------------------------------------------------

  predicate IsRecorded(s: State, k: Key) {
    k in s.rows && s.rows[k].responseStatus.Some?
  }

  lemma RecordedStays(s: State, a: Action, k: Key)
    requires KeyInv(s, k) && IsRecorded(s, k)
    ensures IsRecorded(Do(s, a), k) && Do(s, a).rows[k] == s.rows[k]
  {
    if Concerns(s, a.r, k) {
      assert !Owns(s.phases[a.r], k);
    } else {
      Elsewhere(s, a, k);
    }
  }

  /** A recorded row never changes, whatever happens after. */
  lemma {:induction false} WriteOnce(s: State, schedule: seq<Action>, k: Key)
    requires Reachable(s) && IsRecorded(s, k)
    ensures IsRecorded(Run(s, schedule), k) && Run(s, schedule).rows[k] == s.rows[k]
    decreases schedule
  {
    if schedule != [] {
      GoodAlways(s);
      assert KeyInv(s, k);
      RecordedStays(s, schedule[0], k);
      ReachableStep(s, schedule[0]);
      WriteOnce(Do(s, schedule[0]), schedule[1..], k);
    }
  }

  // --- Replays ------------------------------------------------------------------------

  lemma {:induction false} TallyHas(log: seq<Event>, e: Event, k: Key, kind: Kind)
    requires e in log && Counts(e, k, kind)
    ensures Tally(log, k, kind) >= 1
  {
    var last := |log| - 1;
    if e in log[..last] { TallyHas(log[..last], e, k, kind); } else { assert e == log[last]; }
  }

  lemma {:induction false} TallyOne(log: seq<Event>, e: Event, f: Event, k: Key, kind: Kind)
    requires e in log && f in log && Counts(e, k, kind) && Counts(f, k, kind)
    requires Tally(log, k, kind) == 1
    ensures e == f
  {
    var last := |log| - 1;
    if Counts(log[last], k, kind) {
      if e != log[last] { TallyHas(log[..last], e, k, kind); }
      if f != log[last] { TallyHas(log[..last], f, k, kind); }
    } else {
      TallyOne(log[..last], e, f, k, kind);
    }
  }

  /**
   Every replay returns the status its key's one successful execution finished with, and the body
   that execution last passed to `res.json`.
   */
  lemma ReplaysTheOwner(s: State, e: Event) returns (f: Event)
    requires Reachable(s) && e in s.log && e.Replayed?
    ensures f in s.log && f.Finished? && f.k == e.k && f.status < 500
    ensures forall g :: g in s.log && g.Finished? && g.k == e.k && g.status < 500 ==> g == f
    ensures var res := RespondAll(OpsOf(s.log, f.r));
            e.status == res.statusCode && e.body == Stored(res.captured) && Some(f.wire) == res.wire
  {
    GoodAlways(s);
    assert KeyInv(s, e.k);
    var r, status, body, wire :| Finished(r, e.k, status, body, wire) in s.log && status < 500
                                 && Tally(s.log, e.k, Successes) == 1
                                 && s.rows[e.k] == Row(Some(status), Some(body));
    f := Finished(r, e.k, status, body, wire);
    assert RequestInv(s, r);
    forall g | g in s.log && g.Finished? && g.k == e.k && g.status < 500 ensures g == f {
      TallyOne(s.log, f, g, e.k, Successes);
    }
  }

  // --- Keys that nobody can finish --------------------------------------------------------

  /** A claim whose owner is gone. */
  ghost predicate Orphaned(s: State, k: Key) {
    k in s.rows && s.rows[k] == PLACEHOLDER && !Owned(s, k)
  }

  /** Everything `t` adds to the history of `s` about this key is a refusal. */
  ghost predicate OnlyRefusals(s: State, t: State, k: Key) {
    && s.log <= t.log
    && forall i :: |s.log| <= i < |t.log| && About(t.log[i], k) ==> t.log[i].Refused?
  }

  lemma OrphanStep(s: State, a: Action, k: Key)
    requires Orphaned(s, k)
    ensures Orphaned(Do(s, a), k) && OnlyRefusals(s, Do(s, a), k)
  {
    var t := Do(s, a);
    OneRequest(s, a);
    if Concerns(s, a.r, k) {
      assert !Owns(s.phases[a.r], k);
      assert forall r :: r in t.phases && Owns(t.phases[r], k) ==> r in s.phases && s.phases[r] == t.phases[r];
    } else {
      Elsewhere(s, a, k);
    }
  }

  /** An orphaned key stays orphaned, and every later request with it is refused. */
  lemma {:induction false} OrphanedForever(s: State, schedule: seq<Action>, k: Key)
    requires Orphaned(s, k)
    ensures Orphaned(Run(s, schedule), k) && OnlyRefusals(s, Run(s, schedule), k)
    decreases schedule
  {
    if schedule != [] {
      OrphanStep(s, schedule[0], k);
      OrphanedForever(Do(s, schedule[0]), schedule[1..], k);
    }
  }

  /** Such a claim is left behind by any request that is lost right after its insert. */
  lemma LostAfterClaiming(s: State, n: nat, q: Request)
    requires Reachable(s) && n !in s.phases && Admit(q).Admitted? && Admit(q).k !in s.rows
    ensures var t := Run(s, Claiming3(n, q) + [Crash(n)]);
            Reachable(t) && Orphaned(t, Admit(q).k)
  {
    var k := Admit(q).k;
    RefinesAtomicMap(s);
    ClaimsAlone(s, n, q);
    RunThen(s, Claiming3(n, q), [Crash(n)]);
    RunOne(Run(s, Claiming3(n, q)), Crash(n));
    ReachableRun(s, Claiming3(n, q) + [Crash(n)]);
    assert forall r :: r in s.phases ==> !Owns(s.phases[r], k);
  }

  /** And by any request whose insert takes effect but is reported as failed. */
  lemma ReportedAfterClaiming(s: State, r: nat)
    requires Reachable(s) && r in s.phases && s.phases[r].Claiming? && s.phases[r].k !in s.rows
    ensures var t := Do(s, ClaimFails(r, true)); Reachable(t) && Orphaned(t, s.phases[r].k)
  {
    var k := s.phases[r].k;
    RefinesAtomicMap(s);
    RunOne(s, ClaimFails(r, true));
    ReachableRun(s, [ClaimFails(r, true)]);
    assert forall q :: q in s.phases ==> !Owns(s.phases[q], k);
  }

  /** In particular by the very first request. */
  lemma FirstRequestLost(q: Request)
    requires Admit(q).Admitted?
    ensures var t := Run(INITIAL, Claiming3(0, q) + [Crash(0)]);
            Reachable(t) && Orphaned(t, Admit(q).k)
  {
    InitialReachable();
    LostAfterClaiming(INITIAL, 0, q);
  }

  lemma SettlingEnds(s: State, r: nat, k: Key)
    requires r in s.phases && s.phases[r].Settling? && s.phases[r].k == k
    requires k in s.rows && s.rows[k] == PLACEHOLDER
    ensures var t := DoSettle(s, r, true); k !in t.rows || IsRecorded(t, k)
  {
  }

  function WayOut(r: nat): seq<Action> { [Handle(r, SendOther), Finish(r), Settle(r, true)] }

  lemma WayOutRuns(s: State, r: nat)
    ensures Run(s, WayOut(r)) == DoSettle(DoFinish(DoHandle(s, r, SendOther), r), r, true)
  {
    RunThree(s, Handle(r, SendOther), Finish(r), Settle(r, true));
  }

  lemma SendsAndFinishes(s: State, r: nat, k: Key)
    requires r in s.phases && Owns(s.phases[r], k)
    ensures var t := DoFinish(DoHandle(s, r, SendOther), r);
      t.rows == s.rows && r in t.phases && t.phases[r].Settling? && t.phases[r].k == k
  {
  }

  /** An owner can still send something, finish and settle. */
  lemma OwnerCanFinish(s: State, r: nat, k: Key)
    requires Ownership(s, k) && r in s.phases && Owns(s.phases[r], k)
    ensures var t := Run(s, WayOut(r));
            k !in t.rows || IsRecorded(t, k)
  {
    WayOutRuns(s, r);
    SendsAndFinishes(s, r, k);
    SettlingEnds(DoFinish(DoHandle(s, r, SendOther), r), r, k);
  }

  /** From a claimed row, a way out exists if and only if a request owns the key. */
  lemma ResolvableIffOwned(s: State, k: Key)
    requires Reachable(s) && k in s.rows && s.rows[k] == PLACEHOLDER
    ensures (exists schedule :: var t := Run(s, schedule); k !in t.rows || IsRecorded(t, k)) <==> Owned(s, k)
  {
    if Owned(s, k) {
      var r :| r in s.phases && Owns(s.phases[r], k);
      GoodAlways(s);
      assert KeyInv(s, k);
      OwnerCanFinish(s, r, k);
    } else {
      forall schedule ensures var t := Run(s, schedule); k in t.rows && !IsRecorded(t, k) {
        OrphanedForever(s, schedule, k);
      }
    }
  }

  // --- Refusals ------------------------------------------------------------------------

  predicate Asking(s: State, r: nat) {
    r in s.phases && (s.phases[r].Looking? || s.phases[r].Claiming?)
  }

  /** The next step of a request that has not been answered. */
  function Ask(s: State, r: nat): Action
    requires Asking(s, r)
  {
    if s.phases[r].Looking? then Lookup(r) else Claim(r)
  }

  /** A refusal without a request in flight: the owner was lost, or the row was recorded after the look-up. */
  ghost predicate FalselyRefused(s: State, r: nat)
    requires Asking(s, r)
  {
    var k := s.phases[r].k;
    Orphaned(s, k) || (IsRecorded(s, k) && s.phases[r].Claiming?)
  }

  /**
   A request is refused if and only if another one is in flight with its key, or one of these two; and
   never for more than one of the three reasons.
   */
  lemma RefusedIff(s: State, r: nat)
    requires Reachable(s) && Asking(s, r)
    ensures var k := s.phases[r].k;
      && (Do(s, Ask(s, r)).log == s.log + [Refused(r, k)] <==> Owned(s, k) || FalselyRefused(s, r))
      && !(Owned(s, k) && FalselyRefused(s, r))
  {
    GoodAlways(s);
    assert KeyInv(s, s.phases[r].k);
    RefusalStep(s, r);
  }

  lemma RefusalStep(s: State, r: nat)
    requires Asking(s, r)
    ensures var k := s.phases[r].k;
      Do(s, Ask(s, r)).log == s.log + [Refused(r, k)]
      <==> k in s.rows && (s.rows[k].responseStatus.None? || s.phases[r].Claiming?)
  {
    var t := Do(s, Ask(s, r));
    assert t.log != s.log ==> t.log[|s.log|] == (s.log + [t.log[|s.log|]])[|s.log|];
  }

  /** Every refusal in a run is written by such a step. */
  lemma RefusalsAreAsked(s: State, a: Action, r: nat, k: Key)
    requires Do(s, a).log == s.log + [Refused(r, k)]
    ensures Asking(s, r) && s.phases[r].k == k && a == Ask(s, r)
  {
    assert Do(s, a).log[|s.log|] == Refused(r, k);
  }

  /** Whoever has already found the key absent. */
  predicate Stragglers(s: State, t: State, k: Key) {
    forall r :: r in t.phases && t.phases[r] == Claiming(k) ==> r in s.phases && s.phases[r] == Claiming(k)
  }

  /** The answer of a recorded row, or a refusal of a request that looked the key up before it was there. */
  predicate AnswersRecorded(s: State, k: Key, e: Event)
    requires IsRecorded(s, k)
  {
    || e == Replayed(e.r, k, s.rows[k].responseStatus.value, Stored(s.rows[k].responseBody))
    || (e == Refused(e.r, k) && e.r in s.phases && s.phases[e.r] == Claiming(k))
  }

  lemma AnswerStep(s: State, now: State, a: Action, k: Key)
    requires KeyInv(now, k) && IsRecorded(s, k) && IsRecorded(now, k) && now.rows[k] == s.rows[k]
    requires Stragglers(s, now, k)
    ensures var t := Do(now, a);
      && Stragglers(s, t, k)
      && (t.log == now.log
          || exists e: Event :: t.log == now.log + [e] && (About(e, k) ==> AnswersRecorded(s, k, e)))
  {
    OneRequest(now, a);
    var t := Do(now, a);
    if Concerns(now, a.r, k) {
      assert !Owns(now.phases[a.r], k);
    } else {
      NothingAbout(now, a, k);
    }
  }

  lemma {:induction false} AnswersFrom(s: State, now: State, schedule: seq<Action>, k: Key)
    requires Reachable(now) && IsRecorded(s, k) && IsRecorded(now, k) && now.rows[k] == s.rows[k]
    requires Stragglers(s, now, k)
    ensures var t := Run(now, schedule);
      && now.log <= t.log
      && forall i :: |now.log| <= i < |t.log| && About(t.log[i], k) ==> AnswersRecorded(s, k, t.log[i])
    decreases schedule
  {
    if schedule != [] {
      var next := Do(now, schedule[0]);
      GoodAlways(now);
      assert KeyInv(now, k);
      AnswerStep(s, now, schedule[0], k);
      RecordedStays(now, schedule[0], k);
      ReachableStep(now, schedule[0]);
      AnswersFrom(s, next, schedule[1..], k);
    }
  }

  /**
   Once a key is recorded, all that any continuation adds about it are replays of exactly that row, and
   refusals of requests that were between their look-up and their insert at that moment.
   */
  lemma AnsweredOnceRecorded(s: State, schedule: seq<Action>, k: Key)
    requires Reachable(s) && IsRecorded(s, k)
    ensures var t := Run(s, schedule);
      && s.log <= t.log
      && forall i :: |s.log| <= i < |t.log| && About(t.log[i], k) ==> AnswersRecorded(s, k, t.log[i])
  {
    AnswersFrom(s, s, schedule, k);
  }

  // --- Settling ------------------------------------------------------------------------

  /** A 5xx frees the key, anything else stores what was captured; the table is not otherwise touched. */
  lemma SettlingDecides(s: State, r: nat)
    requires Reachable(s) && r in s.phases && s.phases[r].Settling?
    ensures Atomically(s.log).Some?
    ensures var Settling(k, status, body, _), m := s.phases[r], Atomically(s.log).value;
      Atomically(Do(s, Settle(r, true)).log) == Some(if status >= 500 then m - {k} else m[k := Done(status, body)])
  {
    RefinesAtomicMap(s);
    var Settling(k, status, body, _) := s.phases[r];
    AtomicallyAppend(s.log, if status >= 500 then Released(r, k) else Recorded(r, k, status, body));
  }

  // --- Admission -------------------------------------------------------------------------

  /** The three checks in their order, and the key of whoever passes them. */
  lemma AdmissionMeans(q: Request)
    ensures q.userId.None? <==> Admit(q) == Denied(Unauthorized)
    ensures q.userId.Some? && (q.header.None? || q.header == Some("")) <==> Admit(q) == Denied(HeaderMissing)
    ensures Admit(q).Admitted? <==>
      q.userId.Some? && q.header.Some? && q.header.value != "" && 8 <= |Trim(q.header.value)| <= 255
    ensures Admit(q).Admitted? ==>
      Admit(q).k == Key(q.userId.value, q.verb + ":" + q.baseUrl + q.routePath, Trim(q.header.value))
  {
  }

  /** A request that is not admitted is answered with the reason and takes no further step. */
  lemma DeniedIsOver(s: State, r: nat, q: Request)
    requires r !in s.phases && Admit(q).Denied?
    ensures var t := Do(s, Arrive(r, q));
      t == State(s.rows, s.phases[r := Closed], s.log + [Rejected(r, Admit(q).reason)])
    ensures forall a: Action :: a.r == r ==> Do(Do(s, Arrive(r, q)), a) == Do(s, Arrive(r, q))
  {
    var t := Do(s, Arrive(r, q));
    assert t.phases[r := Closed] == t.phases;
  }

  /** White space around the header does not matter, and the trimmed key has 8 to 255 characters. */
  lemma PaddedHeader(q: Request, before: string, key: string, after: string)
    requires q.userId.Some? && q.header == Some(before + key + after)
    requires Blank(before) && Blank(after) && Tight(key) && before + key + after != ""
    ensures Admit(q) == if 8 <= |key| <= 255
                        then Admitted(Key(q.userId.value, q.verb + ":" + q.baseUrl + q.routePath, key))
                        else Denied(BadLength)
  {
    TrimPadded(before, key, after);
  }

  /** Two requests share a key if and only if user, method, mounted route and trimmed header agree. */
  lemma SameKeyIff(q: Request, p: Request)
    requires Admit(q).Admitted? && Admit(p).Admitted? && ':' !in q.verb && ':' !in p.verb
    ensures Admit(q).k == Admit(p).k
            <==> q.userId == p.userId && q.verb == p.verb && q.baseUrl + q.routePath == p.baseUrl + p.routePath
                 && Trim(q.header.value) == Trim(p.header.value)
  {
    CutAt(q.verb, ':', q.baseUrl + q.routePath);
    CutAt(p.verb, ':', p.baseUrl + p.routePath);
    assert Admit(q).k.endpoint == q.verb + [':'] + (q.baseUrl + q.routePath);
    assert Admit(p).k.endpoint == p.verb + [':'] + (p.baseUrl + p.routePath);
  }
}
