/** The timers of the order-book scheduler, and how often they fire. */
module GatewayTimers {
  import opened Text
  import opened Gateway

  lemma Appended(log: seq<Event>, e: Event)
    ensures (log + [e])[..|log|] == log && (log + [e])[|log|] == e
  {
  }

  // --- Timers -------------------------------------------------------------------

  /** `pendingBook` names exactly the armed timers, one for each symbol. */
  ghost predicate TimerInv(s: State) {
    && (forall t :: t in s.timers ==>
      && t < s.nextTimer && s.timers[t].due <= s.now + ORDERBOOK_COALESCE_MS
      && s.timers[t].symbol in s.pendingBook && s.pendingBook[s.timers[t].symbol] == t)
    && (forall symbol :: symbol in s.pendingBook ==>
      s.pendingBook[symbol] in s.timers && s.timers[s.pendingBook[symbol]].symbol == symbol)
  }

  lemma TimerStep(s: State, a: Action)
    requires TimerInv(s)
    ensures TimerInv(Do(s, a))
  {
    match a {
      case Signal(symbol) =>
      case Fire(timer) =>
      case Subscribe(_, _) =>
      case _ => IsQuiet(s, a);
    }
  }

  // --- How often ------------------------------------------------------------------

  /** The times at which snapshots of a symbol were started by a timer. */
  function TimedStarts(log: seq<Event>, symbol: string): seq<nat> {
    if log == [] then []
    else
      var e := log[|log| - 1];
      TimedStarts(log[..|log| - 1], symbol)
      + (if e.Started? && e.symbol == symbol && e.timed then [e.at] else [])
  }

  ghost predicate Spaced(times: seq<nat>) {
    forall i :: 0 < i < |times| ==> times[i - 1] + ORDERBOOK_COALESCE_MS <= times[i]
  }

  ghost predicate RateInv(s: State, symbol: string) {
    var times := TimedStarts(s.log, symbol);
    && Spaced(times)
    && (times != [] ==> times[|times| - 1] <= s.now)
    && (symbol in s.pendingBook && times != [] && s.pendingBook[symbol] in s.timers ==>
      times[|times| - 1] + ORDERBOOK_COALESCE_MS <= s.timers[s.pendingBook[symbol]].due)
    && |times| + (if symbol in s.pendingBook then 1 else 0) <= Changes(s.log, symbol)
  }

  /** Events that are neither a signal nor a timed start leave the count alone. */
  lemma RateLog(log: seq<Event>, e: Event, symbol: string)
    ensures Changes(log + [e], symbol) == Changes(log, symbol) + (if e == Signalled(symbol) then 1 else 0)
    ensures TimedStarts(log + [e], symbol)
            == TimedStarts(log, symbol) + (if e.Started? && e.symbol == symbol && e.timed then [e.at] else [])
  {
    Appended(log, e);
  }

  lemma SnapshotRate(s: State, other: string, timed: bool, symbol: string)
    requires RateInv(s, symbol)
    requires timed && other == symbol ==>
               var times := TimedStarts(s.log, symbol);
               && symbol !in s.pendingBook && |times| < Changes(s.log, symbol)
               && (times != [] ==> times[|times| - 1] + ORDERBOOK_COALESCE_MS <= s.now)
    ensures RateInv(Snapshot(s, other, timed), symbol)
  {
    RateLog(s.log, Started(other, timed, s.now, s.nextRead), symbol);
    var t := Snapshot(s, other, timed);
    var times := TimedStarts(s.log, symbol);
    assert t.log == s.log || TimedStarts(t.log, symbol) == if timed && other == symbol then times + [s.now] else times;
  }

  /** Steps that leave the timers alone and write neither a signal nor a start. */
  ghost predicate Quiet(s: State, t: State) {
    && t.timers == s.timers && t.nextTimer == s.nextTimer && t.pendingBook == s.pendingBook && s.now <= t.now
    && (t.log == s.log || exists e :: t.log == s.log + [e] && !e.Started? && !e.Signalled?)
  }

  lemma QuietRate(s: State, t: State, symbol: string)
    requires RateInv(s, symbol) && Quiet(s, t)
    ensures RateInv(t, symbol)
  {
    if t.log != s.log {
      var e :| t.log == s.log + [e] && !e.Started? && !e.Signalled?;
      RateLog(s.log, e, symbol);
    }
  }

  lemma IsQuiet(s: State, a: Action)
    requires !a.Subscribe? && !a.Signal? && !a.Fire?
    ensures Quiet(s, Do(s, a))
  {
  }

  lemma SignalRate(s: State, other: string, symbol: string)
    requires RateInv(s, symbol) && TimerInv(s)
    ensures RateInv(DoSignal(s, other), symbol)
  {
    RateLog(s.log, Signalled(other), symbol);
  }

  lemma FireRate(s: State, timer: nat, symbol: string)
    requires RateInv(s, symbol) && TimerInv(s)
    ensures RateInv(DoFire(s, timer), symbol)
  {
    if timer in s.timers && s.timers[timer].due <= s.now {
      var other := s.timers[timer].symbol;
      var t := s.(timers := s.timers - {timer}, pendingBook := s.pendingBook - {other});
      SnapshotRate(t, other, true, symbol);
    }
  }

  lemma RateStep(s: State, a: Action, symbol: string)
    requires RateInv(s, symbol) && TimerInv(s)
    ensures RateInv(Do(s, a), symbol)
  {
    match a {
      case Subscribe(sid, room) =>
        if sid in s.sockets && IsMarketRoom(room) {
          var mid := Note(Join(s, sid, room), Subscribed(sid, room));
          assert mid.log == s.log + [Subscribed(sid, room)];
          QuietRate(s, mid, symbol);
          SnapshotRate(mid, SymbolFromRoom(room), false, symbol);
        }
      case Signal(other) => SignalRate(s, other, symbol);
      case Fire(timer) => FireRate(s, timer, symbol);
      case _ =>
        IsQuiet(s, a);
        QuietRate(s, Do(s, a), symbol);
    }
  }

  /** How many of the times lie in a window. */
  function CountIn(times: seq<nat>, from: nat, to: nat): nat {
    if times == [] then 0
    else CountIn(times[..|times| - 1], from, to) + (if from <= times[|times| - 1] <= to then 1 else 0)
  }

  lemma {:induction false} SpacedCount(times: seq<nat>, from: nat, to: nat)
    requires Spaced(times)
    ensures var least := from + ORDERBOOK_COALESCE_MS * (CountIn(times, from, to) - 1);
      CountIn(times, from, to) == 0 || exists i :: 0 <= i < |times| && least <= times[i] <= to
  {
    if times != [] {
      var last := |times| - 1;
      var rest := times[..last];
      SpacedCount(rest, from, to);
      if from <= times[last] <= to {
        var n := CountIn(rest, from, to);
        if n > 0 {
          var i :| 0 <= i < last && from + ORDERBOOK_COALESCE_MS * (n - 1) <= rest[i] <= to;
          SpacedFar(times, i, last);
        }
        assert from + ORDERBOOK_COALESCE_MS * n <= times[last];
      } else if CountIn(rest, from, to) > 0 {
        var i :| 0 <= i < last && from + ORDERBOOK_COALESCE_MS * (CountIn(rest, from, to) - 1) <= rest[i] <= to;
        assert times[i] == rest[i];
      }
    }
  }

  lemma {:induction false} SpacedFar(times: seq<nat>, i: nat, j: nat)
    requires Spaced(times) && i < j < |times|
    ensures times[i] + ORDERBOOK_COALESCE_MS <= times[j]
  {
    if i + 1 < j { SpacedFar(times, i, j - 1); }
    assert times[j - 1] + ORDERBOOK_COALESCE_MS <= times[j];
  }

  // --- Theorems ------------------------------------------------------------------------

  lemma {:induction false} TimersRun(s: State, schedule: seq<Action>, symbol: string)
    requires TimerInv(s) && RateInv(s, symbol)
    ensures TimerInv(Run(s, schedule)) && RateInv(Run(s, schedule), symbol)
    decreases schedule
  {
    if schedule != [] {
      TimerStep(s, schedule[0]);
      RateStep(s, schedule[0], symbol);
      TimersRun(Do(s, schedule[0]), schedule[1..], symbol);
    }
  }

  lemma TimersAlways(s: State, symbol: string)
    requires Reachable(s)
    ensures TimerInv(s) && RateInv(s, symbol)
  {
    var supported, schedule :| s == Run(Initial(supported), schedule);
    TimersRun(Initial(supported), schedule, symbol);
  }

  /** At most one timer a symbol is armed, exactly when the symbol is pending, and it is due within 150 ms. */
  lemma OneTimerPerSymbol(s: State, symbol: string)
    requires Reachable(s)
    ensures forall i, j :: i in s.timers && j in s.timers && s.timers[i].symbol == s.timers[j].symbol ==> i == j
    ensures symbol in s.pendingBook
            <==> exists i :: i in s.timers && s.timers[i].symbol == symbol
                             && s.timers[i].due <= s.now + 150
  {
    TimersAlways(s, symbol);
    if symbol in s.pendingBook { assert s.pendingBook[symbol] in s.timers; }
  }

  lemma WindowCount(times: seq<nat>, from: nat, span: nat)
    requires Spaced(times)
    ensures CountIn(times, from, from + span) <= span / ORDERBOOK_COALESCE_MS + 1
  {
    SpacedCount(times, from, from + span);
  }

  /** Timed snapshots of a symbol: at most T / 150 + 1 in T milliseconds, never more than signals. */
  lemma TimedSnapshotRate(s: State, symbol: string, from: nat, span: nat)
    requires Reachable(s)
    ensures CountIn(TimedStarts(s.log, symbol), from, from + span) <= span / 150 + 1
    ensures |TimedStarts(s.log, symbol)| <= Changes(s.log, symbol)
  {
    TimersAlways(s, symbol);
    WindowCount(TimedStarts(s.log, symbol), from, span);
  }
}
