/** Sockets that have gone: they are in no room, get nothing, and a room they leave empty is not read for. */
module GatewayDepartures {
  import opened Text
  import opened Gateway
  import opened GatewayRooms

  // --- One socket -----------------------------------------------------------------------

  /** A socket that has been connected and is no longer. */
  predicate Gone(s: State, sid: nat) {
    sid < s.nextSocket && sid !in s.sockets
  }

  predicate Reaches(e: Event, sid: nat) {
    match e
    case Broadcast(_, _, to, _) => sid in to
    case Pushed(_, to) => sid in to
    case _ => false
  }

  /** Events were only added to the history, and none of them reaches the socket. */
  predicate NothingReaches(log: seq<Event>, log2: seq<Event>, sid: nat) {
    log <= log2 && forall i :: |log| <= i < |log2| ==> !Reaches(log2[i], sid)
  }

  /** Disconnecting takes the socket away, with its rooms and its list, and touches nothing else. */
  lemma DisconnectRemoves(s: State, sid: nat)
    ensures var t := Do(s, Disconnect(sid));
      && sid !in t.sockets && (forall room :: sid !in Members(t, room))
      && (forall other :: other != sid ==> (other in t.sockets <==> other in s.sockets))
      && (forall other :: other != sid && other in s.sockets ==> t.sockets[other] == s.sockets[other])
      && t == s.(sockets := t.sockets)
  {
  }

  lemma GoneStep(s: State, a: Action, sid: nat)
    requires Gone(s, sid)
    ensures Gone(Do(s, a), sid) && NothingReaches(s.log, Do(s, a).log, sid)
  {
    match a {
      case Subscribe(other, room) =>
        if other in s.sockets && IsMarketRoom(room) {
          GoneSnapshot(Note(Join(s, other, room), Subscribed(other, room)), SymbolFromRoom(room), false, sid);
        }
      case Fire(timer) =>
        if timer in s.timers && s.timers[timer].due <= s.now {
          var symbol := s.timers[timer].symbol;
          var mid := s.(timers := s.timers - {timer}, pendingBook := s.pendingBook - {symbol});
          GoneSnapshot(mid, symbol, true, sid);
        }
      case _ => GoneOther(s, a, sid);
    }
  }

  lemma GoneSnapshot(s: State, symbol: string, timed: bool, sid: nat)
    requires Gone(s, sid)
    ensures var t := Snapshot(s, symbol, timed); Gone(t, sid) && NothingReaches(s.log, t.log, sid)
  {
  }

  lemma GoneOther(s: State, a: Action, sid: nat)
    requires Gone(s, sid) && !a.Subscribe? && !a.Fire?
    ensures Gone(Do(s, a), sid) && NothingReaches(s.log, Do(s, a).log, sid)
  {
  }

  lemma {:induction false} GoneRun(s: State, schedule: seq<Action>, sid: nat)
    requires Gone(s, sid)
    ensures Gone(Run(s, schedule), sid) && NothingReaches(s.log, Run(s, schedule).log, sid)
    decreases schedule
  {
    if schedule != [] {
      GoneStep(s, schedule[0], sid);
      GoneRun(Do(s, schedule[0]), schedule[1..], sid);
    }
  }

  /** A socket that has disconnected is in no room, never comes back, and nothing sent from then on reaches it. */
  lemma GoneForGood(s: State, sid: nat, schedule: seq<Action>)
    requires Reachable(s) && sid in s.sockets
    ensures var t := Run(Do(s, Disconnect(sid)), schedule);
      && sid !in t.sockets && (forall room :: sid !in Members(t, room))
      && NothingReaches(s.log, t.log, sid)
  {
    ReachableRooms(s);
    assert SocketInv(s, sid);
    GoneRun(Do(s, Disconnect(sid)), schedule, sid);
  }

  // --- Rooms ----------------------------------------------------------------------------

  /** No socket is in the symbol's room. */
  predicate Deserted(s: State, symbol: string) {
    forall sid :: sid in s.sockets ==> "market:" + symbol !in s.sockets[sid].rooms
  }

  predicate Joins(a: Action, symbol: string) {
    a.Subscribe? && a.room == "market:" + symbol
  }

  predicate NothingStarts(log: seq<Event>, log2: seq<Event>, symbol: string) {
    log <= log2 && forall i :: |log| <= i < |log2| ==> !(log2[i].Started? && log2[i].symbol == symbol)
  }

  lemma SnapshotElsewhere(s: State, other: string, timed: bool, symbol: string)
    requires Deserted(s, symbol)
    ensures var t := Snapshot(s, other, timed); Deserted(t, symbol) && NothingStarts(s.log, t.log, symbol)
  {
    if other == symbol {
      forall sid ensures sid !in Members(s, MarketRoom(symbol)) {}
      assert Members(s, MarketRoom(symbol)) == {};
    }
  }

  lemma SubscribeElsewhere(s: State, sid: nat, room: string, symbol: string)
    requires Deserted(s, symbol) && room != "market:" + symbol
    ensures var t := DoSubscribe(s, sid, room); Deserted(t, symbol) && NothingStarts(s.log, t.log, symbol)
  {
    if sid in s.sockets && IsMarketRoom(room) {
      SnapshotElsewhere(Note(Join(s, sid, room), Subscribed(sid, room)), SymbolFromRoom(room), false, symbol);
    }
  }

  lemma AskElsewhere(s: State, sid: nat, other: string, symbol: string)
    requires Deserted(s, symbol)
    ensures var t := DoMdSubscribe(s, sid, other); Deserted(t, symbol) && NothingStarts(s.log, t.log, symbol)
  {
    RoomNames(other, symbol, "");
  }

  lemma OtherElsewhere(s: State, a: Action, symbol: string)
    requires Deserted(s, symbol) && !a.Subscribe? && !a.Fire?
    ensures Deserted(Do(s, a), symbol) && NothingStarts(s.log, Do(s, a).log, symbol)
  {
    match a {
      case Connect(userId) => RoomNames(userId, symbol, "");
      case MdSubscribe(sid, other) => AskElsewhere(s, sid, other, symbol);
      case _ =>
    }
  }

  lemma DesertedStep(s: State, a: Action, symbol: string)
    requires Deserted(s, symbol) && !Joins(a, symbol)
    ensures Deserted(Do(s, a), symbol) && NothingStarts(s.log, Do(s, a).log, symbol)
  {
    match a {
      case Subscribe(sid, room) => SubscribeElsewhere(s, sid, room, symbol);
      case Fire(timer) =>
        if timer in s.timers && s.timers[timer].due <= s.now {
          var other := s.timers[timer].symbol;
          var mid := s.(timers := s.timers - {timer}, pendingBook := s.pendingBook - {other});
          SnapshotElsewhere(mid, other, true, symbol);
        }
      case _ => OtherElsewhere(s, a, symbol);
    }
  }

  /** A deserted room stays so, and no snapshot is started for it, until somebody subscribes to it. */
  lemma {:induction false} DesertedRun(s: State, schedule: seq<Action>, symbol: string)
    requires Deserted(s, symbol) && forall i :: 0 <= i < |schedule| ==> !Joins(schedule[i], symbol)
    ensures Deserted(Run(s, schedule), symbol) && NothingStarts(s.log, Run(s, schedule).log, symbol)
    decreases schedule
  {
    if schedule != [] {
      DesertedStep(s, schedule[0], symbol);
      DesertedRun(Do(s, schedule[0]), schedule[1..], symbol);
    }
  }

  /** So when the last member of a room disconnects, its book is not read again before somebody subscribes. */
  lemma LastMemberGone(s: State, sid: nat, symbol: string, schedule: seq<Action>)
    requires forall other :: other in s.sockets && "market:" + symbol in s.sockets[other].rooms ==> other == sid
    requires forall i :: 0 <= i < |schedule| ==> !Joins(schedule[i], symbol)
    ensures var t := Run(Do(s, Disconnect(sid)), schedule);
      Deserted(t, symbol) && NothingStarts(s.log, t.log, symbol)
  {
    DisconnectRemoves(s, sid);
    DesertedRun(Do(s, Disconnect(sid)), schedule, symbol);
  }
}
