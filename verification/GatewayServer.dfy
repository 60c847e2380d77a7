/**
 The gateway as it runs: maps and sets updated in place by event handlers and timer callbacks. Every
 handler is proved to be one step of the transition system in `Gateway`.
 */
module GatewayServer {
  import opened Text
  import opened Gateway
  import opened GatewayRooms
  import opened GatewayTimers
  import opened GatewayBooks

  class Server {
    const supported: set<string>
    var now: nat
    var sockets: map<nat, Socket>
    var nextSocket: nat
    var timers: map<nat, Timer>
    var nextTimer: nat
    var pendingBook: map<string, nat>
    // Calls waiting for the database, and the history.
    ghost var snapshots: map<nat, Read>
    ghost var nextRead: nat
    ghost var log: seq<Event>

    ghost function Current(): State
      reads this
    {
      State(supported, now, sockets, nextSocket, timers, nextTimer, pendingBook, snapshots, nextRead, log)
    }

    /** The state is one that the gateway can reach, so all its theorems hold of it. */
    ghost predicate Valid()
      reads this
    {
      Reachable(Current())
    }

    constructor (supported: set<string>)
      ensures Current() == Initial(supported) && Valid()
    {
      InitialReachable(supported);
      this.supported := supported;
      now, sockets, nextSocket := 0, map[], 0;
      timers, nextTimer, pendingBook := map[], 0, map[];
      snapshots, nextRead, log := map[], 0, [];
    }

    /** What holds of every socket and symbol after any calls. */
    lemma Promises(sid: nat, symbol: string)
      requires Valid() && sid in sockets
      ensures forall x :: UserRoom(x) in sockets[sid].rooms ==> x == sockets[sid].userId
      ensures forall e :: e in log && e.Pushed? && sid in e.to ==> e.userId == sockets[sid].userId
      ensures MarketRoom(symbol) in sockets[sid].rooms && symbol !in pendingBook
              ==> exists i :: StartsLast(log, i, sid, symbol)
    {
      forall x { RoomsArePrivate(Current(), sid, x); }
      if Member(Current(), sid, symbol) && symbol !in pendingBook { MembersAreCovered(Current(), sid, symbol); }
    }

    method OnConnection(userId: string) returns (sid: nat)
      requires Valid()
      modifies this
      ensures Valid() && Current() == Do(old(Current()), Connect(userId))
      ensures sid == old(nextSocket)
      ensures sid in sockets && sockets[sid].userId == userId
    {
      ReachableStep(Current(), Connect(userId));
      sid := nextSocket;
      nextSocket := nextSocket + 1;
      sockets := sockets[sid := Socket(userId, {}, {UserRoom(userId)})];
      log := log + [Connected(sid, userId)];
    }

    method JoinRoom(sid: nat, room: string)
      requires sid in sockets
      modifies this`sockets
      ensures Current() == Join(old(Current()), sid, room)
    {
      var k := sockets[sid];
      sockets := sockets[sid := k.(rooms := k.rooms + {room})];
    }

    method LeaveRoom(sid: nat, room: string)
      requires sid in sockets
      modifies this`sockets
      ensures Current() == Leave(old(Current()), sid, room)
    {
      var k := sockets[sid];
      sockets := sockets[sid := k.(rooms := k.rooms - {room})];
    }

    method OnSubscribe(sid: nat, room: string)
      requires Valid() && sid in sockets
      modifies this
      ensures Valid() && Current() == Do(old(Current()), Subscribe(sid, room))
    {
      ReachableStep(Current(), Subscribe(sid, room));
      if !IsMarketRoom(room) { return; }
      JoinRoom(sid, room);
      log := log + [Subscribed(sid, room)];
      EmitOrderbookSnapshot(SymbolFromRoom(room), false);
    }

    method OnUnsubscribe(sid: nat, room: string)
      requires Valid() && sid in sockets
      modifies this
      ensures Valid() && Current() == Do(old(Current()), Unsubscribe(sid, room))
    {
      ReachableStep(Current(), Unsubscribe(sid, room));
      LeaveRoom(sid, room);
      log := log + [LeftRoom(sid, room)];
    }

    method OnMdSubscribe(sid: nat, symbol: string)
      requires Valid() && sid in sockets
      modifies this
      ensures Valid() && Current() == Do(old(Current()), MdSubscribe(sid, symbol))
    {
      ReachableStep(Current(), MdSubscribe(sid, symbol));
      if symbol !in supported { return; }
      if symbol in sockets[sid].md { return; }
      if |sockets[sid].md| >= MARKET_DATA_SUB_LIMIT { return; }
      JoinRoom(sid, MdRoom(symbol));
      var k := sockets[sid];
      sockets := sockets[sid := k.(md := k.md + {symbol})];
      log := log + [MdAdded(sid, symbol)];
    }

    method OnMdUnsubscribe(sid: nat, symbol: string)
      requires Valid() && sid in sockets
      modifies this
      ensures Valid() && Current() == Do(old(Current()), MdUnsubscribe(sid, symbol))
    {
      ReachableStep(Current(), MdUnsubscribe(sid, symbol));
      LeaveRoom(sid, MdRoom(symbol));
      var k := sockets[sid];
      sockets := sockets[sid := k.(md := k.md - {symbol})];
      log := log + [MdRemoved(sid, symbol)];
    }

    method OnDisconnect(sid: nat)
      requires Valid() && sid in sockets
      modifies this
      ensures Valid() && Current() == Do(old(Current()), Disconnect(sid))
      ensures sid !in sockets
      ensures forall other :: other != sid ==> (other in sockets <==> other in old(sockets))
      ensures forall other :: other in sockets ==> sockets[other] == old(sockets)[other]
    {
      ReachableStep(Current(), Disconnect(sid));
      sockets := sockets - {sid};
    }

    /** Arms a timer unless one is pending for the symbol. */
    method ScheduleOrderbookSnapshot(symbol: string)
      requires Valid()
      modifies this
      ensures Valid() && Current() == Do(old(Current()), Signal(symbol))
    {
      ReachableStep(Current(), Signal(symbol));
      log := log + [Signalled(symbol)];
      if symbol in pendingBook { return; }
      timers := timers[nextTimer := Timer(symbol, now + ORDERBOOK_COALESCE_MS)];
      pendingBook := pendingBook[symbol := nextTimer];
      nextTimer := nextTimer + 1;
    }

    /** The callback of a timer that is due. */
    method OnTimer(timer: nat)
      requires Valid() && timer in timers && timers[timer].due <= now
      modifies this
      ensures Valid() && Current() == Do(old(Current()), Fire(timer))
    {
      ReachableStep(Current(), Fire(timer));
      var symbol := timers[timer].symbol;
      timers := timers - {timer};
      pendingBook := pendingBook - {symbol};
      EmitOrderbookSnapshot(symbol, true);
    }

    /** Up to the database call, which is only made when somebody listens. */
    method EmitOrderbookSnapshot(symbol: string, ghost timed: bool)
      modifies this`snapshots, this`nextRead, this`log
      ensures Current() == Snapshot(old(Current()), symbol, timed)
    {
      var listeners := set sid | sid in sockets && MarketRoom(symbol) in sockets[sid].rooms;
      assert listeners == Members(Current(), MarketRoom(symbol));
      if listeners == {} { return; }
      snapshots := snapshots[nextRead := Read(symbol, Changes(log, symbol), None)];
      log := log + [Started(symbol, timed, now, nextRead)];
      nextRead := nextRead + 1;
    }

    /** The book arrives and goes to whoever is in the room by then. */
    method OnBook(ghost read: nat, symbol: string) returns (to: set<nat>)
      requires Valid() && read in snapshots && snapshots[read].symbol == symbol && snapshots[read].book.Some?
      modifies this`snapshots, this`log
      ensures Valid() && Current() == Do(old(Current()), EmitBook(read))
      ensures to == Members(old(Current()), MarketRoom(symbol))
    {
      ReachableStep(Current(), EmitBook(read));
      to := set sid | sid in sockets && MarketRoom(symbol) in sockets[sid].rooms;
      assert to == Members(Current(), MarketRoom(symbol));
      log := log + [Broadcast(symbol, snapshots[read].book.value, to, read)];
      snapshots := snapshots - {read};
    }

    /** The database call fails; the error is only logged. */
    method OnBookFailed(ghost read: nat)
      requires Valid() && read in snapshots
      modifies this`snapshots, this`log
      ensures Valid() && Current() == Do(old(Current()), FailBook(read))
    {
      ReachableStep(Current(), FailBook(read));
      log := log + [ReadFailed(snapshots[read].symbol, read)];
      snapshots := snapshots - {read};
    }

    // What happens outside: time passes, and the database looks at the book.

    method TimePasses(ms: nat)
      requires Valid()
      modifies this`now
      ensures Valid() && Current() == Do(old(Current()), Tick(ms))
    {
      ReachableStep(Current(), Tick(ms));
      now := now + ms;
    }

    ghost method DatabaseReads(read: nat)
      requires Valid() && read in snapshots && snapshots[read].book.None?
      modifies this`snapshots, this`log
      ensures Valid() && Current() == Do(old(Current()), ReadBook(read))
    {
      ReachableStep(Current(), ReadBook(read));
      var k := snapshots[read];
      snapshots := snapshots[read := k.(book := Some(Changes(log, k.symbol)))];
      log := log + [BookRead(k.symbol, read)];
    }

    method OnUserEvent(userId: string) returns (to: set<nat>)
      requires Valid()
      modifies this`log
      ensures Valid() && Current() == Do(old(Current()), Push(userId))
      ensures to == Members(old(Current()), UserRoom(userId))
    {
      ReachableStep(Current(), Push(userId));
      to := set sid | sid in sockets && UserRoom(userId) in sockets[sid].rooms;
      assert to == Members(Current(), UserRoom(userId));
      log := log + [Pushed(userId, to)];
    }
  }
}
