/** Order-book snapshots: what the members of a market room get to see. */
module GatewayBooks {
  import opened Text
  import opened Gateway
  import opened GatewayRooms
  import opened GatewayTimers

  // --- What the members get -----------------------------------------------------------

  ghost predicate Member(s: State, sid: nat, symbol: string) {
    sid in s.sockets && MarketRoom(symbol) in s.sockets[sid].rooms
  }

  /** A snapshot has started since the symbol was last signalled and the socket last subscribed. */
  predicate Covered(log: seq<Event>, sid: nat, symbol: string) {
    if log == [] then false
    else
      var e := log[|log| - 1];
      if e.Started? && e.symbol == symbol then true
      else if e == Signalled(symbol) || e == Subscribed(sid, MarketRoom(symbol)) then false
      else Covered(log[..|log| - 1], sid, symbol)
  }

  /** The socket has been sent this book since it last subscribed. */
  predicate Sent(log: seq<Event>, sid: nat, symbol: string, book: nat) {
    if log == [] then false
    else
      var e := log[|log| - 1];
      if e.Broadcast? && e.symbol == symbol && sid in e.to && e.book == book then true
      else if e == Subscribed(sid, MarketRoom(symbol)) then false
      else Sent(log[..|log| - 1], sid, symbol, book)
  }

  /** The last book the socket has been sent since it last subscribed. */
  function Shown(log: seq<Event>, sid: nat, symbol: string): Option<nat> {
    if log == [] then None
    else
      var e := log[|log| - 1];
      if e.Broadcast? && e.symbol == symbol && sid in e.to then Some(e.book)
      else if e == Subscribed(sid, MarketRoom(symbol)) then None
      else Shown(log[..|log| - 1], sid, symbol)
  }

  /** The snapshot of the symbol that was started last. */
  function Latest(log: seq<Event>, symbol: string): Option<nat> {
    if log == [] then None
    else
      var e := log[|log| - 1];
      if e.Started? && e.symbol == symbol then Some(e.id) else Latest(log[..|log| - 1], symbol)
  }

  /** Snapshots started and not yet ended. */
  function Open(log: seq<Event>, symbol: string): int {
    if log == [] then 0
    else
      var e := log[|log| - 1];
      Open(log[..|log| - 1], symbol)
      + (if e.Started? && e.symbol == symbol then 1
         else if (e.Broadcast? && e.symbol == symbol) || (e.ReadFailed? && e.symbol == symbol) then -1 else 0)
  }

  /** No snapshot of the symbol was started while another was being made. */
  predicate OneAtATime(log: seq<Event>, symbol: string) {
    log == [] ||
    var rest := log[..|log| - 1];
    OneAtATime(rest, symbol)
    && (log[|log| - 1].Started? && log[|log| - 1].symbol == symbol ==> Open(rest, symbol) == 0)
  }

  /** The newest book of the symbol that has been broadcast. */
  function Highest(log: seq<Event>, symbol: string): nat {
    if log == [] then 0
    else
      var e, before := log[|log| - 1], Highest(log[..|log| - 1], symbol);
      if e.Broadcast? && e.symbol == symbol && e.book > before then e.book else before
  }

  /** No book of the symbol was broadcast after a newer one. */
  predicate InOrder(log: seq<Event>, symbol: string) {
    log == [] ||
    var rest, e := log[..|log| - 1], log[|log| - 1];
    InOrder(rest, symbol) && (e.Broadcast? && e.symbol == symbol ==> Highest(rest, symbol) <= e.book)
  }

  ghost predicate IsRead(s: State, id: nat, symbol: string) {
    id in s.snapshots && s.snapshots[id].symbol == symbol
  }

  ghost predicate ReadInv(s: State) {
    forall id :: id in s.snapshots ==>
      var Read(symbol, base, book) := s.snapshots[id];
      && id < s.nextRead && base <= Changes(s.log, symbol)
      && (book.Some? ==> base <= book.value <= Changes(s.log, symbol))
  }

  /** The snapshot is being made, and will include every signalled change. */
  ghost predicate WillCover(s: State, id: nat, symbol: string) {
    IsRead(s, id, symbol) && s.snapshots[id].base == Changes(s.log, symbol)
  }

  /** Without a pending timer, the latest snapshot is still coming, or failed, or brought the current book. */
  ghost predicate MemberInv(s: State, sid: nat, symbol: string) {
    Member(s, sid, symbol) && symbol !in s.pendingBook ==>
      var latest := Latest(s.log, symbol);
      && Covered(s.log, sid, symbol)
      && latest.Some?
      && (|| WillCover(s, latest.value, symbol)
          || ReadFailed(symbol, latest.value) in s.log
          || Sent(s.log, sid, symbol, Changes(s.log, symbol)))
  }

  /** No book is ahead of the changes; and snapshots made one at a time bring ever newer books. */
  ghost predicate OrderInv(s: State, symbol: string) {
    && Highest(s.log, symbol) <= Changes(s.log, symbol)
    && (OneAtATime(s.log, symbol) ==>
      && (forall i, j :: IsRead(s, i, symbol) && IsRead(s, j, symbol) ==> i == j)
      && Open(s.log, symbol) == (if exists i :: IsRead(s, i, symbol) then 1 else 0)
      && InOrder(s.log, symbol)
      && forall i :: IsRead(s, i, symbol) ==> Highest(s.log, symbol) <= s.snapshots[i].base)
  }

  ghost predicate SymbolInv(s: State, symbol: string) {
    OrderInv(s, symbol) && forall sid :: MemberInv(s, sid, symbol)
  }

  ghost predicate BookInv(s: State) {
    ReadInv(s) && forall symbol :: SymbolInv(s, symbol)
  }

  // One symbol at a time: every step is one of a few kinds, as far as this symbol is concerned.

  /** Nothing happens that the books of this symbol depend on, except that members may leave. */
  ghost predicate Unmoved(s: State, t: State, symbol: string) {
    && (symbol in s.pendingBook <==> symbol in t.pendingBook)
    && (forall sid :: Member(t, sid, symbol) ==> Member(s, sid, symbol))
    && (forall id :: IsRead(t, id, symbol) <==> IsRead(s, id, symbol))
    && (forall id :: IsRead(t, id, symbol) ==> t.snapshots[id].base == s.snapshots[id].base)
    && (t.log == s.log || exists e :: t.log == s.log + [e] && Foreign(e, symbol))
  }

  predicate Foreign(e: Event, symbol: string) {
    match e
    case Subscribed(_, room) => room != MarketRoom(symbol)
    case Signalled(other) => other != symbol
    case Started(other, _, _, _) => other != symbol
    case Broadcast(other, _, _, _) => other != symbol
    case ReadFailed(other, _) => other != symbol
    case _ => true
  }

  lemma UnmovedKeeps(s: State, t: State, symbol: string)
    requires SymbolInv(s, symbol) && Unmoved(s, t, symbol)
    ensures SymbolInv(t, symbol)
  {
    if t.log != s.log {
      var e :| t.log == s.log + [e] && Foreign(e, symbol);
      Appended(s.log, e);
    }
    assert Changes(t.log, symbol) == Changes(s.log, symbol);
    assert Latest(t.log, symbol) == Latest(s.log, symbol);
    forall sid ensures MemberInv(t, sid, symbol) { assert MemberInv(s, sid, symbol); }
  }

  /** A signal leaves the symbol pending. */
  lemma SignalKeeps(s: State, symbol: string)
    requires OrderInv(s, symbol)
    ensures SymbolInv(DoSignal(s, symbol), symbol)
  {
    SignalOrder(s, DoSignal(s, symbol), symbol);
    assert symbol in DoSignal(s, symbol).pendingBook;
  }

  lemma SignalOrder(s: State, t: State, symbol: string)
    requires OrderInv(s, symbol) && t.log == s.log + [Signalled(symbol)] && t.snapshots == s.snapshots
    ensures OrderInv(t, symbol)
  {
    Appended(s.log, Signalled(symbol));
    assert forall id :: IsRead(t, id, symbol) <==> IsRead(s, id, symbol);
  }

  /** Starting a snapshot covers every member, whatever was the case before. */
  lemma SnapshotKeeps(s: State, symbol: string, timed: bool)
    requires ReadInv(s) && OrderInv(s, symbol)
    ensures SymbolInv(Snapshot(s, symbol, timed), symbol)
  {
    var t := Snapshot(s, symbol, timed);
    if Members(s, MarketRoom(symbol)) == {} {
      assert forall sid :: Member(s, sid, symbol) ==> sid in Members(s, MarketRoom(symbol));
    } else {
      Appended(s.log, Started(symbol, timed, s.now, s.nextRead));
      assert WillCover(t, s.nextRead, symbol);
      assert forall i :: IsRead(t, i, symbol) <==> IsRead(s, i, symbol) || i == s.nextRead;
    }
  }

  lemma EmitOrder(s: State, id: nat)
    requires BookInv(s) && id in s.snapshots && s.snapshots[id].book.Some?
    ensures OrderInv(DoEmitBook(s, id), s.snapshots[id].symbol)
  {
    var Read(symbol, base, book) := s.snapshots[id];
    var t := DoEmitBook(s, id);
    Appended(s.log, Broadcast(symbol, book.value, Members(s, MarketRoom(symbol)), id));
    assert SymbolInv(s, symbol) && IsRead(s, id, symbol);
    assert forall i :: IsRead(t, i, symbol) <==> IsRead(s, i, symbol) && i != id;
  }

  /** An emitted book that includes every signalled change is shown to every member. */
  lemma EmitMember(s: State, id: nat, sid: nat)
    requires BookInv(s) && id in s.snapshots && s.snapshots[id].book.Some?
    ensures MemberInv(DoEmitBook(s, id), sid, s.snapshots[id].symbol)
  {
    var Read(symbol, base, book) := s.snapshots[id];
    var t := DoEmitBook(s, id);
    var to := Members(s, MarketRoom(symbol));
    Appended(s.log, Broadcast(symbol, book.value, to, id));
    assert SymbolInv(s, symbol) && MemberInv(s, sid, symbol);
    if Member(t, sid, symbol) && symbol !in t.pendingBook {
      assert sid in to;
      var latest := Latest(s.log, symbol).value;
      if ReadFailed(symbol, latest) in s.log {
        assert ReadFailed(symbol, latest) in t.log;
      } else if WillCover(s, latest, symbol) {
        assert latest == id ==> book.value == Changes(s.log, symbol);
        assert latest != id ==> WillCover(t, latest, symbol);
      }
    }
  }

  lemma EmitKeeps(s: State, id: nat)
    requires BookInv(s) && id in s.snapshots && s.snapshots[id].book.Some?
    ensures SymbolInv(DoEmitBook(s, id), s.snapshots[id].symbol)
  {
    EmitOrder(s, id);
    forall sid ensures MemberInv(DoEmitBook(s, id), sid, s.snapshots[id].symbol) { EmitMember(s, id, sid); }
  }

  lemma FailKeeps(s: State, id: nat)
    requires BookInv(s) && id in s.snapshots
    ensures var symbol := s.snapshots[id].symbol; var t := DoFailBook(s, id);
            SymbolInv(t, symbol)
  {
    var symbol := s.snapshots[id].symbol;
    var t := DoFailBook(s, id);
    Appended(s.log, ReadFailed(symbol, id));
    assert SymbolInv(s, symbol) && IsRead(s, id, symbol);
    assert forall i :: IsRead(t, i, symbol) <==> IsRead(s, i, symbol) && i != id;
    forall sid ensures MemberInv(t, sid, symbol) { assert MemberInv(s, sid, symbol); }
  }

  lemma EmitElsewhere(s: State, id: nat, symbol: string)
    requires id in s.snapshots && s.snapshots[id].symbol != symbol
    ensures Unmoved(s, DoEmitBook(s, id), symbol) && Unmoved(s, DoFailBook(s, id), symbol)
  {
  }

  lemma SnapshotElsewhere(s: State, other: string, timed: bool, symbol: string)
    requires ReadInv(s) && other != symbol
    ensures Unmoved(s, Snapshot(s, other, timed), symbol)
  {
  }

  lemma SubscribeBooks(s: State, sid: nat, room: string, symbol: string)
    requires BookInv(s) && sid in s.sockets && IsMarketRoom(room)
    ensures var t := DoSubscribe(s, sid, room);
            SymbolInv(t, symbol)
  {
    var e := Subscribed(sid, room);
    var mid := Note(Join(s, sid, room), e);
    Appended(s.log, e);
    RoomNames(SymbolFromRoom(room), symbol, room);
    assert SymbolInv(s, symbol);
    if SymbolFromRoom(room) == symbol {
      assert forall i :: IsRead(mid, i, symbol) <==> IsRead(s, i, symbol);
      SnapshotKeeps(mid, symbol, false);
    } else {
      assert Foreign(e, symbol);
      UnmovedKeeps(s, mid, symbol);
      SnapshotElsewhere(mid, SymbolFromRoom(room), false, symbol);
      UnmovedKeeps(mid, Snapshot(mid, SymbolFromRoom(room), false), symbol);
    }
  }

  lemma FireBooks(s: State, timer: nat, symbol: string)
    requires BookInv(s) && TimerInv(s) && timer in s.timers && s.timers[timer].due <= s.now
    ensures var t := DoFire(s, timer);
            SymbolInv(t, symbol)
  {
    var other := s.timers[timer].symbol;
    var mid := s.(timers := s.timers - {timer}, pendingBook := s.pendingBook - {other});
    assert SymbolInv(s, symbol);
    if other == symbol {
      assert forall i :: IsRead(mid, i, symbol) <==> IsRead(s, i, symbol);
      SnapshotKeeps(mid, symbol, true);
    } else {
      UnmovedKeeps(s, mid, symbol);
      SnapshotElsewhere(mid, other, true, symbol);
      UnmovedKeeps(mid, Snapshot(mid, other, true), symbol);
    }
  }

  lemma SignalBooks(s: State, other: string, symbol: string)
    requires BookInv(s)
    ensures var t := DoSignal(s, other);
            SymbolInv(t, symbol)
  {
    assert SymbolInv(s, symbol);
    if other == symbol {
      SignalKeeps(s, symbol);
    } else {
      assert Foreign(Signalled(other), symbol);
      UnmovedKeeps(s, DoSignal(s, other), symbol);
    }
  }

  /** Joining or leaving any other room, and everything that is not about books. */
  lemma OtherUnmoved(s: State, a: Action, symbol: string)
    requires RoomInv(s)
    requires !a.Subscribe? && !a.Signal? && !a.Fire? && !a.EmitBook? && !a.FailBook?
    ensures Unmoved(s, Do(s, a), symbol)
  {
    var t := Do(s, a);
    assert t.log == s.log || (t.log == s.log + [t.log[|s.log|]] && Foreign(t.log[|s.log|], symbol));
    match a {
      case Connect(userId) => RoomNames(userId, symbol, "");
      case MdSubscribe(_, other) => RoomNames(other, symbol, "");
      case _ =>
    }
  }

  lemma SubscribeReads(s: State, sid: nat, room: string)
    requires ReadInv(s)
    ensures ReadInv(DoSubscribe(s, sid, room))
  {
  }

  lemma SnapshotReads(s: State, symbol: string, timed: bool)
    requires ReadInv(s)
    ensures ReadInv(Snapshot(s, symbol, timed))
  {
  }

  lemma FireReads(s: State, timer: nat)
    requires ReadInv(s)
    ensures ReadInv(DoFire(s, timer))
  {
    if timer in s.timers && s.timers[timer].due <= s.now {
      var symbol := s.timers[timer].symbol;
      SnapshotReads(s.(timers := s.timers - {timer}, pendingBook := s.pendingBook - {symbol}), symbol, true);
    }
  }

  /** Only a subscription or a timer starts a snapshot, only a read changes one. */
  lemma OtherReads(s: State, a: Action)
    requires ReadInv(s) && !a.Subscribe? && !a.Fire? && !a.ReadBook?
    ensures ReadInv(Do(s, a))
  {
  }

  lemma ReadStep(s: State, a: Action)
    requires ReadInv(s)
    ensures ReadInv(Do(s, a))
  {
    match a {
      case Subscribe(sid, room) => SubscribeReads(s, sid, room);
      case Fire(timer) => FireReads(s, timer);
      case ReadBook(id) =>
      case _ => OtherReads(s, a);
    }
  }

  lemma EndBooks(s: State, a: Action, id: nat, symbol: string)
    requires BookInv(s) && RoomInv(s) && (a == EmitBook(id) || a == FailBook(id))
    ensures SymbolInv(Do(s, a), symbol)
  {
    assert SymbolInv(s, symbol);
    if id !in s.snapshots || (a.EmitBook? && s.snapshots[id].book.None?) {
      assert Do(s, a) == s;
    } else if s.snapshots[id].symbol != symbol {
      EmitElsewhere(s, id, symbol);
      UnmovedKeeps(s, Do(s, a), symbol);
    } else if a.EmitBook? {
      EmitKeeps(s, id);
    } else {
      FailKeeps(s, id);
    }
  }

  lemma SymbolStep(s: State, a: Action, symbol: string)
    requires BookInv(s) && TimerInv(s) && RoomInv(s)
    ensures SymbolInv(Do(s, a), symbol)
  {
    assert SymbolInv(s, symbol);
    match a {
      case Subscribe(sid, room) =>
        if sid in s.sockets && IsMarketRoom(room) { SubscribeBooks(s, sid, room, symbol); }
      case Signal(other) => SignalBooks(s, other, symbol);
      case Fire(timer) =>
        if timer in s.timers && s.timers[timer].due <= s.now { FireBooks(s, timer, symbol); }
      case EmitBook(id) => EndBooks(s, a, id, symbol);
      case FailBook(id) => EndBooks(s, a, id, symbol);
      case _ =>
        OtherUnmoved(s, a, symbol);
        UnmovedKeeps(s, Do(s, a), symbol);
    }
  }

  lemma BookStep(s: State, a: Action)
    requires BookInv(s) && TimerInv(s) && RoomInv(s)
    ensures BookInv(Do(s, a))
  {
    ReadStep(s, a);
    forall symbol ensures SymbolInv(Do(s, a), symbol) { SymbolStep(s, a, symbol); }
  }

  // --- Which read a book came from ------------------------------------------------------

  /** The book that was read for a snapshot: the number of changes signalled by then. */
  function BookOf(log: seq<Event>, symbol: string, id: nat): Option<nat> {
    if log == [] then None
    else
      var rest := log[..|log| - 1];
      if log[|log| - 1] == BookRead(symbol, id) then Some(Changes(rest, symbol)) else BookOf(rest, symbol, id)
  }

  /** What is read is what is kept and what is broadcast, and no number is used twice. */
  ghost predicate HistoryInv(s: State) {
    && (forall id :: id in s.snapshots ==>
      id < s.nextRead && s.snapshots[id].book == BookOf(s.log, s.snapshots[id].symbol, id))
    && (forall symbol, id :: id >= s.nextRead ==> BookOf(s.log, symbol, id) == None)
    && (forall e :: e in s.log && e.Broadcast? ==>
      e.id < s.nextRead && e.id !in s.snapshots && BookOf(s.log, e.symbol, e.id) == Some(e.book))
  }

  /** Events that leave reads and broadcasts alone. */
  predicate Aside(e: Event) {
    !e.BookRead? && !e.Broadcast?
  }

  lemma BookOfOther(log: seq<Event>, e: Event)
    requires !e.BookRead?
    ensures forall symbol, id :: BookOf(log + [e], symbol, id) == BookOf(log, symbol, id)
  {
    Appended(log, e);
  }

  lemma HistoryAside(s: State, t: State)
    requires HistoryInv(s) && t.nextRead == s.nextRead
    requires forall id :: id in t.snapshots ==> id in s.snapshots && t.snapshots[id] == s.snapshots[id]
    requires t.log == s.log || exists e :: t.log == s.log + [e] && Aside(e)
    ensures HistoryInv(t)
  {
    if t.log != s.log {
      var e :| t.log == s.log + [e] && Aside(e);
      BookOfOther(s.log, e);
    }
  }

  lemma HistorySnapshot(s: State, symbol: string, timed: bool)
    requires HistoryInv(s)
    ensures HistoryInv(Snapshot(s, symbol, timed))
  {
    BookOfOther(s.log, Started(symbol, timed, s.now, s.nextRead));
  }

  lemma HistoryReads(s: State, id: nat)
    requires HistoryInv(s)
    ensures HistoryInv(DoReadBook(s, id))
  {
    if id in s.snapshots && s.snapshots[id].book.None? {
      var e := BookRead(s.snapshots[id].symbol, id);
      Appended(s.log, e);
      assert forall symbol, i ::
        e != BookRead(symbol, i) ==> BookOf(s.log + [e], symbol, i) == BookOf(s.log, symbol, i);
    }
  }

  lemma HistoryEmits(s: State, id: nat)
    requires HistoryInv(s)
    ensures HistoryInv(DoEmitBook(s, id))
  {
    if id in s.snapshots && s.snapshots[id].book.Some? {
      var k := s.snapshots[id];
      BookOfOther(s.log, Broadcast(k.symbol, k.book.value, Members(s, MarketRoom(k.symbol)), id));
    }
  }

  lemma OtherAside(s: State, a: Action)
    requires !a.Subscribe? && !a.Fire? && !a.ReadBook? && !a.EmitBook?
    ensures var t := Do(s, a);
      && t.nextRead == s.nextRead
      && (forall id :: id in t.snapshots ==> id in s.snapshots && t.snapshots[id] == s.snapshots[id])
      && (t.log == s.log || exists e :: t.log == s.log + [e] && Aside(e))
  {
    var t := Do(s, a);
    assert t.log == s.log || (t.log == s.log + [t.log[|s.log|]] && Aside(t.log[|s.log|]));
  }

  lemma HistoryStep(s: State, a: Action)
    requires HistoryInv(s)
    ensures HistoryInv(Do(s, a))
  {
    match a {
      case Subscribe(sid, room) =>
        if sid in s.sockets && IsMarketRoom(room) {
          var mid := Note(Join(s, sid, room), Subscribed(sid, room));
          HistoryAside(s, mid);
          HistorySnapshot(mid, SymbolFromRoom(room), false);
        }
      case Fire(timer) =>
        if timer in s.timers && s.timers[timer].due <= s.now {
          var symbol := s.timers[timer].symbol;
          HistorySnapshot(s.(timers := s.timers - {timer}, pendingBook := s.pendingBook - {symbol}), symbol, true);
        }
      case ReadBook(id) => HistoryReads(s, id);
      case EmitBook(id) => HistoryEmits(s, id);
      case _ =>
        OtherAside(s, a);
        HistoryAside(s, Do(s, a));
    }
  }

  // --- Theorems ------------------------------------------------------------------------

  ghost predicate GatewayInv(s: State) {
    RoomInv(s) && TimerInv(s) && BookInv(s) && HistoryInv(s)
  }

  lemma {:induction false} GatewayRun(s: State, schedule: seq<Action>)
    requires GatewayInv(s)
    ensures GatewayInv(Run(s, schedule))
    decreases schedule
  {
    if schedule != [] {
      var a := schedule[0];
      RoomStep(s, a);
      TimerStep(s, a);
      BookStep(s, a);
      HistoryStep(s, a);
      GatewayRun(Do(s, a), schedule[1..]);
    }
  }

  lemma ReachableInv(s: State)
    requires Reachable(s)
    ensures GatewayInv(s)
  {
    var supported, schedule :| s == Run(Initial(supported), schedule);
    GatewayRun(Initial(supported), schedule);
  }

  /** A snapshot of the symbol starts at i, later than every signal and every subscription of the socket. */
  ghost predicate StartsLast(log: seq<Event>, i: int, sid: nat, symbol: string) {
    && 0 <= i < |log| && log[i].Started? && log[i].symbol == symbol
    && forall j :: i < j < |log| ==> log[j] != Signalled(symbol) && log[j] != Subscribed(sid, MarketRoom(symbol))
  }

  lemma {:induction false} CoveredMeans(log: seq<Event>, sid: nat, symbol: string)
    requires Covered(log, sid, symbol)
    ensures exists i :: StartsLast(log, i, sid, symbol)
  {
    var last := |log| - 1;
    if log[last].Started? && log[last].symbol == symbol {
      assert StartsLast(log, last, sid, symbol);
    } else {
      CoveredMeans(log[..last], sid, symbol);
      var i :| StartsLast(log[..last], i, sid, symbol);
      assert forall j :: 0 <= j < last ==> log[j] == log[..last][j];
      assert StartsLast(log, i, sid, symbol);
    }
  }

  /**
   With no timer pending for a symbol, each member of its room has had a snapshot start after both
   its latest subscription and the latest signal.
   */
  lemma MembersAreCovered(s: State, sid: nat, symbol: string)
    requires Reachable(s) && Member(s, sid, symbol) && symbol !in s.pendingBook
    ensures exists i :: StartsLast(s.log, i, sid, symbol)
  {
    ReachableInv(s);
    assert SymbolInv(s, symbol) && MemberInv(s, sid, symbol);
    CoveredMeans(s.log, sid, symbol);
  }

  /** Nothing about the symbol is under way. */
  ghost predicate AtRest(s: State, symbol: string) {
    symbol !in s.pendingBook && forall id :: !IsRead(s, id, symbol)
  }

  /** A book goes to exactly the sockets whose history keeps them in the symbol's room. */
  lemma BroadcastReaches(s: State, id: nat, sid: nat)
    requires Reachable(s) && sid in s.sockets && id in s.snapshots && s.snapshots[id].book.Some?
    ensures var t := Do(s, EmitBook(id)); var Read(symbol, _, book) := s.snapshots[id];
      && |t.log| == |s.log| + 1 && t.log[|s.log|].Broadcast?
      && t.log[|s.log|].symbol == symbol && t.log[|s.log|].book == book.value
      && (sid in t.log[|s.log|].to <==> InRoom(s.log, sid, "market:" + symbol))
  {
    ReachableRooms(s);
    assert SocketInv(s, sid);
  }

  predicate LatestFailed(log: seq<Event>, symbol: string) {
    var latest := Latest(log, symbol);
    latest.Some? && ReadFailed(symbol, latest.value) in log
  }

  /** Then each member has been sent the current book, unless the latest snapshot failed. */
  lemma MembersWereSentTheBook(s: State, sid: nat, symbol: string)
    requires Reachable(s) && Member(s, sid, symbol) && AtRest(s, symbol) && !LatestFailed(s.log, symbol)
    ensures Sent(s.log, sid, symbol, Changes(s.log, symbol))
  {
    ReachableInv(s);
    assert SymbolInv(s, symbol) && MemberInv(s, sid, symbol);
  }

  lemma {:induction false} SentBelow(log: seq<Event>, sid: nat, symbol: string, book: nat)
    requires Sent(log, sid, symbol, book)
    ensures book <= Highest(log, symbol)
  {
    var last := |log| - 1;
    if !(log[last].Broadcast? && log[last].symbol == symbol && log[last].book == book) {
      SentBelow(log[..last], sid, symbol, book);
    }
  }

  lemma {:induction false} ShownWasSent(log: seq<Event>, sid: nat, symbol: string)
    requires Shown(log, sid, symbol).Some?
    ensures Sent(log, sid, symbol, Shown(log, sid, symbol).value)
  {
    var last := |log| - 1;
    if !(log[last].Broadcast? && log[last].symbol == symbol && sid in log[last].to) {
      ShownWasSent(log[..last], sid, symbol);
    }
  }

  lemma {:induction false} ShownInOrder(log: seq<Event>, sid: nat, symbol: string, book: nat)
    requires InOrder(log, symbol) && Sent(log, sid, symbol, book)
    ensures Shown(log, sid, symbol).Some? && book <= Shown(log, sid, symbol).value
  {
    var last := |log| - 1;
    var e := log[last];
    if e.Broadcast? && e.symbol == symbol && sid in e.to {
      if e.book != book { SentBelow(log[..last], sid, symbol, book); }
    } else {
      ShownInOrder(log[..last], sid, symbol, book);
    }
  }

  /** The last book a socket has been sent is the newest one it has been sent. */
  ghost predicate NewestShown(log: seq<Event>, sid: nat, symbol: string) {
    forall book: nat :: Sent(log, sid, symbol, book) ==>
      Shown(log, sid, symbol).Some? && book <= Shown(log, sid, symbol).value
  }

  lemma NothingNewer(s: State, sid: nat, symbol: string, book: nat)
    requires Reachable(s) && Sent(s.log, sid, symbol, book)
    ensures book <= Changes(s.log, symbol)
  {
    ReachableInv(s);
    assert SymbolInv(s, symbol);
    SentBelow(s.log, sid, symbol, book);
  }

  /** A read of the book for the snapshot was made after the last signal. */
  predicate ReadSince(log: seq<Event>, symbol: string, id: nat) {
    if log == [] then false
    else
      var e := log[|log| - 1];
      e == BookRead(symbol, id) || (e != Signalled(symbol) && ReadSince(log[..|log| - 1], symbol, id))
  }

  /** The socket has been sent the snapshot since it last subscribed. */
  predicate SentBy(log: seq<Event>, sid: nat, symbol: string, id: nat) {
    if log == [] then false
    else
      var e := log[|log| - 1];
      if e.Broadcast? && e.symbol == symbol && sid in e.to && e.id == id then true
      else if e == Subscribed(sid, MarketRoom(symbol)) then false
      else SentBy(log[..|log| - 1], sid, symbol, id)
  }

  /** A read made after the last signal did not fail but was sent to the socket after its last subscription. */
  ghost predicate Delivered(log: seq<Event>, sid: nat, symbol: string) {
    exists id :: ReadSince(log, symbol, id) && SentBy(log, sid, symbol, id)
  }

  lemma {:induction false} ReadSinceIff(log: seq<Event>, symbol: string, id: nat)
    ensures BookOf(log, symbol, id).Some? ==> BookOf(log, symbol, id).value <= Changes(log, symbol)
    ensures ReadSince(log, symbol, id) <==> BookOf(log, symbol, id) == Some(Changes(log, symbol))
  {
    if log != [] { ReadSinceIff(log[..|log| - 1], symbol, id); }
  }

  lemma {:induction false} SentByMeans(log: seq<Event>, sid: nat, symbol: string, id: nat) returns (e: Event)
    requires SentBy(log, sid, symbol, id)
    ensures e in log && e.Broadcast? && e.symbol == symbol && e.id == id && Sent(log, sid, symbol, e.book)
  {
    var last := |log| - 1;
    if log[last].Broadcast? && log[last].symbol == symbol && sid in log[last].to && log[last].id == id {
      e := log[last];
    } else {
      e := SentByMeans(log[..last], sid, symbol, id);
    }
  }

  lemma {:induction false} SentMeans(log: seq<Event>, sid: nat, symbol: string, book: nat) returns (e: Event)
    requires Sent(log, sid, symbol, book)
    ensures e in log && e.Broadcast? && e.symbol == symbol && e.book == book && SentBy(log, sid, symbol, e.id)
  {
    var last := |log| - 1;
    if log[last].Broadcast? && log[last].symbol == symbol && sid in log[last].to && log[last].book == book {
      e := log[last];
    } else {
      e := SentMeans(log[..last], sid, symbol, book);
    }
  }

  /** The current book has been sent if and only if some read made after the last signal has. */
  lemma SentIffDelivered(s: State, sid: nat, symbol: string)
    requires Reachable(s)
    ensures Sent(s.log, sid, symbol, Changes(s.log, symbol)) <==> Delivered(s.log, sid, symbol)
  {
    ReachableInv(s);
    if Sent(s.log, sid, symbol, Changes(s.log, symbol)) {
      var e := SentMeans(s.log, sid, symbol, Changes(s.log, symbol));
      ReadSinceIff(s.log, symbol, e.id);
    }
    if Delivered(s.log, sid, symbol) {
      var id :| ReadSince(s.log, symbol, id) && SentBy(s.log, sid, symbol, id);
      var e := SentByMeans(s.log, sid, symbol, id);
      ReadSinceIff(s.log, symbol, id);
    }
  }

  /**
   In every reachable state, at rest or not, the last book a socket has been sent is the current one if
   and only if a read made after the last signal was sent to it, and no older book after the newest.
   */
  lemma LastBookIsCurrentIff(s: State, sid: nat, symbol: string)
    requires Reachable(s)
    ensures Shown(s.log, sid, symbol) == Some(Changes(s.log, symbol))
            <==> Delivered(s.log, sid, symbol) && NewestShown(s.log, sid, symbol)
  {
    SentIffDelivered(s, sid, symbol);
    var shown := Shown(s.log, sid, symbol);
    if shown.Some? {
      ShownWasSent(s.log, sid, symbol);
      NothingNewer(s, sid, symbol, shown.value);
    }
    forall book: nat | Sent(s.log, sid, symbol, book) ensures book <= Changes(s.log, symbol) {
      NothingNewer(s, sid, symbol, book);
    }
  }

  /** At rest a member misses such a read only when the latest snapshot failed. */
  lemma DeliveredUnlessFailed(s: State, sid: nat, symbol: string)
    requires Reachable(s) && Member(s, sid, symbol) && AtRest(s, symbol) && !LatestFailed(s.log, symbol)
    ensures Delivered(s.log, sid, symbol)
  {
    MembersWereSentTheBook(s, sid, symbol);
    SentIffDelivered(s, sid, symbol);
  }

  /** So books broadcast in order are enough, however much the snapshots overlapped ... */
  lemma LastBookIsCurrent(s: State, sid: nat, symbol: string)
    requires Reachable(s) && Member(s, sid, symbol) && AtRest(s, symbol) && !LatestFailed(s.log, symbol)
    requires InOrder(s.log, symbol)
    ensures Shown(s.log, sid, symbol) == Some(Changes(s.log, symbol))
  {
    DeliveredUnlessFailed(s, sid, symbol);
    forall book: nat | Sent(s.log, sid, symbol, book)
      ensures Shown(s.log, sid, symbol).Some? && book <= Shown(s.log, sid, symbol).value
    {
      ShownInOrder(s.log, sid, symbol, book);
    }
    LastBookIsCurrentIff(s, sid, symbol);
  }

  /** ... and they are in order when snapshots do not overlap. */
  lemma OneAtATimeIsInOrder(s: State, symbol: string)
    requires Reachable(s) && OneAtATime(s.log, symbol)
    ensures InOrder(s.log, symbol)
  {
    ReachableInv(s);
    assert SymbolInv(s, symbol);
  }
}
