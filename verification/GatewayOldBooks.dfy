/** The two ways in which a member of a market room can be left with an old book. */
module GatewayOldBooks {
  import opened Text
  import opened Gateway
  import opened GatewayRooms
  import opened GatewayTimers
  import opened GatewayBooks

  /** The socket has been sent the same books, and is shown the same one. */
  ghost predicate SameSight(s: State, t: State, sid: nat, symbol: string) {
    && Shown(t.log, sid, symbol) == Shown(s.log, sid, symbol)
    && forall book: nat :: Sent(t.log, sid, symbol, book) <==> Sent(s.log, sid, symbol, book)
  }

  lemma Unsighted(s: State, t: State, sid: nat, symbol: string, e: Event)
    requires t.log == s.log + [e] && !e.Broadcast? && !e.Subscribed?
    ensures SameSight(s, t, sid, symbol)
  {
    Appended(s.log, e);
  }

  // --- Moves from any reachable state -----------------------------------------------

  /** The book changes, and the coalescing time passes. */
  lemma Waits(s: State, sid: nat, symbol: string) returns (t: State)
    requires Reachable(s) && Member(s, sid, symbol) && symbol !in s.pendingBook
    ensures Reachable(t) && s.log <= t.log && Member(t, sid, symbol) && SameSight(s, t, sid, symbol)
    ensures Changes(t.log, symbol) == Changes(s.log, symbol) + 1
    ensures t.snapshots == s.snapshots && t.nextRead == s.nextRead && s.nextTimer in t.timers
    ensures t.timers[s.nextTimer].symbol == symbol && t.timers[s.nextTimer].due <= t.now
  {
    var s1 := Do(s, Signal(symbol));
    ReachableStep(s, Signal(symbol));
    ReachableStep(s1, Tick(ORDERBOOK_COALESCE_MS));
    Appended(s.log, Signalled(symbol));
    Unsighted(s, s1, sid, symbol, Signalled(symbol));
    t := Do(s1, Tick(ORDERBOOK_COALESCE_MS));
  }

  /** A due timer starts a snapshot, as there is a member. */
  lemma Starts(s: State, sid: nat, symbol: string, timer: nat) returns (t: State)
    requires Reachable(s) && Member(s, sid, symbol) && timer in s.timers
    requires s.timers[timer].symbol == symbol && s.timers[timer].due <= s.now
    ensures Reachable(t) && s.log <= t.log && Member(t, sid, symbol) && symbol !in t.pendingBook
    ensures Changes(t.log, symbol) == Changes(s.log, symbol) && SameSight(s, t, sid, symbol)
    ensures Latest(t.log, symbol) == Some(s.nextRead)
    ensures t.snapshots == s.snapshots[s.nextRead := Read(symbol, Changes(s.log, symbol), None)]
  {
    t := Do(s, Fire(timer));
    ReachableStep(s, Fire(timer));
    assert sid in Members(s, MarketRoom(symbol));
    assert Members(s.(timers := s.timers - {timer}, pendingBook := s.pendingBook - {symbol}), MarketRoom(symbol))
        == Members(s, MarketRoom(symbol));
    var e := Started(symbol, true, s.now, s.nextRead);
    Appended(s.log, e);
    Unsighted(s, t, sid, symbol, e);
  }

  /** Both: the next snapshot starts. */
  lemma Restarts(s: State, sid: nat, symbol: string) returns (t: State)
    requires Reachable(s) && Member(s, sid, symbol) && symbol !in s.pendingBook
    ensures Reachable(t) && s.log <= t.log && Member(t, sid, symbol) && symbol !in t.pendingBook
    ensures Changes(t.log, symbol) == Changes(s.log, symbol) + 1 && SameSight(s, t, sid, symbol)
    ensures s.nextRead !in s.snapshots && Latest(t.log, symbol) == Some(s.nextRead)
    ensures t.snapshots == s.snapshots[s.nextRead := Read(symbol, Changes(t.log, symbol), None)]
  {
    ReachableInv(s);
    var waiting := Waits(s, sid, symbol);
    t := Starts(waiting, sid, symbol, s.nextTimer);
  }

  lemma Reads(s: State, sid: nat, symbol: string, id: nat) returns (t: State)
    requires Reachable(s) && Member(s, sid, symbol) && IsRead(s, id, symbol) && s.snapshots[id].book.None?
    ensures Reachable(t) && s.log <= t.log && Member(t, sid, symbol) && t.pendingBook == s.pendingBook
    ensures Changes(t.log, symbol) == Changes(s.log, symbol) && SameSight(s, t, sid, symbol)
    ensures t.snapshots == s.snapshots[id := s.snapshots[id].(book := Some(Changes(s.log, symbol)))]
  {
    t := Do(s, ReadBook(id));
    ReachableStep(s, ReadBook(id));
    Appended(s.log, BookRead(symbol, id));
    Unsighted(s, t, sid, symbol, BookRead(symbol, id));
  }

  lemma Emits(s: State, sid: nat, symbol: string, id: nat) returns (t: State)
    requires Reachable(s) && Member(s, sid, symbol) && IsRead(s, id, symbol) && s.snapshots[id].book.Some?
    ensures Reachable(t) && s.log <= t.log && Member(t, sid, symbol) && t.pendingBook == s.pendingBook
    ensures Changes(t.log, symbol) == Changes(s.log, symbol) && t.snapshots == s.snapshots - {id}
    ensures var book := s.snapshots[id].book.value;
      && Shown(t.log, sid, symbol) == Some(book)
      && forall b: nat :: Sent(t.log, sid, symbol, b) <==> Sent(s.log, sid, symbol, b) || b == book
  {
    t := Do(s, EmitBook(id));
    ReachableStep(s, EmitBook(id));
    var to := Members(s, MarketRoom(symbol));
    assert sid in to;
    Appended(s.log, Broadcast(symbol, s.snapshots[id].book.value, to, id));
  }

  lemma Fails(s: State, sid: nat, symbol: string, id: nat) returns (t: State)
    requires Reachable(s) && Member(s, sid, symbol) && IsRead(s, id, symbol)
    ensures Reachable(t) && s.log <= t.log && Member(t, sid, symbol) && t.pendingBook == s.pendingBook
    ensures Changes(t.log, symbol) == Changes(s.log, symbol) && SameSight(s, t, sid, symbol)
    ensures t.snapshots == s.snapshots - {id} && Latest(t.log, symbol) == Latest(s.log, symbol)
    ensures ReadFailed(symbol, id) in t.log
  {
    t := Do(s, FailBook(id));
    ReachableStep(s, FailBook(id));
    Appended(s.log, ReadFailed(symbol, id));
    Unsighted(s, t, sid, symbol, ReadFailed(symbol, id));
  }

  lemma StillAtRest(s: State, t: State, symbol: string)
    requires AtRest(s, symbol) && t.snapshots == s.snapshots && symbol !in t.pendingBook
    ensures AtRest(t, symbol)
  {
    assert forall id :: IsRead(t, id, symbol) ==> IsRead(s, id, symbol);
  }

  /** A change whose snapshot has been read. */
  lemma RestartsAndReads(s: State, sid: nat, symbol: string) returns (t: State)
    requires Reachable(s) && Member(s, sid, symbol) && symbol !in s.pendingBook
    ensures Reachable(t) && s.log <= t.log && Member(t, sid, symbol) && symbol !in t.pendingBook
    ensures Changes(t.log, symbol) == Changes(s.log, symbol) + 1 && SameSight(s, t, sid, symbol)
    ensures s.nextRead !in s.snapshots
    ensures var now := Changes(t.log, symbol); t.snapshots == s.snapshots[s.nextRead := Read(symbol, now, Some(now))]
  {
    var s1 := Restarts(s, sid, symbol);
    t := Reads(s1, sid, symbol, s.nextRead);
  }

  /** Two changes, and two snapshots that have been read and not yet sent. */
  lemma ReadsTwo(s: State, sid: nat, symbol: string) returns (t: State, a: nat, b: nat)
    requires Reachable(s) && Member(s, sid, symbol) && symbol !in s.pendingBook
    ensures Reachable(t) && s.log <= t.log && Member(t, sid, symbol) && symbol !in t.pendingBook
    ensures a != b && a !in s.snapshots && b !in s.snapshots
    ensures var n := Changes(s.log, symbol) + 1;
      && Changes(t.log, symbol) == n + 1
      && t.snapshots == s.snapshots[a := Read(symbol, n, Some(n))][b := Read(symbol, n + 1, Some(n + 1))]
  {
    a := s.nextRead;
    var s1 := RestartsAndReads(s, sid, symbol);
    b := s1.nextRead;
    t := RestartsAndReads(s1, sid, symbol);
    assert a in s1.snapshots;
  }

  // --- Two ways to an old book ---------------------------------------------------------

  /** From rest, two changes: the snapshot of the second is sent first, and then that of the first. */
  lemma OverlapShowsAnOldBook(s: State, sid: nat, symbol: string) returns (t: State)
    requires Reachable(s) && Member(s, sid, symbol) && AtRest(s, symbol)
    ensures Reachable(t) && s.log <= t.log && Member(t, sid, symbol) && AtRest(t, symbol)
    ensures Delivered(t.log, sid, symbol) && Behind(t, sid, symbol)
  {
    var s1, a, b := ReadsTwo(s, sid, symbol);
    assert a in s1.snapshots && IsRead(s1, a, symbol) && IsRead(s1, b, symbol);
    var s2 := Emits(s1, sid, symbol, b);
    t := Emits(s2, sid, symbol, a);
    assert s1.snapshots - {b} - {a} == s.snapshots;
    StillAtRest(s, t, symbol);
    SentIffDelivered(t, sid, symbol);
  }

  /** The socket is shown the book before the last change. */
  ghost predicate Behind(s: State, sid: nat, symbol: string) {
    var shown := Shown(s.log, sid, symbol);
    shown.Some? && shown.value + 1 == Changes(s.log, symbol)
  }

  /** From rest with the current book, one change whose only snapshot fails: no older book is ever sent. */
  lemma FailureShowsAnOldBook(s: State, sid: nat, symbol: string) returns (t: State)
    requires Reachable(s) && Member(s, sid, symbol) && AtRest(s, symbol)
    requires Shown(s.log, sid, symbol) == Some(Changes(s.log, symbol)) && NewestShown(s.log, sid, symbol)
    ensures Reachable(t) && s.log <= t.log && Member(t, sid, symbol) && AtRest(t, symbol)
    ensures LatestFailed(t.log, symbol) && NewestShown(t.log, sid, symbol) && Behind(t, sid, symbol)
  {
    var s1 := Restarts(s, sid, symbol);
    t := Fails(s1, sid, symbol, s.nextRead);
    assert s1.snapshots - {s.nextRead} == s.snapshots;
    StillAtRest(s, t, symbol);
  }

  /** A socket that subscribes has been sent nothing since, and its first snapshot is being made. */
  lemma Subscribes(s: State, sid: nat, symbol: string) returns (t: State)
    requires Reachable(s) && sid in s.sockets && IsPair(symbol)
    ensures Reachable(t) && Member(t, sid, symbol) && t.pendingBook == s.pendingBook
    ensures t.snapshots == s.snapshots[s.nextRead := Read(symbol, Changes(s.log, symbol), None)]
    ensures Changes(t.log, symbol) == Changes(s.log, symbol)
    ensures forall book: nat :: !Sent(t.log, sid, symbol, book)
  {
    var room := MarketRoom(symbol);
    assert room[..7] == "market:" && room[7..] == symbol;
    ReachableStep(s, Subscribe(sid, room));
    var mid := Note(Join(s, sid, room), Subscribed(sid, room));
    Appended(s.log, Subscribed(sid, room));
    assert sid in Members(mid, room);
    t := Do(s, Subscribe(sid, room));
    assert t == Snapshot(mid, symbol, false);
    Appended(mid.log, Started(symbol, false, s.now, s.nextRead));
  }

  /** A connected socket that has subscribed and been sent its first book. */
  lemma FirstMember(supported: set<string>, userId: string, symbol: string) returns (s: State)
    requires IsPair(symbol)
    ensures Reachable(s) && Member(s, 0, symbol) && AtRest(s, symbol)
    ensures Shown(s.log, 0, symbol) == Some(Changes(s.log, symbol)) && NewestShown(s.log, 0, symbol)
  {
    var s0 := Do(Initial(supported), Connect(userId));
    InitialReachable(supported);
    ReachableStep(Initial(supported), Connect(userId));
    Appended([], Connected(0, userId));
    var s1 := Subscribes(s0, 0, symbol);
    var s2 := Reads(s1, 0, symbol, 0);
    s := Emits(s2, 0, symbol, 0);
    assert s.snapshots == map[];
  }

  /** So both happen, for every pair. */
  lemma OldBooksHappen(supported: set<string>, userId: string, symbol: string)
    returns (overlapped: State, failed: State)
    requires IsPair(symbol)
    ensures Reachable(overlapped) && Member(overlapped, 0, symbol) && AtRest(overlapped, symbol)
    ensures Delivered(overlapped.log, 0, symbol) && Behind(overlapped, 0, symbol)
    ensures Reachable(failed) && Member(failed, 0, symbol) && AtRest(failed, symbol)
    ensures NewestShown(failed.log, 0, symbol) && Behind(failed, 0, symbol)
  {
    var s := FirstMember(supported, userId, symbol);
    overlapped := OverlapShowsAnOldBook(s, 0, symbol);
    failed := FailureShowsAnOldBook(s, 0, symbol);
  }
}
