/** Who is in which room, in every run of the gateway. */
module GatewayRooms {
  import opened Text
  import opened Gateway

  /** Whether the history puts a socket in a room: its latest join or leave decides. */
  predicate InRoom(log: seq<Event>, sid: nat, room: string) {
    if log == [] then false
    else
      var e := log[|log| - 1];
      if e.Connected? && e.sid == sid then room == UserRoom(e.userId)
      else if e.Subscribed? && e.sid == sid && e.room == room then true
      else if e.LeftRoom? && e.sid == sid && e.room == room then false
      else if e.MdAdded? && e.sid == sid && MdRoom(e.symbol) == room then true
      else if e.MdRemoved? && e.sid == sid && MdRoom(e.symbol) == room then false
      else InRoom(log[..|log| - 1], sid, room)
  }

  /** The three kinds of room a socket can be in. */
  ghost predicate Permitted(k: Socket, room: string) {
    || room == UserRoom(k.userId)
    || IsMarketRoom(room)
    || exists symbol :: symbol in k.md && room == MdRoom(symbol)
  }

  ghost predicate SocketInv(s: State, sid: nat) {
    sid in s.sockets ==>
      var k := s.sockets[sid];
      && sid < s.nextSocket
      && Connected(sid, k.userId) in s.log
      && (forall userId :: Connected(sid, userId) in s.log ==> userId == k.userId)
      && (forall room :: room in k.rooms <==> InRoom(s.log, sid, room))
      && (forall room :: room in k.rooms ==> Permitted(k, room))
      && k.md <= s.supported && |k.md| <= MARKET_DATA_SUB_LIMIT
  }

  /** Everything pushed for a user went to sockets that authenticated as that user. */
  ghost predicate PushInv(s: State) {
    forall e, sid :: e in s.log && e.Pushed? && sid in e.to ==> Connected(sid, e.userId) in s.log
  }

  ghost predicate RoomInv(s: State) {
    && (forall sid :: SocketInv(s, sid))
    && (forall e :: e in s.log && e.Connected? ==> e.sid < s.nextSocket)
    && PushInv(s)
  }

  lemma RoomNames(a: string, b: string, room: string)
    ensures UserRoom(a) == UserRoom(b) ==> a == b
    ensures MdRoom(a) == MdRoom(b) ==> a == b
    ensures MarketRoom(a) == MarketRoom(b) ==> a == b
    ensures UserRoom(a) != MdRoom(b) && UserRoom(a) != MarketRoom(b) && MdRoom(a) != MarketRoom(b)
    ensures IsMarketRoom(room) ==> room == MarketRoom(SymbolFromRoom(room))
  {
    assert UserRoom(a)[5..] == a && UserRoom(b)[5..] == b;
    assert MdRoom(a)[3..] == a && MdRoom(b)[3..] == b;
    assert MarketRoom(a)[7..] == a && MarketRoom(b)[7..] == b;
    assert UserRoom(a)[0] == 'u' && MdRoom(b)[0] == 'm' && MarketRoom(b)[0] == 'm';
    assert MdRoom(a)[1] == 'd' && MarketRoom(b)[1] == 'a';
  }

  predicate AboutRooms(e: Event) {
    e.Connected? || e.Subscribed? || e.LeftRoom? || e.MdAdded? || e.MdRemoved?
  }

  /** Steps that leave the sockets alone and write nothing about rooms. */
  lemma RoomFrame(s: State, t: State)
    requires RoomInv(s) && t.sockets == s.sockets && t.nextSocket == s.nextSocket && t.supported == s.supported
    requires t.log == s.log
             || exists e :: t.log == s.log + [e] && !AboutRooms(e) && !e.Pushed?
    ensures RoomInv(t)
  {
    if t.log != s.log {
      var e :| t.log == s.log + [e] && !AboutRooms(e) && !e.Pushed?;
      assert t.log[..|s.log|] == s.log;
      assert forall sid, room :: InRoom(t.log, sid, room) == InRoom(s.log, sid, room);
      forall sid ensures SocketInv(t, sid) { assert SocketInv(s, sid); }
    } else {
      forall sid ensures SocketInv(t, sid) { assert SocketInv(s, sid); }
    }
  }

  lemma SnapshotRooms(s: State, symbol: string, timed: bool)
    requires RoomInv(s)
    ensures RoomInv(Snapshot(s, symbol, timed))
  {
    var t := Snapshot(s, symbol, timed);
    if t != s { assert t.log == s.log + [Started(symbol, timed, s.now, s.nextRead)]; }
    RoomFrame(s, t);
  }

  lemma ConnectRooms(s: State, userId: string)
    requires RoomInv(s)
    ensures RoomInv(DoConnect(s, userId))
  {
    var t := DoConnect(s, userId);
    assert t.log[..|s.log|] == s.log;
    forall sid ensures SocketInv(t, sid) { assert SocketInv(s, sid); }
  }

  lemma JoinRooms(s: State, sid: nat, room: string)
    requires RoomInv(s) && sid in s.sockets && IsMarketRoom(room)
    ensures RoomInv(Note(Join(s, sid, room), Subscribed(sid, room)))
  {
    var t := Note(Join(s, sid, room), Subscribed(sid, room));
    assert t.log[..|s.log|] == s.log;
    forall i ensures SocketInv(t, i) { assert SocketInv(s, i); }
  }

  lemma LeaveRooms(s: State, sid: nat, room: string)
    requires RoomInv(s) && sid in s.sockets
    ensures RoomInv(Note(Leave(s, sid, room), LeftRoom(sid, room)))
  {
    var t := Note(Leave(s, sid, room), LeftRoom(sid, room));
    assert t.log[..|s.log|] == s.log;
    forall i ensures SocketInv(t, i) { assert SocketInv(s, i); }
  }

  lemma MdSubscribeRooms(s: State, sid: nat, symbol: string)
    requires RoomInv(s)
    ensures RoomInv(DoMdSubscribe(s, sid, symbol))
  {
    var t := DoMdSubscribe(s, sid, symbol);
    if t != s {
      assert t.log[..|s.log|] == s.log;
      forall i ensures SocketInv(t, i) { assert SocketInv(s, i); }
    }
  }

  lemma MdUnsubscribeRooms(s: State, sid: nat, symbol: string)
    requires RoomInv(s)
    ensures RoomInv(DoMdUnsubscribe(s, sid, symbol))
  {
    var t := DoMdUnsubscribe(s, sid, symbol);
    if sid in s.sockets {
      assert t.log == s.log + [MdRemoved(sid, symbol)] && t.log[..|s.log|] == s.log;
      forall i ensures SocketInv(t, i) {
        assert SocketInv(s, i);
        if i == sid {
          forall other ensures MdRoom(symbol) == MdRoom(other) ==> symbol == other {
            RoomNames(symbol, other, "");
          }
        }
      }
    }
  }

  lemma DisconnectRooms(s: State, sid: nat)
    requires RoomInv(s)
    ensures RoomInv(DoDisconnect(s, sid))
  {
    forall i ensures SocketInv(DoDisconnect(s, sid), i) { assert SocketInv(s, i); }
  }

  lemma PushRooms(s: State, userId: string)
    requires RoomInv(s)
    ensures RoomInv(DoPush(s, userId))
  {
    var t := DoPush(s, userId);
    var e := t.log[|s.log|];
    assert t.log == s.log + [e] && t.log[..|s.log|] == s.log;
    forall sid ensures SocketInv(t, sid) { assert SocketInv(s, sid); }
    forall sid | sid in e.to ensures Connected(sid, userId) in t.log {
      assert SocketInv(s, sid);
      RoomNames(userId, s.sockets[sid].userId, UserRoom(userId));
      assert UserRoom(userId)[0] != 'm';
    }
  }

  lemma RoomStep(s: State, a: Action)
    requires RoomInv(s)
    ensures RoomInv(Do(s, a))
  {
    match a {
      case Connect(userId) => ConnectRooms(s, userId);
      case Subscribe(sid, room) =>
        if sid in s.sockets && IsMarketRoom(room) {
          JoinRooms(s, sid, room);
          SnapshotRooms(Note(Join(s, sid, room), Subscribed(sid, room)), SymbolFromRoom(room), false);
        }
      case Unsubscribe(sid, room) => if sid in s.sockets { LeaveRooms(s, sid, room); }
      case MdSubscribe(sid, symbol) => MdSubscribeRooms(s, sid, symbol);
      case MdUnsubscribe(sid, symbol) => MdUnsubscribeRooms(s, sid, symbol);
      case Disconnect(sid) => DisconnectRooms(s, sid);
      case Fire(timer) =>
        if timer in s.timers && s.timers[timer].due <= s.now {
          var symbol := s.timers[timer].symbol;
          var t := s.(timers := s.timers - {timer}, pendingBook := s.pendingBook - {symbol});
          RoomFrame(s, t);
          SnapshotRooms(t, symbol, true);
        }
      case Push(userId) => PushRooms(s, userId);
      case _ => RoomFrame(s, Do(s, a));
    }
  }

  lemma {:induction false} RoomRun(s: State, schedule: seq<Action>)
    requires RoomInv(s)
    ensures RoomInv(Run(s, schedule))
    decreases schedule
  {
    if schedule != [] {
      RoomStep(s, schedule[0]);
      RoomRun(Do(s, schedule[0]), schedule[1..]);
    }
  }

  // --- Theorems ----------------------------------------------------------------

  lemma {:induction false} RunThen(s: State, schedule: seq<Action>, a: Action)
    ensures Run(s, schedule + [a]) == Do(Run(s, schedule), a)
    decreases schedule
  {
    if schedule == [] {
      assert schedule + [a] == [a] && [a][1..] == [];
    } else {
      assert (schedule + [a])[1..] == schedule[1..] + [a];
      RunThen(Do(s, schedule[0]), schedule[1..], a);
    }
  }

  lemma ReachableStep(s: State, a: Action)
    requires Reachable(s)
    ensures Reachable(Do(s, a))
  {
    var supported, schedule :| s == Run(Initial(supported), schedule);
    RunThen(Initial(supported), schedule, a);
  }

  lemma InitialReachable(supported: set<string>)
    ensures Reachable(Initial(supported))
  {
    assert Initial(supported) == Run(Initial(supported), []);
  }

  lemma ReachableRooms(s: State)
    requires Reachable(s)
    ensures RoomInv(s)
  {
    var supported, schedule :| s == Run(Initial(supported), schedule);
    RoomRun(Initial(supported), schedule);
  }

  /**
   In every run: a socket is in `user:X` only if it authenticated as X; its market-data rooms come from
   its own list, which holds at most 20 symbols, all of them supported; and whatever is pushed for X
   reaches only sockets that authenticated as X.
   */
  lemma RoomsArePrivate(s: State, sid: nat, x: string)
    requires Reachable(s) && sid in s.sockets
    ensures var k := s.sockets[sid];
      && Connected(sid, k.userId) in s.log
      && ("user:" + x in k.rooms ==> x == k.userId)
      && ("md:" + x in k.rooms ==> x in k.md)
      && k.md <= s.supported && |k.md| <= 20
      && (forall e :: e in s.log && e.Pushed? && sid in e.to ==> e.userId == k.userId)
  {
    ReachableRooms(s);
    assert SocketInv(s, sid);
    var k := s.sockets[sid];
    forall y ensures UserRoom(x) != MdRoom(y) && (MdRoom(x) == MdRoom(y) ==> x == y)
      && (UserRoom(x) == UserRoom(y) ==> x == y) && UserRoom(y) != MdRoom(x) {
      RoomNames(x, y, "");
      RoomNames(y, x, "");
    }
    RoomNames(x, x, UserRoom(x));
    assert UserRoom(x)[0] == 'u';
    assert MdRoom(x)[1] == 'd';
  }

  /** A push for a user reaches exactly the user's own sockets that have not left the user's room. */
  lemma PushReaches(s: State, userId: string, sid: nat)
    requires Reachable(s) && sid in s.sockets
    ensures var t := Do(s, Push(userId));
      && t.log == s.log + [t.log[|s.log|]]
      && (sid in t.log[|s.log|].to
          <==> s.sockets[sid].userId == userId && InRoom(s.log, sid, UserRoom(userId)))
  {
    RoomsArePrivate(s, sid, userId);
    ReachableRooms(s);
    assert SocketInv(s, sid);
  }

  predicate Outside(s: State, sid: nat, userId: string) {
    sid < s.nextSocket && (sid in s.sockets ==> UserRoom(userId) !in s.sockets[sid].rooms)
  }

  lemma OutsideStep(s: State, a: Action, sid: nat, userId: string)
    requires Outside(s, sid, userId)
    ensures Outside(Do(s, a), sid, userId)
  {
    match a {
      case Subscribe(_, room) =>
        if IsMarketRoom(room) { RoomNames(userId, SymbolFromRoom(room), room); }
      case MdSubscribe(_, symbol) => RoomNames(userId, symbol, "");
      case _ => OutsideOther(s, a, sid, userId);
    }
  }

  lemma OutsideOther(s: State, a: Action, sid: nat, userId: string)
    requires Outside(s, sid, userId) && !a.Subscribe? && !a.MdSubscribe?
    ensures Outside(Do(s, a), sid, userId)
  {
  }

  /** Nothing but connecting puts a socket into a user room: once it has left its own, it stays out. */
  lemma {:induction false} LeftForGood(s: State, schedule: seq<Action>, sid: nat, userId: string)
    requires Outside(s, sid, userId)
    ensures Outside(Run(s, schedule), sid, userId)
    decreases schedule
  {
    if schedule != [] {
      OutsideStep(s, schedule[0], sid, userId);
      LeftForGood(Do(s, schedule[0]), schedule[1..], sid, userId);
    }
  }

  /** So a socket that leaves its own user room misses every later push for its user. */
  lemma MissesPushes(s: State, sid: nat, schedule: seq<Action>)
    requires Reachable(s) && sid in s.sockets
    ensures var userId := s.sockets[sid].userId;
      var t := Run(Do(s, Unsubscribe(sid, UserRoom(userId))), schedule);
      sid !in Members(t, UserRoom(userId))
  {
    ReachableRooms(s);
    assert SocketInv(s, sid);
    var userId := s.sockets[sid].userId;
    LeftForGood(Do(s, Unsubscribe(sid, UserRoom(userId))), schedule, sid, userId);
  }

  /** The shortest such run: a connected socket of the user, and a push for the user that reaches nobody. */
  lemma FirstToLeave(supported: set<string>, userId: string)
    ensures var s := Run(Initial(supported), [Connect(userId), Unsubscribe(0, "user:" + userId), Push(userId)]);
      && Reachable(s) && 0 in s.sockets && s.sockets[0].userId == userId
      && Pushed(userId, {}) in s.log
  {
    var room := UserRoom(userId);
    var s1 := DoConnect(Initial(supported), userId);
    assert s1.sockets == map[0 := Socket(userId, {}, {room})];
    var s2 := Do(s1, Unsubscribe(0, room));
    assert s2.sockets == map[0 := Socket(userId, {}, {})] by { assert {room} - {room} == {}; }
    assert Members(s2, room) == {};
    RunThen(Initial(supported), [], Connect(userId));
    RunThen(Initial(supported), [Connect(userId)], Unsubscribe(0, room));
    RunThen(Initial(supported), [Connect(userId), Unsubscribe(0, room)], Push(userId));
    assert [] + [Connect(userId)] == [Connect(userId)];
    assert [Connect(userId)] + [Unsubscribe(0, room)] == [Connect(userId), Unsubscribe(0, room)];
    assert [Connect(userId), Unsubscribe(0, room)] + [Push(userId)]
        == [Connect(userId), Unsubscribe(0, room), Push(userId)];
  }

  /** A listed symbol whose room was left by the generic `unsubscribe` cannot be asked for again. */
  lemma LockedOut(s: State, sid: nat, symbol: string)
    requires sid in s.sockets && symbol in s.sockets[sid].md
    ensures var t := Do(Do(s, Unsubscribe(sid, "md:" + symbol)), MdSubscribe(sid, symbol));
            sid in t.sockets && "md:" + symbol !in t.sockets[sid].rooms
  {
  }

  /**
   Asking for a symbol puts the socket into its room exactly when the room is already joined, or the
   symbol is supported, not on the socket's list, and the list has space. In particular a symbol
   whose room was left by the generic `unsubscribe` is still on the list, so asking again does nothing.
   */
  lemma AskingForASymbol(s: State, sid: nat, symbol: string)
    requires sid in s.sockets
    ensures var k := s.sockets[sid];
      "md:" + symbol in Do(s, MdSubscribe(sid, symbol)).sockets[sid].rooms
      <==> "md:" + symbol in k.rooms || (symbol in s.supported && symbol !in k.md && |k.md| < 20)
  {
  }

  // --- Market-data lists as the history has them ------------------------------------

  /** The latest addition or removal of the symbol by the socket was an addition. */
  predicate Listed(log: seq<Event>, sid: nat, symbol: string) {
    if log == [] then false
    else
      var e := log[|log| - 1];
      if e == MdAdded(sid, symbol) then true
      else if e == MdRemoved(sid, symbol) || (e.Connected? && e.sid == sid) then false
      else Listed(log[..|log| - 1], sid, symbol)
  }

  /** The socket has left the symbol's room by the generic `unsubscribe` since it last added the symbol. */
  predicate LeftSince(log: seq<Event>, sid: nat, symbol: string) {
    if log == [] then false
    else
      var e := log[|log| - 1];
      if e == LeftRoom(sid, MdRoom(symbol)) then true
      else if e == MdAdded(sid, symbol) then false
      else LeftSince(log[..|log| - 1], sid, symbol)
  }

  ghost predicate ListInv(s: State) {
    && (forall sid, symbol :: sid in s.sockets ==> (symbol in s.sockets[sid].md <==> Listed(s.log, sid, symbol)))
    && (forall e :: e in s.log && e.Subscribed? ==> IsMarketRoom(e.room))
  }

  /** Steps that leave the lists alone and write nothing about them. */
  lemma ListFrame(s: State, t: State)
    requires ListInv(s)
    requires forall sid :: sid in t.sockets ==> sid in s.sockets && t.sockets[sid].md == s.sockets[sid].md
    requires t.log == s.log
             || exists e :: t.log == s.log + [e] && !e.Connected? && !e.MdAdded? && !e.MdRemoved?
                            && (e.Subscribed? ==> IsMarketRoom(e.room))
    ensures ListInv(t)
  {
    if t.log != s.log { assert t.log[..|s.log|] == s.log; }
  }

  lemma ListChange(s: State, t: State, e: Event)
    requires ListInv(s) && t.log == s.log + [e] && !e.Subscribed?
    requires forall sid, symbol :: sid in t.sockets ==>
               (symbol in t.sockets[sid].md
                <==> if e == MdAdded(sid, symbol) then true
                     else if e == MdRemoved(sid, symbol) || (e.Connected? && e.sid == sid) then false
                     else sid in s.sockets && symbol in s.sockets[sid].md)
    requires forall sid :: sid in t.sockets ==> sid in s.sockets || (e.Connected? && e.sid == sid)
    ensures ListInv(t)
  {
    assert t.log[..|s.log|] == s.log;
  }

  lemma ListOther(s: State, a: Action)
    requires ListInv(s)
    requires !a.Connect? && !a.Subscribe? && !a.MdSubscribe? && !a.MdUnsubscribe? && !a.Fire?
    ensures ListInv(Do(s, a))
  {
    var t := Do(s, a);
    assert t.log == s.log || t.log == s.log + [t.log[|s.log|]];
    ListFrame(s, t);
  }

  lemma ListSubscribe(s: State, sid: nat, room: string)
    requires ListInv(s)
    ensures ListInv(DoSubscribe(s, sid, room))
  {
    if sid in s.sockets && IsMarketRoom(room) {
      var mid := Note(Join(s, sid, room), Subscribed(sid, room));
      ListFrame(s, mid);
      ListFrame(mid, DoSubscribe(s, sid, room));
    }
  }

  lemma ListAdd(s: State, sid: nat, symbol: string)
    requires ListInv(s)
    ensures ListInv(DoMdSubscribe(s, sid, symbol))
  {
    var t := DoMdSubscribe(s, sid, symbol);
    if t != s { ListChange(s, t, MdAdded(sid, symbol)); }
  }

  lemma ListRemove(s: State, sid: nat, symbol: string)
    requires ListInv(s)
    ensures ListInv(DoMdUnsubscribe(s, sid, symbol))
  {
    if sid in s.sockets { ListChange(s, DoMdUnsubscribe(s, sid, symbol), MdRemoved(sid, symbol)); }
  }

  lemma ListStep(s: State, a: Action)
    requires ListInv(s)
    ensures ListInv(Do(s, a))
  {
    var t := Do(s, a);
    match a {
      case Connect(userId) => ListChange(s, t, Connected(s.nextSocket, userId));
      case Subscribe(sid, room) => ListSubscribe(s, sid, room);
      case MdSubscribe(sid, symbol) => ListAdd(s, sid, symbol);
      case MdUnsubscribe(sid, symbol) => ListRemove(s, sid, symbol);
      case Fire(timer) => ListFrame(s, t);
      case _ => ListOther(s, a);
    }
  }

  lemma {:induction false} ListRun(s: State, schedule: seq<Action>)
    requires ListInv(s)
    ensures ListInv(Run(s, schedule))
    decreases schedule
  {
    if schedule != [] {
      ListStep(s, schedule[0]);
      ListRun(Do(s, schedule[0]), schedule[1..]);
    }
  }

  lemma {:induction false} LeftOrIn(log: seq<Event>, sid: nat, symbol: string)
    requires Listed(log, sid, symbol) && forall e :: e in log && e.Subscribed? ==> IsMarketRoom(e.room)
    ensures InRoom(log, sid, MdRoom(symbol)) <==> !LeftSince(log, sid, symbol)
  {
    var last := |log| - 1;
    var e := log[last];
    match e {
      case MdAdded(_, other) => RoomNames(symbol, other, "");
      case MdRemoved(_, other) => RoomNames(symbol, other, "");
      case Subscribed(_, room) => RoomNames(symbol, SymbolFromRoom(room), room);
      case _ =>
    }
    if e != MdAdded(sid, symbol) { LeftOrIn(log[..last], sid, symbol); }
  }

  /**
   In every run a symbol is on a socket's list exactly when the socket's latest addition or removal of
   it was an addition, and a listed symbol's room is not joined exactly when it was left since.
   */
  lemma ListedMeans(s: State, sid: nat, symbol: string)
    requires Reachable(s) && sid in s.sockets
    ensures var k := s.sockets[sid];
      && (symbol in k.md <==> Listed(s.log, sid, symbol))
      && (symbol in k.md ==> (MdRoom(symbol) !in k.rooms <==> LeftSince(s.log, sid, symbol)))
  {
    var supported, schedule :| s == Run(Initial(supported), schedule);
    ListRun(Initial(supported), schedule);
    ReachableRooms(s);
    assert SocketInv(s, sid);
    if symbol in s.sockets[sid].md { LeftOrIn(s.log, sid, symbol); }
  }

  /** So a supported symbol that is listed, or has space, is asked for in vain exactly when it was left since. */
  lemma AskedInVain(s: State, sid: nat, symbol: string)
    requires Reachable(s) && sid in s.sockets && symbol in s.supported
    requires symbol in s.sockets[sid].md || |s.sockets[sid].md| < 20
    ensures "md:" + symbol !in Do(s, MdSubscribe(sid, symbol)).sockets[sid].rooms
            <==> Listed(s.log, sid, symbol) && LeftSince(s.log, sid, symbol)
  {
    ListedMeans(s, sid, symbol);
    AskingForASymbol(s, sid, symbol);
  }

  /** Taking the symbol off the list first brings it back. */
  lemma AskingAfterRemoving(s: State, sid: nat, symbol: string)
    requires Reachable(s) && sid in s.sockets && symbol in s.sockets[sid].md
    ensures var t := Do(Do(s, MdUnsubscribe(sid, symbol)), MdSubscribe(sid, symbol));
            sid in t.sockets && "md:" + symbol in t.sockets[sid].rooms
  {
    ReachableRooms(s);
    assert SocketInv(s, sid);
    var md := s.sockets[sid].md;
    assert |md - {symbol}| == |md| - 1;
  }

  ghost predicate CapitalsAndDigits(s: string) {
    s != "" && forall i :: 0 <= i < |s| ==> 'A' <= s[i] <= 'Z' || '0' <= s[i] <= '9'
  }

  lemma ReadsPair(room: string) returns (base: string, quote: string)
    requires IsMarketRoom(room)
    ensures CapitalsAndDigits(base) && CapitalsAndDigits(quote) && room == "market:" + (base + "-" + quote)
  {
    base, quote := SplitsPair(room[7..]);
    CodesAre(base);
    CodesAre(quote);
    assert room == room[..7] + room[7..];
  }

  lemma CodesAre(s: string)
    ensures IsCode(s) <==> CapitalsAndDigits(s)
  {
  }

  lemma SplitsPair(s: string) returns (base: string, quote: string)
    requires IsPair(s)
    ensures IsCode(base) && IsCode(quote) && s == base + "-" + quote
  {
    var i :| 0 <= i < |s| && s[i] == '-' && IsCode(s[..i]) && IsCode(s[i + 1..]);
    base, quote := s[..i], s[i + 1..];
  }

  /** The gateway accepts exactly the rooms of two words of capitals and digits with a dash between them. */
  lemma MarketRoomMeans(room: string)
    ensures IsMarketRoom(room) <==> exists base, quote ::
      CapitalsAndDigits(base) && CapitalsAndDigits(quote) && room == "market:" + (base + "-" + quote)
  {
    if IsMarketRoom(room) { var base, quote := ReadsPair(room); }
    forall base, quote |
      CapitalsAndDigits(base) && CapitalsAndDigits(quote) && room == "market:" + (base + "-" + quote)
      ensures IsMarketRoom(room)
    {
      CodesAre(base);
      CodesAre(quote);
      MarketRoomNames(base, quote);
    }
  }

  /** A room name the gateway accepts from a client, read both ways. */
  lemma MarketRoomNames(base: string, quote: string)
    requires IsCode(base) && IsCode(quote)
    ensures IsMarketRoom(MarketRoom(base + "-" + quote))
    ensures SymbolFromRoom(MarketRoom(base + "-" + quote)) == base + "-" + quote
  {
    var s := base + "-" + quote;
    assert s[|base|] == '-' && s[..|base|] == base && s[|base| + 1..] == quote;
    assert MarketRoom(s)[..7] == "market:" && MarketRoom(s)[7..] == s;
  }
}
