/**
 The realtime gateway: rooms, subscriptions, and the coalescing order-book scheduler.

 Client messages, bus events, clock ticks, timers and database reads are `Action`s in any order; an
 action that is not enabled leaves the state alone, so every sequence of actions is a run.
 */
module Gateway {
  import opened Text

  const ORDERBOOK_COALESCE_MS: nat := 150
  const MARKET_DATA_SUB_LIMIT: nat := 20

  // --- Room names -------------------------------------------------------------

  function UserRoom(userId: string): string { "user:" + userId }

  function MarketRoom(symbol: string): string { "market:" + symbol }

  function MdRoom(symbol: string): string { "md:" + symbol }

  predicate IsCode(s: string) {
    s != "" && forall i :: 0 <= i < |s| ==> 'A' <= s[i] <= 'Z' || IsDigit(s[i])
  }

  /** Two codes joined by a dash. */
  predicate IsPair(s: string) {
    exists i :: 0 <= i < |s| && s[i] == '-' && IsCode(s[..i]) && IsCode(s[i + 1..])
  }

  predicate IsMarketRoom(room: string) {
    |room| >= 7 && room[..7] == "market:" && IsPair(room[7..])
  }

  function SymbolFromRoom(room: string): string
    requires IsMarketRoom(room)
  {
    room[7..]
  }

  // --- State ----------------------------------------------------------------------

  /** A connection; `md` is the gateway's own list of market-data subscriptions. */
  datatype Socket = Socket(userId: string, md: set<string>, rooms: set<string>)

  datatype Timer = Timer(symbol: string, due: nat)

  /**
   A snapshot being made. A book is known by the number of signalled changes it includes: `base` is
   that number when the snapshot started, `book` what the database returned.
   */
  datatype Read = Read(symbol: string, base: nat, book: Option<nat>)

  datatype Event =
    | Connected(sid: nat, userId: string)
    | Subscribed(sid: nat, room: string)
    | LeftRoom(sid: nat, room: string)
    | MdAdded(sid: nat, symbol: string)
    | MdRemoved(sid: nat, symbol: string)
    | Signalled(symbol: string)
      // A snapshot is known by its number from its start to its end.
    | Started(symbol: string, timed: bool, at: nat, id: nat)
    | BookRead(symbol: string, id: nat)
    | Broadcast(symbol: string, book: nat, to: set<nat>, id: nat)
    | ReadFailed(symbol: string, id: nat)
    | Pushed(userId: string, to: set<nat>)

  datatype State = State(
    supported: set<string>,
    now: nat,
    sockets: map<nat, Socket>,
    nextSocket: nat,
    timers: map<nat, Timer>,
    nextTimer: nat,
    pendingBook: map<string, nat>,
    snapshots: map<nat, Read>,
    nextRead: nat,
    log: seq<Event>)

  function Initial(supported: set<string>): State {
    State(supported, 0, map[], 0, map[], 0, map[], map[], 0, [])
  }

  datatype Action =
      // A connection whose token has been checked.
    | Connect(userId: string)
    | Subscribe(sid: nat, room: string)
    | Unsubscribe(sid: nat, room: string)
    | MdSubscribe(sid: nat, symbol: string)
    | MdUnsubscribe(sid: nat, symbol: string)
    | Disconnect(sid: nat)
    | Signal(symbol: string)
    | Tick(ms: nat)
    | Fire(timer: nat)
    | ReadBook(read: nat)
    | EmitBook(read: nat)
    | FailBook(read: nat)
      // `order.updated` or `balance.updated` for one user.
    | Push(userId: string)

  function Members(s: State, room: string): set<nat> {
    set sid | sid in s.sockets && room in s.sockets[sid].rooms
  }

  /** Changes of a symbol's book signalled so far. */
  function Changes(log: seq<Event>, symbol: string): nat {
    if log == [] then 0
    else Changes(log[..|log| - 1], symbol) + (if log[|log| - 1] == Signalled(symbol) then 1 else 0)
  }

  function Note(s: State, e: Event): State {
    s.(log := s.log + [e])
  }

  // --- Client messages ----------------------------------------------------------------

  function DoConnect(s: State, userId: string): State {
    Note(s.(sockets := s.sockets[s.nextSocket := Socket(userId, {}, {UserRoom(userId)})],
            nextSocket := s.nextSocket + 1),
         Connected(s.nextSocket, userId))
  }

  /** Starts a snapshot, unless nobody listens. */
  function Snapshot(s: State, symbol: string, timed: bool): State {
    if Members(s, MarketRoom(symbol)) == {} then s
    else Note(s.(snapshots := s.snapshots[s.nextRead := Read(symbol, Changes(s.log, symbol), None)],
                 nextRead := s.nextRead + 1),
              Started(symbol, timed, s.now, s.nextRead))
  }

  function Join(s: State, sid: nat, room: string): State
    requires sid in s.sockets
  {
    s.(sockets := s.sockets[sid := s.sockets[sid].(rooms := s.sockets[sid].rooms + {room})])
  }

  function Leave(s: State, sid: nat, room: string): State
    requires sid in s.sockets
  {
    s.(sockets := s.sockets[sid := s.sockets[sid].(rooms := s.sockets[sid].rooms - {room})])
  }

  function DoSubscribe(s: State, sid: nat, room: string): State {
    if sid !in s.sockets || !IsMarketRoom(room) then s
    else Snapshot(Note(Join(s, sid, room), Subscribed(sid, room)), SymbolFromRoom(room), false)
  }

  /** Any room at all can be left. */
  function DoUnsubscribe(s: State, sid: nat, room: string): State {
    if sid !in s.sockets then s
    else Note(Leave(s, sid, room), LeftRoom(sid, room))
  }

  function DoMdSubscribe(s: State, sid: nat, symbol: string): State {
    if sid !in s.sockets || symbol !in s.supported || symbol in s.sockets[sid].md
       || |s.sockets[sid].md| >= MARKET_DATA_SUB_LIMIT then s
    else
      var t := Join(s, sid, MdRoom(symbol));
      Note(t.(sockets := t.sockets[sid := t.sockets[sid].(md := t.sockets[sid].md + {symbol})]),
           MdAdded(sid, symbol))
  }

  function DoMdUnsubscribe(s: State, sid: nat, symbol: string): State {
    if sid !in s.sockets then s
    else
      var t := Leave(s, sid, MdRoom(symbol));
      Note(t.(sockets := t.sockets[sid := t.sockets[sid].(md := t.sockets[sid].md - {symbol})]),
           MdRemoved(sid, symbol))
  }

  function DoDisconnect(s: State, sid: nat): State {
    s.(sockets := s.sockets - {sid})
  }

  // --- Order-book scheduler -------------------------------------------------------------

  function DoSignal(s: State, symbol: string): State {
    var t := Note(s, Signalled(symbol));
    if symbol in s.pendingBook then t
    else t.(timers := s.timers[s.nextTimer := Timer(symbol, s.now + ORDERBOOK_COALESCE_MS)],
            nextTimer := s.nextTimer + 1,
            pendingBook := s.pendingBook[symbol := s.nextTimer])
  }

  /** A timer fires when it is due, or any time later. */
  function DoFire(s: State, timer: nat): State {
    if timer !in s.timers || s.now < s.timers[timer].due then s
    else
      var symbol := s.timers[timer].symbol;
      Snapshot(s.(timers := s.timers - {timer}, pendingBook := s.pendingBook - {symbol}), symbol, true)
  }

  function DoReadBook(s: State, read: nat): State {
    if read !in s.snapshots || s.snapshots[read].book.Some? then s
    else
      var k := s.snapshots[read];
      Note(s.(snapshots := s.snapshots[read := k.(book := Some(Changes(s.log, k.symbol)))]), BookRead(k.symbol, read))
  }

  function DoEmitBook(s: State, read: nat): State {
    if read !in s.snapshots || s.snapshots[read].book.None? then s
    else
      var Read(symbol, _, book) := s.snapshots[read];
      Note(s.(snapshots := s.snapshots - {read}), Broadcast(symbol, book.value, Members(s, MarketRoom(symbol)), read))
  }

  function DoFailBook(s: State, read: nat): State {
    if read !in s.snapshots then s
    else Note(s.(snapshots := s.snapshots - {read}), ReadFailed(s.snapshots[read].symbol, read))
  }

  function DoPush(s: State, userId: string): State {
    Note(s, Pushed(userId, Members(s, UserRoom(userId))))
  }

  function Do(s: State, a: Action): State {
    match a
    case Connect(userId) => DoConnect(s, userId)
    case Subscribe(sid, room) => DoSubscribe(s, sid, room)
    case Unsubscribe(sid, room) => DoUnsubscribe(s, sid, room)
    case MdSubscribe(sid, symbol) => DoMdSubscribe(s, sid, symbol)
    case MdUnsubscribe(sid, symbol) => DoMdUnsubscribe(s, sid, symbol)
    case Disconnect(sid) => DoDisconnect(s, sid)
    case Signal(symbol) => DoSignal(s, symbol)
    case Tick(ms) => s.(now := s.now + ms)
    case Fire(timer) => DoFire(s, timer)
    case ReadBook(read) => DoReadBook(s, read)
    case EmitBook(read) => DoEmitBook(s, read)
    case FailBook(read) => DoFailBook(s, read)
    case Push(userId) => DoPush(s, userId)
  }

  /** The state after a schedule. */
  function Run(s: State, schedule: seq<Action>): State
    decreases schedule
  {
    if schedule == [] then s else Run(Do(s, schedule[0]), schedule[1..])
  }

  ghost predicate Reachable(s: State) {
    exists supported, schedule :: s == Run(Initial(supported), schedule)
  }
}
