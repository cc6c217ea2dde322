/** The message relay as a step machine (nexus_server/main.go).

    Every connection runs one read loop. A step of the machine is one critical
    section of the registry mutex, one SQL statement or transaction, or one
    Send; steps of different connections interleave freely. Loops over query
    results take their elements in any order. */
module Relay {

  import opened Prelude

  /** A message accepted for delivery, tagged with the connection whose handler
      accepted it and a serial number, so that copies can be told apart. */
  datatype Msg = Msg(origin: Conn, serial: nat, sender: User, recipient: User, body: Bytes)

  /** Where a connection's handler stands. */
  datatype Pc =
    | Idle
    | Routing(msg: Msg)                  // blocks checked, registry not yet read
    | Sending(msg: Msg, to: Conn)        // recipient found online
    | Storing(msg: Msg)                  // recipient found offline
    | Fanning(todo: set<Msg>)            // group fan-out, read lock held
    | DeliverStart(user: User)           // installed, deliverOfflineMessages called
    | Selecting(user: User, to: Conn)    // registry read
    | Replaying(user: User, to: Conn, rows: set<nat>, sent: set<nat>)
    | Leaving                            // account erased, entry not yet removed
  {
    predicate Holds(m: Msg) {
      match this
      case Routing(x) => x == m
      case Sending(x, _) => x == m
      case Storing(x) => x == m
      case Fanning(todo) => m in todo
      case _ => false
    }

    /** A row this delivery has selected and not yet deleted. */
    predicate Busy(id: nat) {
      Replaying? && (id in rows || id in sent)
    }

    predicate Delivering(u: User) {
      (DeliverStart? || Selecting? || Replaying?) && user == u
    }
  }

  datatype State = State(
    clients: map<User, Conn>,
    username: map<Conn, User>,
    exited: set<Conn>,
    pc: map<Conn, Pc>,
    queue: map<nat, Msg>,
    nextRow: nat,
    log: Log)
  {
    function At(c: Conn): Pc {
      if c in pc then pc[c] else Idle
    }
  }

  /** What has happened so far. */
  datatype Log = Log(
    accepted: set<Msg>,
    direct: multiset<Msg>,           // handed to Send without being queued
    stored: map<nat, Msg>,           // every row ever inserted
    rowOf: map<Msg, nat>,            // and under which id
    selected: set<(Conn, nat)>,      // rows a delivery has read
    replayed: multiset<(Conn, nat)>, // rows a delivery has handed to Send
    sends: set<(Conn, Msg)>,         // to which connection each message went
    served: set<(Conn, User)>,       // connections installed for a user
    erased: set<nat>,                // rows deleted with an account
    deleted: set<User>)

  function Init(): State {
    State(map[], map[], {}, map[], map[], 0,
          Log({}, multiset{}, map[], map[], {}, multiset{}, {}, {}, {}, {}))
  }

  datatype Event =
    | Install(c: Conn, user: User)
    | Exit(c: Conn)
    | Ban(user: User)
    | EraseAccount(c: Conn)
    | Accept(c: Conn, msg: Msg)
    | Lookup(c: Conn)
    | Deliver(c: Conn)
    | Store(c: Conn)
    | FanStart(c: Conn, copies: set<Msg>)
    | FanNext(c: Conn, msg: Msg)
    | FanEnd(c: Conn)
    | DeliverLookup(c: Conn)
    | Select(c: Conn)
    | Replay(c: Conn, id: nat)
    | Purge(c: Conn, id: nat)
    | Finish(c: Conn)

  /** A fan-out keeps the registry's read lock until its loop is done. */
  predicate NoReader(s: State) {
    forall c :: c in s.pc ==> !s.pc[c].Fanning?
  }

  predicate IsNewMsg(s: State, c: Conn, m: Msg) {
    c in s.username && m.origin == c && m.sender == s.username[c] && m !in s.log.accepted
  }

  predicate Enabled(s: State, e: Event) {
    match e
    case Install(c, u) => s.At(c).Idle? && c !in s.exited && NoReader(s)
    case Exit(c) => (s.At(c).Idle? || s.At(c).Leaving?) && c !in s.exited && NoReader(s)
    case Ban(u) => NoReader(s)
    case EraseAccount(c) => s.At(c).Idle? && c !in s.exited && c in s.username
    case Accept(c, m) => s.At(c).Idle? && c !in s.exited && IsNewMsg(s, c, m)
    case Lookup(c) => s.At(c).Routing?
    case Deliver(c) => s.At(c).Sending?
    case Store(c) => s.At(c).Storing?
    case FanStart(c, copies) =>
      && s.At(c).Idle? && c !in s.exited
      && forall m :: m in copies ==> IsNewMsg(s, c, m) && m.recipient != m.sender
    case FanNext(c, m) => s.At(c).Fanning? && m in s.At(c).todo
    case FanEnd(c) => s.At(c).Fanning? && s.At(c).todo == {}
    case DeliverLookup(c) => s.At(c).DeliverStart?
    case Select(c) => s.At(c).Selecting?
    case Replay(c, id) => s.At(c).Replaying? && id in s.At(c).rows && id in s.log.stored
    case Purge(c, id) => s.At(c).Replaying? && s.At(c).rows == {} && id in s.At(c).sent
    case Finish(c) => s.At(c).Replaying? && s.At(c).rows == {} && s.At(c).sent == {}
  }

  /** Events of sessions and offline deliveries, as opposed to those of messages
      on their way. */
  predicate OfSession(e: Event) {
    e.Install? || e.Exit? || e.Ban? || e.EraseAccount? || e.DeliverLookup? || e.Select? || e.Replay? || e.Purge?
  }

  function Goto(s: State, c: Conn, pc: Pc): State {
    s.(pc := s.pc[c := pc])
  }

  /** storeOfflineMessage: one INSERT under the next row id. */
  function Enqueue(s: State, m: Msg): State {
    s.(queue := s.queue[s.nextRow := m], nextRow := s.nextRow + 1,
       log := s.log.(stored := s.log.stored[s.nextRow := m], rowOf := s.log.rowOf[m := s.nextRow]))
  }

  /** Send of a message that was never queued. */
  function SendDirect(s: State, to: Conn, m: Msg): State {
    s.(log := s.log.(direct := s.log.direct + multiset{m}, sends := s.log.sends + {(to, m)}))
  }

  /** Send of a queued row by the delivery of c. */
  function SendRow(s: State, to: Conn, c: Conn, id: nat): State
    requires id in s.log.stored
  {
    s.(log := s.log.(replayed := s.log.replayed + multiset{(c, id)},
                     sends := s.log.sends + {(to, s.log.stored[id])}))
  }

  /** The compare-and-delete a read loop does before it returns. */
  function Disconnect(s: State, c: Conn): State {
    if c in s.username && s.username[c] in s.clients && s.clients[s.username[c]] == c
    then s.(clients := s.clients - {s.username[c]})
    else s
  }

  function QueuedFor(s: State, u: User): set<nat> {
    set id | id in s.queue && s.queue[id].recipient == u
  }

  function QueuedWith(s: State, u: User): set<nat> {
    set id | id in s.queue && (s.queue[id].sender == u || s.queue[id].recipient == u)
  }

  function DoInstall(s: State, c: Conn, u: User): State {
    Goto(s, c, DeliverStart(u)).(clients := s.clients[u := c], username := s.username[c := u],
                                 log := s.log.(served := s.log.served + {(c, u)}))
  }

  function DoExit(s: State, c: Conn): State {
    Goto(Disconnect(s, c), c, Idle).(exited := s.exited + {c})
  }

  function DoErase(s: State, c: Conn): State
    requires c in s.username
  {
    var gone := QueuedWith(s, s.username[c]);
    Goto(s, c, Leaving).(queue := s.queue - gone,
                         log := s.log.(erased := s.log.erased + gone,
                                       deleted := s.log.deleted + {s.username[c]}))
  }

  /** New messages enter handler c. */
  function TakeIn(s: State, c: Conn, ms: set<Msg>, pc: Pc): State {
    Goto(s, c, pc).(log := s.log.(accepted := s.log.accepted + ms))
  }

  /** A fan-out copy is sent or queued without letting go of the read lock. */
  function DoFanNext(s: State, c: Conn, m: Msg): State
    requires s.At(c).Fanning?
  {
    Goto(if m.recipient in s.clients then SendDirect(s, s.clients[m.recipient], m) else Enqueue(s, m),
         c, Fanning(s.At(c).todo - {m}))
  }

  function Routed(s: State, m: Msg): Pc {
    if m.recipient in s.clients then Sending(m, s.clients[m.recipient]) else Storing(m)
  }

  function Located(s: State, u: User): Pc {
    if u in s.clients then Selecting(u, s.clients[u]) else Idle
  }

  function DoSelect(s: State, c: Conn): State
    requires s.At(c).Selecting?
  {
    var rows := QueuedFor(s, s.At(c).user);
    Goto(s, c, Replaying(s.At(c).user, s.At(c).to, rows, {})).(
      log := s.log.(selected := s.log.selected + set id | id in rows :: (c, id)))
  }

  function DoReplay(s: State, c: Conn, id: nat): State
    requires s.At(c).Replaying? && id in s.log.stored
  {
    var p := s.At(c);
    Goto(SendRow(s, p.to, c, id), c, p.(rows := p.rows - {id}, sent := p.sent + {id}))
  }

  function DoPurge(s: State, c: Conn, id: nat): State
    requires s.At(c).Replaying?
  {
    Goto(s, c, s.At(c).(sent := s.At(c).sent - {id})).(queue := s.queue - {id})
  }

  function Step(s: State, e: Event): State
    requires Enabled(s, e)
  {
    match e
    case Install(c, u) => DoInstall(s, c, u)
    case Exit(c) => DoExit(s, c)
    case Ban(u) => s.(clients := s.clients - {u})
    case EraseAccount(c) => DoErase(s, c)
    case Accept(c, m) => TakeIn(s, c, {m}, Routing(m))
    case Lookup(c) => Goto(s, c, Routed(s, s.At(c).msg))
    case Deliver(c) => Goto(SendDirect(s, s.At(c).to, s.At(c).msg), c, Idle)
    case Store(c) => Goto(Enqueue(s, s.At(c).msg), c, Idle)
    case FanStart(c, copies) => TakeIn(s, c, copies, Fanning(copies))
    case FanNext(c, m) => DoFanNext(s, c, m)
    case FanEnd(c) => Goto(s, c, Idle)
    case DeliverLookup(c) => Goto(s, c, Located(s, s.At(c).user))
    case Select(c) => DoSelect(s, c)
    case Replay(c, id) => DoReplay(s, c, id)
    case Purge(c, id) => DoPurge(s, c, id)
    case Finish(c) => Goto(s, c, Idle)
  }

  // ---------- runs ----------

  ghost predicate IsRun(es: seq<Event>)
    decreases |es|, 0
  {
    es == [] || (IsRun(es[..|es| - 1]) && Enabled(Exec(es[..|es| - 1]), es[|es| - 1]))
  }

  ghost function Exec(es: seq<Event>): State
    requires IsRun(es)
    decreases |es|, 1
  {
    if es == [] then Init() else Step(Exec(es[..|es| - 1]), es[|es| - 1])
  }

  // ---------- what every run keeps ----------

  /** Messages only go to connections that were installed for the recipient. */
  ghost predicate RoutesInv(s: State) {
    && (forall u :: u in s.clients ==> (s.clients[u], u) in s.log.served)
    && (forall c :: c in s.pc ==> PcRouted(s.pc[c], s.log.served))
    && (forall d, m :: (d, m) in s.log.sends ==> (d, m.recipient) in s.log.served)
  }

  ghost predicate PcRouted(pc: Pc, served: set<(Conn, User)>) {
    && (pc.Sending? ==> (pc.to, pc.msg.recipient) in served)
    && (pc.Selecting? || pc.Replaying? ==> (pc.to, pc.user) in served)
  }

  /** Every accepted message is in exactly one place: still with the handler
      that accepted it, handed over directly once, or stored as one row. */
  ghost predicate PlaceInv(s: State) {
    && (forall m :: m in s.log.accepted ==> s.At(m.origin).Holds(m) || m in s.log.direct || m in s.log.rowOf)
    && (forall c, m :: s.At(c).Holds(m) ==>
          m in s.log.accepted && m.origin == c && m !in s.log.direct && m !in s.log.rowOf)
    && (forall m :: m in s.log.direct ==>
          m in s.log.accepted && m !in s.log.rowOf && s.log.direct[m] == 1)
    && (forall m :: m in s.log.rowOf ==> m in s.log.accepted)
  }

  /** Rows: ids are never reused, and a row leaves the queue only after some
      delivery handed it over or an account was erased. */
  ghost predicate QueueInv(s: State) {
    && (forall id :: id in s.queue ==>
          id in s.log.stored && s.queue[id] == s.log.stored[id] && id !in s.log.erased)
    && (forall id :: id in s.log.stored ==>
          && id < s.nextRow
          && s.log.stored[id] in s.log.rowOf && s.log.rowOf[s.log.stored[id]] == id)
    && (forall m :: m in s.log.rowOf ==> s.log.rowOf[m] in s.log.stored && s.log.stored[s.log.rowOf[m]] == m)
    && (forall id :: id in s.log.erased ==>
          && id in s.log.stored
          && (s.log.stored[id].sender in s.log.deleted || s.log.stored[id].recipient in s.log.deleted))
    && (forall id :: id in s.log.stored && id !in s.queue && id !in s.log.erased ==>
          exists c :: (c, id) in s.log.replayed)
  }

  /** A delivery and a row: a selected row is pending or was handed over once
      by the same delivery, and is not deleted before that. */
  ghost predicate RowInv(s: State, c: Conn, id: nat) {
    var p := s.At(c);
    && (p.Replaying? && id in p.rows ==> (c, id) in s.log.selected && (c, id) !in s.log.replayed)
    && (p.Replaying? && id in p.sent ==> (c, id) in s.log.replayed)
    && (p.Busy(id) ==> id in s.log.stored && s.log.stored[id].recipient == p.user)
    && ((c, id) in s.log.selected ==>
          && id in s.log.stored
          && ((c, id) in s.log.replayed || (p.Replaying? && id in p.rows))
          && (id in s.queue ==> p.Busy(id)))
    && ((c, id) in s.log.replayed ==> (c, id) in s.log.selected && s.log.replayed[(c, id)] == 1)
  }

  ghost predicate DeliveryInv(s: State) {
    forall c, id :: RowInv(s, c, id)
  }

  ghost predicate Inv(s: State) {
    RoutesInv(s) && PlaceInv(s) && QueueInv(s) && DeliveryInv(s)
  }

  // ---- places of messages ----

  /** How a step may move messages: handler c takes in `taken`, hands over
      `sent`, stores `stored` and keeps the rest. */
  ghost predicate Moves(s: State, s': State, c: Conn, taken: set<Msg>, sent: set<Msg>, stored: set<Msg>) {
    && (forall d: Conn :: d != c ==> s'.At(d) == s.At(d))
    && (forall m :: s'.At(c).Holds(m) <==> (s.At(c).Holds(m) || m in taken) && m !in sent && m !in stored)
    && (forall m :: m in taken ==> m.origin == c && m !in s.log.accepted)
    && (forall m :: m in sent || m in stored ==> s.At(c).Holds(m))
    && sent !! stored
    && s'.log.accepted == s.log.accepted + taken
    && s'.log.direct == s.log.direct + multiset(sent)
    && s'.log.rowOf.Keys == s.log.rowOf.Keys + stored
  }

  lemma PlacesKept(s: State, s': State, c: Conn, taken: set<Msg>, sent: set<Msg>, stored: set<Msg>)
    requires PlaceInv(s) && Moves(s, s', c, taken, sent, stored)
    ensures PlaceInv(s')
  {}

  lemma TakenInKept(s: State, c: Conn, ms: set<Msg>, pc: Pc)
    requires PlaceInv(s) && s.At(c).Idle? && forall m :: pc.Holds(m) <==> m in ms
    requires forall m :: m in ms ==> IsNewMsg(s, c, m)
    ensures PlaceInv(TakeIn(s, c, ms, pc))
  {
    PlacesKept(s, TakeIn(s, c, ms, pc), c, ms, {}, {});
  }

  lemma SentKept(s: State, c: Conn, to: Conn, m: Msg, pc: Pc)
    requires PlaceInv(s) && s.At(c).Holds(m)
    requires forall x :: pc.Holds(x) <==> s.At(c).Holds(x) && x != m
    ensures PlaceInv(Goto(SendDirect(s, to, m), c, pc))
  {
    PlacesKept(s, Goto(SendDirect(s, to, m), c, pc), c, {}, {m}, {});
  }

  lemma StoredKept(s: State, c: Conn, m: Msg, pc: Pc)
    requires PlaceInv(s) && s.At(c).Holds(m)
    requires forall x :: pc.Holds(x) <==> s.At(c).Holds(x) && x != m
    ensures PlaceInv(Goto(Enqueue(s, m), c, pc))
  {
    PlacesKept(s, Goto(Enqueue(s, m), c, pc), c, {}, {}, {m});
  }

  lemma PlaceInvStep(s: State, e: Event)
    requires PlaceInv(s) && Enabled(s, e)
    ensures PlaceInv(Step(s, e))
  {
    match e
    case Ban(u) => QuietKept(s, Step(s, e), 0);
    case Accept(c, m) => TakenInKept(s, c, {m}, Routing(m));
    case FanStart(c, copies) => TakenInKept(s, c, copies, Fanning(copies));
    case Deliver(c) => SentKept(s, c, s.At(c).to, s.At(c).msg, Idle);
    case Store(c) => StoredKept(s, c, s.At(c).msg, Idle);
    case FanNext(c, m) =>
      var rest := Fanning(s.At(c).todo - {m});
      if m.recipient in s.clients {
        SentKept(s, c, s.clients[m.recipient], m, rest);
      } else {
        StoredKept(s, c, m, rest);
      }
    case _ => QuietStep(s, e);
  }

  predicate IsQuiet(e: Event) {
    !(e.Ban? || e.Accept? || e.FanStart? || e.Deliver? || e.Store? || e.FanNext?)
  }

  lemma QuietStep(s: State, e: Event)
    requires PlaceInv(s) && Enabled(s, e) && IsQuiet(e)
    ensures PlaceInv(Step(s, e))
  {
    QuietEffect(s, e);
    QuietKept(s, Step(s, e), e.c);
  }

  lemma QuietEffect(s: State, e: Event)
    requires Enabled(s, e) && IsQuiet(e)
    ensures var s' := Step(s, e);
            && (forall d: Conn :: d != e.c ==> s'.At(d) == s.At(d))
            && (forall m :: s'.At(e.c).Holds(m) <==> s.At(e.c).Holds(m))
            && s'.log.accepted == s.log.accepted && s'.log.direct == s.log.direct && s'.log.rowOf == s.log.rowOf
  {}

  lemma QuietKept(s: State, s': State, c: Conn)
    requires PlaceInv(s)
    requires forall d: Conn :: d != c ==> s'.At(d) == s.At(d)
    requires forall m :: s'.At(c).Holds(m) <==> s.At(c).Holds(m)
    requires s'.log.accepted == s.log.accepted && s'.log.direct == s.log.direct && s'.log.rowOf == s.log.rowOf
    ensures PlaceInv(s')
  {}

  // ---- rows ----

  lemma EnqueueKept(s: State, s': State, m: Msg)
    requires QueueInv(s) && m !in s.log.rowOf
    requires s'.queue == s.queue[s.nextRow := m] && s'.nextRow == s.nextRow + 1
    requires s'.log.stored == s.log.stored[s.nextRow := m] && s'.log.rowOf == s.log.rowOf[m := s.nextRow]
    requires s'.log.erased == s.log.erased && s'.log.deleted == s.log.deleted && s'.log.replayed == s.log.replayed
    ensures QueueInv(s')
  {}

  /** Rows may only disappear by being erased or after a handover. */
  lemma DequeueKept(s: State, s': State, gone: set<nat>)
    requires QueueInv(s)
    requires s'.queue == s.queue - gone && s'.nextRow == s.nextRow
    requires s'.log.stored == s.log.stored && s'.log.rowOf == s.log.rowOf
    requires s.log.erased <= s'.log.erased && s.log.deleted <= s'.log.deleted
    requires forall c, id :: (c, id) in s.log.replayed ==> (c, id) in s'.log.replayed
    requires forall id :: id in s'.log.erased ==> id in s.log.erased || id in gone
    requires forall id :: id in gone && id in s'.log.erased && id !in s.log.erased ==>
               && id in s.queue
               && (s.queue[id].sender in s'.log.deleted || s.queue[id].recipient in s'.log.deleted)
    requires forall id :: id in gone && id !in s'.log.erased ==> exists c :: (c, id) in s'.log.replayed
    ensures QueueInv(s')
  {}

  predicate LeavesRows(e: Event) {
    !(e.Store? || e.FanNext? || e.EraseAccount? || e.Purge?)
  }

  /** The tables of rows are the same, and no handover is forgotten. */
  ghost predicate RowsAlike(s: State, s': State) {
    && s'.queue == s.queue && s'.nextRow == s.nextRow
    && s'.log.stored == s.log.stored && s'.log.rowOf == s.log.rowOf
    && s'.log.erased == s.log.erased && s'.log.deleted == s.log.deleted
    && forall c, id :: (c, id) in s.log.replayed ==> (c, id) in s'.log.replayed
  }

  lemma LeavesRowsEffect(s: State, e: Event)
    requires Enabled(s, e) && LeavesRows(e)
    ensures RowsAlike(s, Step(s, e))
  {
    if OfSession(e) {
      LeavesRowsEffectOfSession(s, e);
    } else {
      LeavesRowsEffectOfMessage(s, e);
    }
  }

  lemma LeavesRowsEffectOfSession(s: State, e: Event)
    requires Enabled(s, e) && OfSession(e) && LeavesRows(e)
    ensures RowsAlike(s, Step(s, e))
  {}

  lemma LeavesRowsEffectOfMessage(s: State, e: Event)
    requires Enabled(s, e) && !OfSession(e) && LeavesRows(e)
    ensures RowsAlike(s, Step(s, e))
  {}

  lemma EraseKept(s: State, c: Conn)
    requires QueueInv(s) && c in s.username
    ensures QueueInv(DoErase(s, c))
  {
    DequeueKept(s, DoErase(s, c), QueuedWith(s, s.username[c]));
  }

  lemma PurgedRowKept(s: State, c: Conn, id: nat)
    requires QueueInv(s) && Enabled(s, Purge(c, id)) && RowInv(s, c, id)
    ensures QueueInv(DoPurge(s, c, id))
  {
    DequeueKept(s, DoPurge(s, c, id), {id});
  }

  lemma StoredRowKept(s: State, c: Conn, m: Msg, pc: Pc)
    requires PlaceInv(s) && QueueInv(s) && s.At(c).Holds(m)
    ensures QueueInv(Goto(Enqueue(s, m), c, pc))
  {
    EnqueueKept(s, Goto(Enqueue(s, m), c, pc), m);
  }

  lemma FannedRowKept(s: State, c: Conn, m: Msg)
    requires PlaceInv(s) && QueueInv(s) && Enabled(s, FanNext(c, m))
    ensures QueueInv(DoFanNext(s, c, m))
  {
    if m.recipient !in s.clients {
      StoredRowKept(s, c, m, Fanning(s.At(c).todo - {m}));
    }
  }

  lemma OtherRowsKept(s: State, e: Event)
    requires QueueInv(s) && Enabled(s, e) && LeavesRows(e)
    ensures QueueInv(Step(s, e))
  {
    LeavesRowsEffect(s, e);
    DequeueKept(s, Step(s, e), {});
  }

  lemma QueueInvStep(s: State, e: Event)
    requires PlaceInv(s) && QueueInv(s) && DeliveryInv(s) && Enabled(s, e)
    ensures QueueInv(Step(s, e))
  {
    match e
    case Store(c) => StoredRowKept(s, c, s.At(c).msg, Idle);
    case FanNext(c, m) => FannedRowKept(s, c, m);
    case EraseAccount(c) => EraseKept(s, c);
    case Purge(c, id) => assert RowInv(s, c, id); PurgedRowKept(s, c, id);
    case _ => OtherRowsKept(s, e);
  }

  // ---- deliveries ----

  predicate LeavesDeliveries(e: Event) {
    !(e.Select? || e.Replay? || e.Purge? || e.Finish?)
  }

  /** Deliveries in progress stand still, and the queue grows by the next id at
      most. */
  ghost predicate DeliveriesAlike(s: State, s': State) {
    && (forall c: Conn :: s.At(c).Replaying? || s'.At(c).Replaying? ==> s'.At(c) == s.At(c))
    && s'.log.selected == s.log.selected && s'.log.replayed == s.log.replayed
    && (forall id :: id in s.log.stored ==> id in s'.log.stored && s'.log.stored[id] == s.log.stored[id])
    && (forall id :: id in s'.queue ==> id in s.queue || id == s.nextRow)
  }

  lemma LeavesDeliveriesEffect(s: State, e: Event)
    requires QueueInv(s) && Enabled(s, e) && LeavesDeliveries(e)
    ensures DeliveriesAlike(s, Step(s, e))
  {
    if OfSession(e) {
      LeavesDeliveriesEffectOfSession(s, e);
    } else {
      LeavesDeliveriesEffectOfMessage(s, e);
    }
  }

  lemma LeavesDeliveriesEffectOfSession(s: State, e: Event)
    requires QueueInv(s) && Enabled(s, e) && OfSession(e) && LeavesDeliveries(e)
    ensures DeliveriesAlike(s, Step(s, e))
  {}

  lemma LeavesDeliveriesEffectOfMessage(s: State, e: Event)
    requires QueueInv(s) && Enabled(s, e) && !OfSession(e) && LeavesDeliveries(e)
    ensures DeliveriesAlike(s, Step(s, e))
  {
    match e
    case Store(c) => EnqueueEffect(s, c, s.At(c).msg, Idle);
    case FanNext(c, m) =>
      if m.recipient !in s.clients { EnqueueEffect(s, c, m, Fanning(s.At(c).todo - {m})); }
    case _ =>
  }

  lemma EnqueueEffect(s: State, c: Conn, m: Msg, pc: Pc)
    requires QueueInv(s) && !s.At(c).Replaying? && !pc.Replaying?
    ensures DeliveriesAlike(s, Goto(Enqueue(s, m), c, pc))
  {}

  /** A step that leaves every delivery in progress alone and only adds rows
      under the next id. */
  lemma DeliveryKept(s: State, s': State, c: Conn, id: nat)
    requires QueueInv(s) && RowInv(s, c, id)
    requires s.At(c).Replaying? || s'.At(c).Replaying? ==> s'.At(c) == s.At(c)
    requires s'.log.selected == s.log.selected && s'.log.replayed == s.log.replayed
    requires id in s.log.stored ==> id in s'.log.stored && s'.log.stored[id] == s.log.stored[id]
    requires id in s'.queue ==> id in s.queue || id == s.nextRow
    ensures RowInv(s', c, id)
  {}

  lemma SelectKept(s: State, c: Conn, d: Conn, id: nat)
    requires QueueInv(s) && RowInv(s, d, id) && s.At(c).Selecting?
    ensures RowInv(DoSelect(s, c), d, id)
  {}

  lemma ReplayKept(s: State, c: Conn, row: nat, d: Conn, id: nat)
    requires RowInv(s, c, row) && RowInv(s, d, id) && Enabled(s, Replay(c, row))
    ensures RowInv(DoReplay(s, c, row), d, id)
  {}

  lemma PurgeKept(s: State, c: Conn, row: nat, d: Conn, id: nat)
    requires RowInv(s, d, id) && Enabled(s, Purge(c, row))
    ensures RowInv(DoPurge(s, c, row), d, id)
  {}

  lemma FinishKept(s: State, c: Conn, d: Conn, id: nat)
    requires RowInv(s, d, id) && Enabled(s, Finish(c))
    ensures RowInv(Goto(s, c, Idle), d, id)
  {}

  lemma UndisturbedRow(s: State, e: Event, d: Conn, id: nat)
    requires QueueInv(s) && RowInv(s, d, id) && Enabled(s, e) && LeavesDeliveries(e)
    ensures RowInv(Step(s, e), d, id)
  {
    LeavesDeliveriesEffect(s, e);
    DeliveryKept(s, Step(s, e), d, id);
  }

  lemma RowInvStep(s: State, e: Event, d: Conn, id: nat)
    requires QueueInv(s) && DeliveryInv(s) && Enabled(s, e)
    ensures RowInv(Step(s, e), d, id)
  {
    assert RowInv(s, d, id);
    match e
    case Select(c) => SelectKept(s, c, d, id);
    case Replay(c, row) => assert RowInv(s, c, row); ReplayKept(s, c, row, d, id);
    case Purge(c, row) => PurgeKept(s, c, row, d, id);
    case Finish(c) => FinishKept(s, c, d, id);
    case _ => UndisturbedRow(s, e, d, id);
  }

  // ---- destinations ----

  lemma RoutesInvStep(s: State, e: Event)
    requires RoutesInv(s) && DeliveryInv(s) && Enabled(s, e)
    ensures RoutesInv(Step(s, e))
  {
    match e
    case Replay(c, id) => assert RowInv(s, c, id); RoutesAfterReplay(s, c, id);
    case FanNext(c, m) => RoutesAfterFanNext(s, c, m);
    case _ => RoutesOtherwise(s, e);
  }

  lemma RoutesAfterReplay(s: State, c: Conn, id: nat)
    requires RoutesInv(s) && RowInv(s, c, id) && Enabled(s, Replay(c, id))
    ensures RoutesInv(DoReplay(s, c, id))
  {}

  lemma RoutesAfterFanNext(s: State, c: Conn, m: Msg)
    requires RoutesInv(s) && Enabled(s, FanNext(c, m))
    ensures RoutesInv(DoFanNext(s, c, m))
  {}

  lemma RoutesOtherwise(s: State, e: Event)
    requires RoutesInv(s) && Enabled(s, e) && !e.Replay? && !e.FanNext?
    ensures RoutesInv(Step(s, e))
  {
    if OfSession(e) {
      RoutesOfSession(s, e);
    } else {
      RoutesOfMessage(s, e);
    }
  }

  lemma RoutesOfSession(s: State, e: Event)
    requires RoutesInv(s) && Enabled(s, e) && OfSession(e) && !e.Replay?
    ensures RoutesInv(Step(s, e))
  {}

  lemma RoutesOfMessage(s: State, e: Event)
    requires RoutesInv(s) && Enabled(s, e) && !OfSession(e) && !e.FanNext?
    ensures RoutesInv(Step(s, e))
  {}

  // ---- all of it, over every run ----

  lemma InvStep(s: State, e: Event)
    requires Inv(s) && Enabled(s, e)
    ensures Inv(Step(s, e))
  {
    RoutesInvStep(s, e);
    PlaceInvStep(s, e);
    QueueInvStep(s, e);
    forall d, id
      ensures RowInv(Step(s, e), d, id)
    {
      RowInvStep(s, e, d, id);
    }
  }

  /** In every reachable state the invariant holds. */
  lemma {:induction false} EveryRunKeepsInv(es: seq<Event>)
    requires IsRun(es)
    ensures Inv(Exec(es))
  {
    if es != [] {
      EveryRunKeepsInv(es[..|es| - 1]);
      InvStep(Exec(es[..|es| - 1]), es[|es| - 1]);
    }
  }

  /** No message is lost: after any interleaving, an accepted message is still
      with its handler, was handed to Send, is queued, or its own row was erased
      with an account. A message went only to connections of its recipient. */
  lemma NothingLost(es: seq<Event>, m: Msg)
    requires IsRun(es) && m in Exec(es).log.accepted
    ensures var s := Exec(es);
            || s.At(m.origin).Holds(m)
            || m in s.log.direct
            || (exists id :: id in s.queue && s.queue[id] == m)
            || (exists c, id :: (c, id) in s.log.replayed && id in s.log.stored && s.log.stored[id] == m)
            || (exists id :: id in s.log.erased && id in s.log.stored && s.log.stored[id] == m)
    ensures forall d :: (d, m) in Exec(es).log.sends ==> (d, m.recipient) in Exec(es).log.served
  {
    EveryRunKeepsInv(es);
    var s := Exec(es);
    if m in s.log.rowOf {
      var id := s.log.rowOf[m];
      assert s.log.stored[id] == m;
      if id !in s.queue && id !in s.log.erased {
        var c :| (c, id) in s.log.replayed;
      }
    }
  }

  /** A delivery deletes only rows it has handed over, so rows inserted while it
      runs survive it. */
  lemma PurgesOnlyHandedRows(es: seq<Event>, c: Conn, id: nat)
    requires IsRun(es) && Enabled(Exec(es), Purge(c, id))
    ensures (c, id) in Exec(es).log.replayed
    ensures forall other :: other in Exec(es).queue && (c, other) !in Exec(es).log.replayed ==>
              other in Step(Exec(es), Purge(c, id)).queue
  {
    EveryRunKeepsInv(es);
    assert RowInv(Exec(es), c, id);
  }

  /** A message handed over directly is handed over once and never queued; a
      queued one is stored as exactly one row. */
  lemma OnePlacePerMessage(es: seq<Event>, m: Msg)
    requires IsRun(es)
    ensures var s := Exec(es);
            && s.log.direct[m] <= 1
            && (m in s.log.direct ==> m !in s.log.rowOf && !s.At(m.origin).Holds(m))
            && (m in s.log.rowOf ==> !s.At(m.origin).Holds(m))
            && (forall id :: id in s.log.stored && s.log.stored[id] == m ==> m in s.log.rowOf && s.log.rowOf[m] == id)
  {
    EveryRunKeepsInv(es);
  }

  /** Once a delivery is done with a row, it has handed the row over exactly
      once if it selected it, and never otherwise: a row is handed over as often
      as deliveries select it. */
  lemma HandedOverIffSelected(es: seq<Event>, c: Conn, id: nat)
    requires IsRun(es) && !Exec(es).At(c).Busy(id)
    ensures Exec(es).log.replayed[(c, id)] == if (c, id) in Exec(es).log.selected then 1 else 0
  {
    EveryRunKeepsInv(es);
    assert RowInv(Exec(es), c, id);
  }

  // ---- deliveries that do not overlap ----

  /** At most one delivery per user at a time. */
  ghost predicate NoOverlap(s: State) {
    forall c: Conn, d: Conn, u: User :: s.At(c).Delivering(u) && s.At(d).Delivering(u) ==> c == d
  }

  ghost predicate NeverOverlaps(es: seq<Event>)
    requires IsRun(es)
  {
    NoOverlap(Exec(es)) && (es != [] ==> NeverOverlaps(es[..|es| - 1]))
  }

  ghost predicate SelectedByOne(s: State) {
    forall c, d, id :: (c, id) in s.log.selected && (d, id) in s.log.selected ==> c == d
  }

  /** A delivery reads a row that another delivery has read and not yet deleted. */
  ghost predicate Reselects(s: State, e: Event) {
    && e.Select? && s.At(e.c).Selecting?
    && exists d: Conn, id: nat :: s.At(d).Busy(id) && id in QueuedFor(s, s.At(e.c).user)
  }

  ghost predicate NeverReselects(es: seq<Event>)
    requires IsRun(es)
  {
    es == [] || (NeverReselects(es[..|es| - 1]) && !Reselects(Exec(es[..|es| - 1]), es[|es| - 1]))
  }

  lemma OnlySelectSelects(s: State, e: Event)
    requires Enabled(s, e) && !e.Select?
    ensures Step(s, e).log.selected == s.log.selected
  {}

  lemma SelectedBySelect(s: State, c: Conn)
    requires s.At(c).Selecting?
    ensures forall d: Conn, id: nat :: (d, id) in DoSelect(s, c).log.selected <==>
              (d, id) in s.log.selected || (d == c && id in QueuedFor(s, s.At(c).user))
  {}

  /** A queued row was selected by d exactly if d is still busy with it. */
  lemma BusyIffSelected(s: State, d: Conn, id: nat)
    requires RowInv(s, d, id) && id in s.queue
    ensures s.At(d).Busy(id) <==> (d, id) in s.log.selected
  {}

  lemma SelectKeepsUniqueIff(s: State, c: Conn)
    requires Inv(s) && s.At(c).Selecting?
    ensures SelectedByOne(DoSelect(s, c)) <==> SelectedByOne(s) && !Reselects(s, Select(c))
  {
    SelectedBySelect(s, c);
    var s' := DoSelect(s, c);
    if Reselects(s, Select(c)) {
      var d, id := ReselectedRow(s, c);
      assert (d, id) in s'.log.selected && (c, id) in s'.log.selected;
    } else {
      forall d, id | (d, id) in s.log.selected && id in QueuedFor(s, s.At(c).user)
        ensures d == c
      {
        if d != c {
          SelectedIsReselected(s, c, d, id);
        }
      }
    }
  }

  lemma ReselectedRow(s: State, c: Conn) returns (d: Conn, id: nat)
    requires Inv(s) && s.At(c).Selecting? && Reselects(s, Select(c))
    ensures (d, id) in s.log.selected && id in QueuedFor(s, s.At(c).user) && d != c
  {
    d, id :| s.At(d).Busy(id) && id in QueuedFor(s, s.At(c).user);
    assert RowInv(s, d, id);
    BusyIffSelected(s, d, id);
  }

  lemma SelectedIsReselected(s: State, c: Conn, d: Conn, id: nat)
    requires Inv(s) && s.At(c).Selecting? && d != c
    requires (d, id) in s.log.selected && id in QueuedFor(s, s.At(c).user)
    ensures Reselects(s, Select(c))
  {
    assert RowInv(s, d, id);
    BusyIffSelected(s, d, id);
    assert s.At(d).Busy(id);
  }

  /** No row is ever selected by two deliveries if and only if no delivery reads
      a row while another is busy with it: a condition on the state before the
      query. */
  lemma {:induction false} SelectedOnceIff(es: seq<Event>)
    requires IsRun(es)
    ensures SelectedByOne(Exec(es)) <==> NeverReselects(es)
  {
    if es != [] {
      var before, e := es[..|es| - 1], es[|es| - 1];
      SelectedOnceIff(before);
      EveryRunKeepsInv(before);
      if e.Select? {
        SelectKeepsUniqueIff(Exec(before), e.c);
      } else {
        OnlySelectSelects(Exec(before), e);
      }
    }
  }

  lemma RowsSelectedOnce(es: seq<Event>)
    requires IsRun(es) && NeverOverlaps(es)
    ensures SelectedByOne(Exec(es))
  {
    NoOverlapNoReselect(es);
    SelectedOnceIff(es);
  }

  ghost predicate HandedOverOnce(s: State) {
    forall c, d, id :: (c, id) in s.log.replayed && (d, id) in s.log.replayed ==>
      c == d && s.log.replayed[(c, id)] == 1
  }

  /** Once no delivery has rows left to deal with, every row has been handed over
      at most once if and only if none was read while another delivery was busy
      with it. */
  lemma HandedOverOnceIff(es: seq<Event>)
    requires IsRun(es) && forall c: Conn, id: nat :: !Exec(es).At(c).Busy(id)
    ensures HandedOverOnce(Exec(es)) <==> NeverReselects(es)
  {
    SelectedOnceIff(es);
    forall c: Conn, id: nat
      ensures Exec(es).log.replayed[(c, id)] == if (c, id) in Exec(es).log.selected then 1 else 0
    {
      HandedOverIffSelected(es, c, id);
    }
  }

  /** Deliveries that never overlap never read each other's rows. */
  lemma {:induction false} NoOverlapNoReselect(es: seq<Event>)
    requires IsRun(es) && NeverOverlaps(es)
    ensures NeverReselects(es)
  {
    if es != [] {
      var before, e := es[..|es| - 1], es[|es| - 1];
      NoOverlapNoReselect(before);
      var s := Exec(before);
      if Reselects(s, e) {
        EveryRunKeepsInv(before);
        var d: Conn, id: nat :| s.At(d).Busy(id) && id in QueuedFor(s, s.At(e.c).user);
        assert RowInv(s, d, id);
        assert s.At(d).Delivering(s.At(e.c).user) && s.At(e.c).Delivering(s.At(e.c).user);
      }
    }
  }

  /** If no row is read while another delivery is busy with it, in particular if
      deliveries for one user never overlap, each row is handed over by at most
      one of them and at most once, and exactly once if it has left the queue
      other than with an account. */
  lemma ExactlyOnceWithoutReselect(es: seq<Event>, id: nat)
    requires IsRun(es) && NeverReselects(es) && id in Exec(es).log.stored
    ensures forall c, d :: (c, id) in Exec(es).log.replayed && (d, id) in Exec(es).log.replayed ==>
              c == d && Exec(es).log.replayed[(c, id)] == 1
    ensures id !in Exec(es).queue && id !in Exec(es).log.erased ==>
              exists c :: (c, id) in Exec(es).log.replayed
  {
    EveryRunKeepsInv(es);
    SelectedOnceIff(es);
    forall c, d | (c, id) in Exec(es).log.replayed && (d, id) in Exec(es).log.replayed
      ensures c == d && Exec(es).log.replayed[(c, id)] == 1
    {
      assert RowInv(Exec(es), c, id) && RowInv(Exec(es), d, id);
    }
  }

  lemma ExactlyOnceWithoutOverlap(es: seq<Event>, id: nat, c: Conn, d: Conn)
    requires IsRun(es) && NeverOverlaps(es) && id in Exec(es).log.stored
    ensures (c, id) in Exec(es).log.replayed && (d, id) in Exec(es).log.replayed ==>
              c == d && Exec(es).log.replayed[(c, id)] == 1
    ensures id !in Exec(es).queue && id !in Exec(es).log.erased ==>
              exists e :: (e, id) in Exec(es).log.replayed
  {
    NoOverlapNoReselect(es);
    ExactlyOnceWithoutReselect(es, id);
  }

  lemma Extend(es: seq<Event>, e: Event) returns (more: seq<Event>)
    requires IsRun(es) && Enabled(Exec(es), e)
    ensures more == es + [e] && IsRun(more) && Exec(more) == Step(Exec(es), e)
  {
    more := es + [e];
    assert more[..|more| - 1] == es;
  }

  // ---------- the registry ----------

  /** The name connection c last authenticated under. */
  function LastUser(es: seq<Event>, c: Conn): Option<User> {
    if es == [] then None
    else
      var e := es[|es| - 1];
      if e.Install? && e.c == c then Some(e.user) else LastUser(es[..|es| - 1], c)
  }

  /** Event j ends c's standing as u's session: a newer login of u, a ban of u,
      or the end of c's read loop while it goes by the name u. */
  predicate Displaces(es: seq<Event>, j: nat, c: Conn, u: User)
    requires j < |es|
  {
    || (es[j].Install? && es[j].user == u)
    || es[j] == Ban(u)
    || (es[j] == Exit(c) && LastUser(es[..j], c) == Some(u))
  }

  predicate InstalledSince(es: seq<Event>, i: nat, c: Conn, u: User) {
    i < |es| && es[i] == Install(c, u) && forall j :: i < j < |es| ==> !Displaces(es, j, c, u)
  }

  /** c is u's latest installed session and has not been displaced. */
  ghost predicate IsCurrent(es: seq<Event>, c: Conn, u: User) {
    exists i: nat :: InstalledSince(es, i, c, u)
  }

  lemma {:induction false} UsernameIsLastUser(es: seq<Event>, c: Conn)
    requires IsRun(es)
    ensures LastUser(es, c) == if c in Exec(es).username then Some(Exec(es).username[c]) else None
  {
    if es != [] {
      UsernameIsLastUser(es[..|es| - 1], c);
      UsernameStep(Exec(es[..|es| - 1]), es[|es| - 1]);
    }
  }

  lemma UsernameStep(s: State, e: Event)
    requires Enabled(s, e)
    ensures Step(s, e).username == if e.Install? then s.username[e.c := e.user] else s.username
  {}

  /** IsCurrent, one event later. */
  lemma CurrentStep(es: seq<Event>, c: Conn, u: User)
    requires es != []
    ensures IsCurrent(es, c, u) <==>
              || es[|es| - 1] == Install(c, u)
              || (IsCurrent(es[..|es| - 1], c, u) && !Displaces(es, |es| - 1, c, u))
  {
    var n := |es| - 1;
    var before := es[..n];
    forall j: nat | j < n
      ensures Displaces(es, j, c, u) == Displaces(before, j, c, u)
    {
      assert before[..j] == es[..j];
    }
    if es[n] == Install(c, u) {
      assert InstalledSince(es, n, c, u);
    }
    if IsCurrent(es, c, u) && es[n] != Install(c, u) {
      var i: nat :| InstalledSince(es, i, c, u);
      assert InstalledSince(before, i, c, u);
    }
    if IsCurrent(before, c, u) && !Displaces(es, n, c, u) {
      var i: nat :| InstalledSince(before, i, c, u);
      assert InstalledSince(es, i, c, u);
    }
  }

  /** The registry maps u to c exactly when c is u's latest session and nothing
      has displaced it since: a replaced connection's read error, or its own
      account deletion, never removes its successor. */
  lemma {:induction false} RegistryHoldsLatestSession(es: seq<Event>, c: Conn, u: User)
    requires IsRun(es)
    ensures (u in Exec(es).clients && Exec(es).clients[u] == c) <==> IsCurrent(es, c, u)
  {
    if es != [] {
      var before, e := es[..|es| - 1], es[|es| - 1];
      RegistryHoldsLatestSession(before, c, u);
      UsernameIsLastUser(before, c);
      CurrentStep(es, c, u);
      RegistryStep(Exec(before), e, c, u);
    }
  }

  lemma RegistryStep(s: State, e: Event, c: Conn, u: User)
    requires Enabled(s, e)
    ensures var s' := Step(s, e);
            (u in s'.clients && s'.clients[u] == c) <==>
              || e == Install(c, u)
              || (u in s.clients && s.clients[u] == c && !(e.Install? && e.user == u) && e != Ban(u)
                  && !(e == Exit(c) && c in s.username && s.username[c] == u))
  {}

  /** Each connection authenticates under at most one name. */
  ghost predicate OneNameEach(es: seq<Event>) {
    forall i, j :: 0 <= i < |es| && 0 <= j < |es| && es[i].Install? && es[j].Install? && es[i].c == es[j].c ==>
      es[i].user == es[j].user
  }

  ghost predicate SessionsFresh(s: State) {
    forall u :: u in s.clients ==>
      var c := s.clients[u];
      c in s.username && s.username[c] == u && c !in s.exited
  }

  /** Under that assumption no registry entry points to a connection that has
      finished its disconnect step. */
  lemma {:induction false} NoStaleSession(es: seq<Event>)
    requires IsRun(es) && OneNameEach(es)
    ensures SessionsFresh(Exec(es))
  {
    if es != [] {
      var before, e := es[..|es| - 1], es[|es| - 1];
      assert OneNameEach(before) by {
        assert forall i :: 0 <= i < |before| ==> before[i] == es[i];
      }
      NoStaleSession(before);
      if e.Install? && e.c in Exec(before).username {
        UsernameIsLastUser(before, e.c);
        LastUserWasInstalled(before, e.c);
      }
      FreshStep(Exec(before), e);
    }
  }

  lemma FreshStep(s: State, e: Event)
    requires SessionsFresh(s) && Enabled(s, e)
    requires e.Install? && e.c in s.username ==> s.username[e.c] == e.user
    ensures SessionsFresh(Step(s, e))
  {}

  lemma {:induction false} LastUserWasInstalled(es: seq<Event>, c: Conn)
    requires LastUser(es, c).Some?
    ensures Install(c, LastUser(es, c).value) in es
  {
    if !(es[|es| - 1].Install? && es[|es| - 1].c == c) {
      LastUserWasInstalled(es[..|es| - 1], c);
    }
  }

  lemma {:induction false} ExitedIff(es: seq<Event>, c: Conn)
    requires IsRun(es)
    ensures c in Exec(es).exited <==> Exit(c) in es
  {
    if es != [] {
      var before, e := es[..|es| - 1], es[|es| - 1];
      ExitedIff(before, c);
      ExitedStep(Exec(before), e);
      assert es == before + [e];
    }
  }

  lemma ExitedStep(s: State, e: Event)
    requires Enabled(s, e)
    ensures Step(s, e).exited == if e.Exit? then s.exited + {e.c} else s.exited
  {}

  /** In general an entry u -> c is stale, that is, left behind by a connection
      whose read loop has ended, exactly when c did end and is still u's latest
      session: it logged in as u, then ended under another name, and nobody has
      logged in as u or banned u since. */
  lemma StaleAfterExitIff(es: seq<Event>, c: Conn, u: User)
    requires IsRun(es)
    ensures (u in Exec(es).clients && Exec(es).clients[u] == c && c in Exec(es).exited) <==>
            (IsCurrent(es, c, u) && Exit(c) in es)
  {
    RegistryHoldsLatestSession(es, c, u);
    ExitedIff(es, c);
  }

  // ---------- the critical sections as code ----------

  /** The server's shared state. Each method below is one critical section or a
      handler that runs without interference, proved to be machine steps. */
  class NexusServer {
    var clients: map<User, Conn>
    var queue: map<nat, Msg>
    var nextRow: nat

    ghost predicate Matches(s: State)
      reads this
    {
      clients == s.clients && queue == s.queue && nextRow == s.nextRow
    }

    constructor ()
      ensures Matches(Init())
    {
      clients, queue, nextRow := map[], map[], 0;
    }

    /** Login: kicks the existing session, if any, and installs the new one. */
    method InstallClient(c: Conn, username: User, ghost s: State) returns (kicked: Option<Conn>)
      requires Matches(s) && s.At(c).Idle? && c !in s.exited && NoReader(s)
      modifies this`clients
      ensures Enabled(s, Install(c, username))
      ensures Matches(Step(s, Install(c, username))) && clients == old(clients)[username := c]
      ensures kicked == if username in s.clients then Some(s.clients[username]) else None
    {
      kicked := None;
      if username in clients {
        kicked := Some(clients[username]);
      }
      clients := clients[username := c];
    }

    /** The compare-and-delete after a read error; reports whether a newer
        session had replaced this one. */
    method DisconnectClient(c: Conn, username: User, ghost s: State) returns (replaced: bool)
      requires Matches(s) && (s.At(c).Idle? || s.At(c).Leaving?) && c !in s.exited && NoReader(s)
      requires c in s.username && s.username[c] == username
      modifies this`clients
      ensures Enabled(s, Exit(c)) && Matches(Step(s, Exit(c)))
      ensures replaced <==> username in s.clients && s.clients[username] != c
      ensures clients == if username in old(clients) && old(clients)[username] == c
                         then old(clients) - {username} else old(clients)
    {
      var ok := username in clients;
      replaced := ok && clients[username] != c;
      if ok && clients[username] == c {
        clients := clients - {username};
      }
    }

    /** The rows deleteAccount drops from offline_messages. */
    method EraseRows(username: User)
      modifies this`queue
      ensures forall id :: id in queue <==>
                id in old(queue) && old(queue)[id].sender != username && old(queue)[id].recipient != username
      ensures forall id :: id in queue ==> queue[id] == old(queue)[id]
    {
      queue := map id | id in queue && queue[id].sender != username && queue[id].recipient != username :: queue[id];
    }

    /** delete_account, without interference: the account's rows, then the
        compare-and-delete before the connection is closed. */
    method DeleteAccount(c: Conn, username: User)
      modifies this`queue, this`clients
      ensures forall id :: id in queue <==>
                id in old(queue) && old(queue)[id].sender != username && old(queue)[id].recipient != username
      ensures forall id :: id in queue ==> queue[id] == old(queue)[id]
      ensures clients == if username in old(clients) && old(clients)[username] == c
                         then old(clients) - {username} else old(clients)
    {
      EraseRows(username);
      if username in clients && clients[username] == c {
        clients := clients - {username};
      }
    }

    /** The ban handler's critical section. */
    method KickBanned(target: User, ghost s: State) returns (kicked: Option<Conn>)
      requires Matches(s) && NoReader(s)
      modifies this`clients
      ensures Enabled(s, Ban(target)) && Matches(Step(s, Ban(target))) && target !in clients
      ensures forall u :: u != target ==> (u in clients <==> u in old(clients))
                                           && (u in clients ==> clients[u] == old(clients)[u])
      ensures kicked == if target in old(clients) then Some(old(clients)[target]) else None
    {
      kicked := None;
      if target in clients {
        kicked := Some(clients[target]);
        clients := clients - {target};
      }
    }

    /** The direct msg handler from its registry lookup on, without interference:
        the message goes to its recipient's connection, or becomes a row. */
    method HandleMsg(m: Msg) returns (sends: seq<(Conn, Msg)>)
      modifies this`queue, this`nextRow
      ensures m.recipient in clients ==>
                sends == [(clients[m.recipient], m)] && queue == old(queue) && nextRow == old(nextRow)
      ensures m.recipient !in clients ==>
                sends == [] && queue == old(queue)[old(nextRow) := m] && nextRow == old(nextRow) + 1
    {
      sends := [];
      var online := m.recipient in clients;
      if online {
        sends := sends + [(clients[m.recipient], m)];
      } else {
        InsertRow(m);
      }
    }

    /** INSERT INTO offline_messages. */
    method InsertRow(m: Msg)
      modifies this`queue, this`nextRow
      ensures queue == old(queue)[old(nextRow) := m] && nextRow == old(nextRow) + 1
    {
      queue := queue[nextRow := m];
      nextRow := nextRow + 1;
    }

    method StoreOfflineMessage(c: Conn, m: Msg, ghost s: State)
      requires Matches(s) && s.At(c) == Storing(m)
      modifies this`queue, this`nextRow
      ensures Enabled(s, Store(c)) && Matches(Step(s, Store(c)))
      ensures queue == old(queue)[old(nextRow) := m] && nextRow == old(nextRow) + 1
    {
      InsertRow(m);
    }

    /** deliverOfflineMessages when nothing interleaves: every row queued for
        the user is sent once, in `ids` order, and exactly those rows go. */
    method DeliverOfflineMessages(username: User) returns (sends: seq<(Conn, Msg)>, ids: seq<nat>)
      modifies this`queue
      ensures username !in clients ==> sends == [] && queue == old(queue)
      ensures username in clients ==>
                && (forall id :: id in ids <==> id in old(queue) && old(queue)[id].recipient == username)
                && (forall i, j :: 0 <= i < j < |ids| ==> ids[i] != ids[j])
                && |sends| == |ids|
                && (forall i :: 0 <= i < |ids| ==> sends[i] == (clients[username], old(queue)[ids[i]]))
                && queue == old(queue) - (set id | id in ids)
    {
      sends, ids := [], [];
      if username !in clients {
        return;
      }
      var client := clients[username];
      var rows := set id | id in queue && queue[id].recipient == username;
      ghost var all := rows;
      while rows != {}
        invariant queue == old(queue)
        invariant rows <= all
        invariant forall id :: id in ids <==> id in all && id !in rows
        invariant forall i, j :: 0 <= i < j < |ids| ==> ids[i] != ids[j]
        invariant |sends| == |ids|
        invariant forall i :: 0 <= i < |ids| ==> ids[i] in queue && sends[i] == (client, queue[ids[i]])
        decreases rows
      {
        var id :| id in rows;
        sends := sends + [(client, queue[id])];
        ids := ids + [id];
        rows := rows - {id};
      }
      for i := 0 to |ids|
        invariant queue == old(queue) - (set id | id in ids[..i])
      {
        queue := queue - {ids[i]};
        assert ids[..i + 1] == ids[..i] + [ids[i]];
      }
      assert ids[..|ids|] == ids;
    }

    /** The loop of convo_msg, under the read lock: each copy goes to its
        recipient's connection, or into the queue under the next row id. */
    method FanOut(copies: seq<Msg>) returns (sends: seq<(Conn, Msg)>)
      modifies this`queue, this`nextRow
      ensures sends == OnlineCopies(clients, copies)
      ensures queue == AddRows(old(queue), old(nextRow), OfflineCopies(clients, copies))
      ensures nextRow == old(nextRow) + |OfflineCopies(clients, copies)|
    {
      sends := [];
      ghost var rows: seq<Msg> := [];
      for i := 0 to |copies|
        invariant sends == OnlineCopies(clients, copies[..i]) && rows == OfflineCopies(clients, copies[..i])
        invariant queue == AddRows(old(queue), old(nextRow), rows) && nextRow == old(nextRow) + |rows|
      {
        CopiesStep(clients, copies, i);
        AddRow(old(queue), old(nextRow), rows, copies[i]);
        var sent := SendOrInsert(copies[i]);
        if sent.Some? {
          sends := sends + [sent.value];
        } else {
          rows := rows + [copies[i]];
        }
      }
      assert copies[..|copies|] == copies;
    }

    /** One copy goes to its recipient's connection, or into the queue. */
    method SendOrInsert(m: Msg) returns (sent: Option<(Conn, Msg)>)
      modifies this`queue, this`nextRow
      ensures sent == if m.recipient in clients then Some((clients[m.recipient], m)) else None
      ensures sent.Some? ==> queue == old(queue) && nextRow == old(nextRow)
      ensures sent.None? ==> queue == old(queue)[old(nextRow) := m] && nextRow == old(nextRow) + 1
    {
      if m.recipient in clients {
        return Some((clients[m.recipient], m));
      }
      InsertRow(m);
      sent := None;
    }
  }

  lemma CopiesStep(clients: map<User, Conn>, copies: seq<Msg>, i: nat)
    requires i < |copies|
    ensures var m := copies[i];
            && OnlineCopies(clients, copies[..i + 1])
               == (if m.recipient in clients then OnlineCopies(clients, copies[..i]) + [(clients[m.recipient], m)]
                   else OnlineCopies(clients, copies[..i]))
            && OfflineCopies(clients, copies[..i + 1])
               == (if m.recipient in clients then OfflineCopies(clients, copies[..i])
                   else OfflineCopies(clients, copies[..i]) + [m])
  {
    assert copies[..i + 1][..i] == copies[..i];
  }

  lemma AddRow(queue: map<nat, Msg>, next: nat, ms: seq<Msg>, m: Msg)
    ensures AddRows(queue, next, ms + [m]) == AddRows(queue, next, ms)[next + |ms| := m]
  {
    assert (ms + [m])[..|ms|] == ms;
  }

  function OnlineCopies(clients: map<User, Conn>, copies: seq<Msg>): seq<(Conn, Msg)> {
    if copies == [] then []
    else
      var m := copies[|copies| - 1];
      OnlineCopies(clients, copies[..|copies| - 1])
      + (if m.recipient in clients then [(clients[m.recipient], m)] else [])
  }

  function OfflineCopies(clients: map<User, Conn>, copies: seq<Msg>): seq<Msg> {
    if copies == [] then []
    else
      var m := copies[|copies| - 1];
      OfflineCopies(clients, copies[..|copies| - 1]) + (if m.recipient in clients then [] else [m])
  }

  function AddRows(queue: map<nat, Msg>, next: nat, ms: seq<Msg>): map<nat, Msg> {
    if ms == [] then queue
    else AddRows(queue, next, ms[..|ms| - 1])[next + |ms| - 1 := ms[|ms| - 1]]
  }
}
