/** Runs of the relay machine: the server's loops as runs, and runs in which a
    row is handed over twice or a registry entry goes stale. */
module RelayRuns {

  import opened Prelude
  import opened Relay

  // ---------- logging in ----------

  /** Apart from c's handler nothing has changed but what a login changes. */
  ghost predicate SameElsewhere(s: State, s': State, c: Conn) {
    && (forall d: Conn :: d != c ==> s'.At(d) == s.At(d))
    && s'.exited == s.exited && s'.queue == s.queue
    && s'.log.stored == s.log.stored && s'.log.sends == s.log.sends
  }

  lemma InstallEffect(s: State, c: Conn, u: User)
    requires Enabled(s, Install(c, u))
    ensures var s' := Step(s, Install(c, u));
            && SameElsewhere(s, s', c) && s'.At(c) == DeliverStart(u)
            && s'.clients == s.clients[u := c] && s'.username == s.username[c := u]
  {}

  lemma LookupEffect(s: State, c: Conn, u: User, to: Conn)
    requires s.At(c) == DeliverStart(u) && u in s.clients && s.clients[u] == to
    ensures var s' := Step(s, DeliverLookup(c));
            && SameElsewhere(s, s', c) && s'.At(c) == Selecting(u, to)
            && s'.clients == s.clients && s'.username == s.username
  {}

  lemma NoReaderElsewhere(s: State, s': State, c: Conn)
    requires NoReader(s) && !s'.At(c).Fanning? && forall d: Conn :: d != c ==> s'.At(d) == s.At(d)
    ensures NoReader(s')
  {
    forall d | d in s'.pc
      ensures !s'.pc[d].Fanning?
    {
      assert s'.At(d) == s'.pc[d];
      assert d != c ==> s.At(d) == s'.pc[d];
    }
  }

  lemma LogIn(es: seq<Event>, c: Conn, u: User) returns (more: seq<Event>)
    requires IsRun(es) && NoReader(Exec(es)) && Exec(es).At(c).Idle? && c !in Exec(es).exited
    ensures es <= more && IsRun(more) && NoReader(Exec(more))
    ensures Exec(more).At(c) == Selecting(u, c) && SameElsewhere(Exec(es), Exec(more), c)
  {
    var installed := Extend(es, Install(c, u));
    InstallEffect(Exec(es), c, u);
    more := Extend(installed, DeliverLookup(c));
    LookupEffect(Exec(installed), c, u, c);
    NoReaderElsewhere(Exec(es), Exec(more), c);
  }

  // ---------- a direct message as a run ----------

  lemma AcceptEffect(s: State, c: Conn, m: Msg)
    requires Enabled(s, Accept(c, m))
    ensures var s' := Step(s, Accept(c, m));
            && SameElsewhere(s, s', c) && s'.At(c) == Routing(m) && s'.clients == s.clients && s'.nextRow == s.nextRow
  {}

  lemma RouteEffect(s: State, c: Conn, m: Msg)
    requires s.At(c) == Routing(m)
    ensures var s' := Step(s, Lookup(c));
            && SameElsewhere(s, s', c) && s'.clients == s.clients && s'.nextRow == s.nextRow
            && s'.At(c) == if m.recipient in s.clients then Sending(m, s.clients[m.recipient]) else Storing(m)
  {}

  /** From s to s' exactly m was sent to its recipient's connection, or inserted
      as the next row, and nothing else changed but c's handler. */
  ghost predicate Handled(s: State, s': State, c: Conn, m: Msg) {
    && s'.At(c).Idle? && (forall d: Conn :: d != c ==> s'.At(d) == s.At(d))
    && s'.clients == s.clients && s'.exited == s.exited
    && if m.recipient in s.clients then
         && s'.log.sends == s.log.sends + {(s.clients[m.recipient], m)}
         && s'.queue == s.queue && s'.nextRow == s.nextRow
       else
         && s'.log.sends == s.log.sends
         && s'.queue == s.queue[s.nextRow := m] && s'.nextRow == s.nextRow + 1
  }

  lemma HandledEffect(s: State, c: Conn, m: Msg)
    requires s.At(c) == if m.recipient in s.clients then Sending(m, s.clients[m.recipient]) else Storing(m)
    ensures var e := if m.recipient in s.clients then Deliver(c) else Store(c);
            Enabled(s, e) && Handled(s, Step(s, e), c, m)
  {}

  /** What HandleMsg does is a run of the machine: Accept, Lookup and Deliver or
      Store, with the same queue and the same send. */
  lemma HandleMsgIsRun(es: seq<Event>, c: Conn, m: Msg) returns (more: seq<Event>)
    requires IsRun(es) && Exec(es).At(c).Idle? && c !in Exec(es).exited && IsNewMsg(Exec(es), c, m)
    ensures es <= more && IsRun(more) && Handled(Exec(es), Exec(more), c, m)
  {
    var s := Exec(es);
    var accepted := Extend(es, Accept(c, m));
    AcceptEffect(s, c, m);
    var routed := Extend(accepted, Lookup(c));
    RouteEffect(Exec(accepted), c, m);
    HandledEffect(Exec(routed), c, m);
    more := Extend(routed, if m.recipient in s.clients then Deliver(c) else Store(c));
  }

  // ---------- an erasure as a run ----------

  lemma EraseEffect(s: State, c: Conn, u: User)
    requires Enabled(s, EraseAccount(c)) && s.username[c] == u
    ensures var s' := Step(s, EraseAccount(c));
            && s'.At(c).Leaving? && (forall d: Conn :: d != c ==> s'.At(d) == s.At(d))
            && s'.clients == s.clients && s'.username == s.username && s'.exited == s.exited
            && (forall id :: id in s'.queue <==> id in s.queue && s.queue[id].sender != u && s.queue[id].recipient != u)
            && (forall id :: id in s'.queue ==> s'.queue[id] == s.queue[id])
  {}

  lemma ExitEffect(s: State, c: Conn, u: User)
    requires Enabled(s, Exit(c)) && c in s.username && s.username[c] == u
    ensures var s' := Step(s, Exit(c));
            && s'.queue == s.queue && c in s'.exited
            && s'.clients == if u in s.clients && s.clients[u] == c then s.clients - {u} else s.clients
  {}

  /** What DeleteAccount does is a run of the machine: EraseAccount and Exit, with
      the same queue and registry. */
  lemma DeleteAccountIsRun(es: seq<Event>, c: Conn, u: User) returns (more: seq<Event>)
    requires IsRun(es) && NoReader(Exec(es)) && Exec(es).At(c).Idle? && c !in Exec(es).exited
    requires c in Exec(es).username && Exec(es).username[c] == u
    ensures es <= more && IsRun(more) && c in Exec(more).exited
    ensures var s, s' := Exec(es), Exec(more);
            && (forall id :: id in s'.queue <==> id in s.queue && s.queue[id].sender != u && s.queue[id].recipient != u)
            && (forall id :: id in s'.queue ==> s'.queue[id] == s.queue[id])
            && s'.clients == if u in s.clients && s.clients[u] == c then s.clients - {u} else s.clients
  {
    var erased := Extend(es, EraseAccount(c));
    EraseEffect(Exec(es), c, u);
    NoReaderElsewhere(Exec(es), Exec(erased), c);
    more := Extend(erased, Exit(c));
    ExitEffect(Exec(erased), c, u);
  }

  // ---------- a fan-out as a run ----------

  predicate CanFanOut(s: State, c: Conn, copies: seq<Msg>) {
    && s.At(c).Idle? && c !in s.exited
    && (forall m :: m in copies ==> IsNewMsg(s, c, m) && m.recipient != m.sender)
    && (forall i, j :: 0 <= i < j < |copies| ==> copies[i] != copies[j])
  }

  /** From s to s' the first i copies have been sent or queued. */
  ghost predicate FannedOut(s: State, s': State, c: Conn, copies: seq<Msg>, i: nat)
    requires i <= |copies|
  {
    && s'.clients == s.clients
    && s'.At(c) == Fanning(Rest(copies, i))
    && s'.queue == AddRows(s.queue, s.nextRow, OfflineCopies(s.clients, copies[..i]))
    && s'.nextRow == s.nextRow + |OfflineCopies(s.clients, copies[..i])|
    && s'.log.sends == s.log.sends + (set p | p in OnlineCopies(s.clients, copies[..i]))
  }

  function Rest(copies: seq<Msg>, i: nat): set<Msg>
    requires i <= |copies|
  {
    set m | m in copies[i..]
  }

  lemma RestStep(copies: seq<Msg>, i: nat)
    requires i < |copies| && forall j, k :: 0 <= j < k < |copies| ==> copies[j] != copies[k]
    ensures copies[i] in Rest(copies, i) && Rest(copies, i) - {copies[i]} == Rest(copies, i + 1)
  {
    assert copies[i..] == [copies[i]] + copies[i + 1..];
  }

  lemma SendsStep(before: set<(Conn, Msg)>, sends: seq<(Conn, Msg)>, p: (Conn, Msg))
    ensures before + (set q | q in sends) + {p} == before + (set q | q in sends + [p])
  {}

  lemma FanOneMore(s: State, s': State, c: Conn, copies: seq<Msg>, i: nat)
    requires i < |copies| && FannedOut(s, s', c, copies, i)
    requires forall j, k :: 0 <= j < k < |copies| ==> copies[j] != copies[k]
    ensures copies[i] in s'.At(c).todo && FannedOut(s, DoFanNext(s', c, copies[i]), c, copies, i + 1)
  {
    RestStep(copies, i);
    if copies[i].recipient in s.clients {
      FanOneOnline(s, s', c, copies, i);
    } else {
      FanOneOffline(s, s', c, copies, i);
    }
  }

  lemma FanOneOnline(s: State, s': State, c: Conn, copies: seq<Msg>, i: nat)
    requires i < |copies| && FannedOut(s, s', c, copies, i) && copies[i].recipient in s.clients
    requires Rest(copies, i) - {copies[i]} == Rest(copies, i + 1)
    ensures FannedOut(s, DoFanNext(s', c, copies[i]), c, copies, i + 1)
  {
    CopiesStep(s.clients, copies, i);
    SendsStep(s.log.sends, OnlineCopies(s.clients, copies[..i]), (s.clients[copies[i].recipient], copies[i]));
  }

  lemma FanOneOffline(s: State, s': State, c: Conn, copies: seq<Msg>, i: nat)
    requires i < |copies| && FannedOut(s, s', c, copies, i) && copies[i].recipient !in s.clients
    requires Rest(copies, i) - {copies[i]} == Rest(copies, i + 1)
    ensures FannedOut(s, DoFanNext(s', c, copies[i]), c, copies, i + 1)
  {
    CopiesStep(s.clients, copies, i);
    AddRow(s.queue, s.nextRow, OfflineCopies(s.clients, copies[..i]), copies[i]);
  }

  lemma FanBase(s: State, c: Conn, copies: seq<Msg>)
    ensures FannedOut(s, TakeIn(s, c, Rest(copies, 0), Fanning(Rest(copies, 0))), c, copies, 0)
  {
    assert copies[..0] == [];
  }

  lemma FanExtend(es: seq<Event>, run: seq<Event>, c: Conn, copies: seq<Msg>, i: nat) returns (more: seq<Event>)
    requires IsRun(es) && IsRun(run) && es <= run && i < |copies| && FannedOut(Exec(es), Exec(run), c, copies, i)
    requires forall j, k :: 0 <= j < k < |copies| ==> copies[j] != copies[k]
    ensures es <= more && IsRun(more) && FannedOut(Exec(es), Exec(more), c, copies, i + 1)
  {
    FanOneMore(Exec(es), Exec(run), c, copies, i);
    more := Extend(run, FanNext(c, copies[i]));
  }

  lemma FanClose(s: State, s': State, c: Conn, copies: seq<Msg>)
    requires FannedOut(s, s', c, copies, |copies|)
    ensures Enabled(s', FanEnd(c))
    ensures var t := Step(s', FanEnd(c));
            && t.At(c).Idle? && t.clients == s.clients
            && t.queue == AddRows(s.queue, s.nextRow, OfflineCopies(s.clients, copies))
            && t.log.sends == s.log.sends + (set p | p in OnlineCopies(s.clients, copies))
  {
    assert copies[|copies|..] == [] && copies[..|copies|] == copies;
  }

  /** What FanOut does is a run of the machine: FanStart, one FanNext for each
      copy, FanEnd, with the same queue and the same sends. */
  lemma FanOutIsRun(es: seq<Event>, c: Conn, copies: seq<Msg>) returns (more: seq<Event>)
    requires IsRun(es) && CanFanOut(Exec(es), c, copies)
    ensures es <= more && IsRun(more) && Exec(more).At(c).Idle?
    ensures var s, s' := Exec(es), Exec(more);
            && s'.clients == s.clients
            && s'.queue == AddRows(s.queue, s.nextRow, OfflineCopies(s.clients, copies))
            && s'.log.sends == s.log.sends + (set p | p in OnlineCopies(s.clients, copies))
  {
    assert copies[0..] == copies;
    more := Extend(es, FanStart(c, Rest(copies, 0)));
    FanBase(Exec(es), c, copies);
    for i := 0 to |copies|
      invariant es <= more && IsRun(more) && FannedOut(Exec(es), Exec(more), c, copies, i)
    {
      more := FanExtend(es, more, c, copies, i);
    }
    FanClose(Exec(es), Exec(more), c, copies);
    more := Extend(more, FanEnd(c));
  }

  // ---------- a delivery as a run ----------

  function Ids(ids: seq<nat>): set<nat> {
    set id | id in ids
  }

  /** What a delivery to connection `to` hands over, row by row. */
  function RowSends(rows: map<nat, Msg>, to: Conn, ids: seq<nat>): seq<(Conn, Msg)>
    requires forall id :: id in ids ==> id in rows
  {
    seq(|ids|, k requires 0 <= k < |ids| => (to, rows[ids[k]]))
  }

  /** From s to s' the delivery of c has handed over the first i rows. */
  ghost predicate ReplayedUpTo(s: State, s': State, c: Conn, u: User, to: Conn, ids: seq<nat>, i: nat)
    requires i <= |ids| && forall id :: id in ids ==> id in s.log.stored
  {
    && s'.clients == s.clients && s'.username == s.username && s'.exited == s.exited
    && (forall d: Conn :: d != c ==> s'.At(d) == s.At(d))
    && s'.queue == s.queue && s'.log.stored == s.log.stored
    && s'.At(c) == Replaying(u, to, Ids(ids[i..]), Ids(ids[..i]))
    && s'.log.sends == s.log.sends + (set p | p in RowSends(s.log.stored, to, ids[..i]))
  }

  /** From s to s' it has handed over all rows and deleted the first i. */
  ghost predicate PurgedUpTo(s: State, s': State, c: Conn, u: User, to: Conn, ids: seq<nat>, i: nat)
    requires i <= |ids| && forall id :: id in ids ==> id in s.log.stored
  {
    && s'.clients == s.clients && s'.username == s.username && s'.exited == s.exited
    && (forall d: Conn :: d != c ==> s'.At(d) == s.At(d))
    && s'.queue == s.queue - Ids(ids[..i])
    && s'.At(c) == Replaying(u, to, {}, Ids(ids[i..]))
    && s'.log.sends == s.log.sends + (set p | p in RowSends(s.log.stored, to, ids))
  }

  lemma IdsStep(ids: seq<nat>, i: nat)
    requires i < |ids| && Distinct(ids)
    ensures ids[i] in Ids(ids[i..]) && Ids(ids[i..]) - {ids[i]} == Ids(ids[i + 1..])
    ensures Ids(ids[..i]) + {ids[i]} == Ids(ids[..i + 1])
  {
    assert ids[i..] == [ids[i]] + ids[i + 1..] && ids[..i + 1] == ids[..i] + [ids[i]];
  }

  lemma RowSendsStep(rows: map<nat, Msg>, to: Conn, ids: seq<nat>, i: nat)
    requires i < |ids| && forall id :: id in ids ==> id in rows
    ensures RowSends(rows, to, ids[..i + 1]) == RowSends(rows, to, ids[..i]) + [(to, rows[ids[i]])]
  {}

  lemma ReplayOneMore(s: State, s': State, c: Conn, u: User, to: Conn, ids: seq<nat>, i: nat)
    requires i < |ids| && Distinct(ids) && forall id :: id in ids ==> id in s.log.stored
    requires ReplayedUpTo(s, s', c, u, to, ids, i)
    ensures Enabled(s', Replay(c, ids[i])) && ReplayedUpTo(s, DoReplay(s', c, ids[i]), c, u, to, ids, i + 1)
  {
    IdsStep(ids, i);
    RowSendsStep(s.log.stored, to, ids, i);
    SendsStep(s.log.sends, RowSends(s.log.stored, to, ids[..i]), (to, s.log.stored[ids[i]]));
  }

  lemma PurgeOneMore(s: State, s': State, c: Conn, u: User, to: Conn, ids: seq<nat>, i: nat)
    requires i < |ids| && Distinct(ids) && forall id :: id in ids ==> id in s.log.stored
    requires PurgedUpTo(s, s', c, u, to, ids, i)
    ensures Enabled(s', Purge(c, ids[i])) && PurgedUpTo(s, DoPurge(s', c, ids[i]), c, u, to, ids, i + 1)
  {
    IdsStep(ids, i);
  }

  lemma ReplayToPurge(s: State, s': State, c: Conn, u: User, to: Conn, ids: seq<nat>)
    requires forall id :: id in ids ==> id in s.log.stored
    requires ReplayedUpTo(s, s', c, u, to, ids, |ids|)
    ensures PurgedUpTo(s, s', c, u, to, ids, 0)
  {
    assert ids[|ids|..] == [] && ids[..|ids|] == ids && ids[0..] == ids && ids[..0] == [];
    assert Ids([]) == {};
  }

  lemma ReplayAll(es: seq<Event>, c: Conn, u: User, to: Conn, ids: seq<nat>) returns (more: seq<Event>)
    requires IsRun(es) && Exec(es).At(c) == Replaying(u, to, Ids(ids), {}) && Distinct(ids)
    requires forall id :: id in ids ==> id in Exec(es).log.stored
    ensures es <= more && IsRun(more) && ReplayedUpTo(Exec(es), Exec(more), c, u, to, ids, |ids|)
  {
    more := es;
    assert ids[0..] == ids && ids[..0] == [];
    for i := 0 to |ids|
      invariant es <= more && IsRun(more) && ReplayedUpTo(Exec(es), Exec(more), c, u, to, ids, i)
    {
      ReplayOneMore(Exec(es), Exec(more), c, u, to, ids, i);
      more := Extend(more, Replay(c, ids[i]));
    }
  }

  lemma PurgeAll(s: State, es: seq<Event>, c: Conn, u: User, to: Conn, ids: seq<nat>) returns (more: seq<Event>)
    requires IsRun(es) && Distinct(ids) && forall id :: id in ids ==> id in s.log.stored
    requires PurgedUpTo(s, Exec(es), c, u, to, ids, 0)
    ensures es <= more && IsRun(more) && PurgedUpTo(s, Exec(more), c, u, to, ids, |ids|)
  {
    more := es;
    for i := 0 to |ids|
      invariant es <= more && IsRun(more) && PurgedUpTo(s, Exec(more), c, u, to, ids, i)
    {
      PurgeOneMore(s, Exec(more), c, u, to, ids, i);
      more := Extend(more, Purge(c, ids[i]));
    }
  }

  lemma SelectEffect(s: State, c: Conn, u: User, to: Conn)
    requires s.At(c) == Selecting(u, to)
    ensures var s' := DoSelect(s, c);
            && SameElsewhere(s, s', c) && s'.At(c) == Replaying(u, to, QueuedFor(s, u), {})
            && s'.clients == s.clients && s'.username == s.username
  {}

  lemma FinishEffect(s: State, s': State, c: Conn, u: User, to: Conn, ids: seq<nat>)
    requires forall id :: id in ids ==> id in s.log.stored
    requires PurgedUpTo(s, s', c, u, to, ids, |ids|)
    ensures Enabled(s', Finish(c))
    ensures Delivered(s, Step(s', Finish(c)), c, to, ids)
  {
    assert ids[|ids|..] == [] && ids[..|ids|] == ids;
    assert Ids([]) == {};
  }

  /** From s to s' exactly the rows `ids` went to connection `to` and left the
      queue, and nothing else changed but c's handler. */
  ghost predicate Delivered(s: State, s': State, c: Conn, to: Conn, ids: seq<nat>)
    requires forall id :: id in ids ==> id in s.log.stored
  {
    && s'.clients == s.clients && s'.username == s.username && s'.exited == s.exited
    && (forall d: Conn :: d != c ==> s'.At(d) == s.At(d)) && s'.At(c).Idle?
    && s'.queue == s.queue - Ids(ids)
    && s'.log.sends == s.log.sends + (set p | p in RowSends(s.log.stored, to, ids))
  }

  lemma DeliverRows(es: seq<Event>, c: Conn, u: User, ids: seq<nat>) returns (more: seq<Event>)
    requires IsRun(es) && Exec(es).At(c) == DeliverStart(u) && u in Exec(es).clients
    requires Distinct(ids) && Ids(ids) == QueuedFor(Exec(es), u)
    ensures forall id :: id in ids ==> id in Exec(es).log.stored && id in Exec(es).queue
                                        && Exec(es).log.stored[id] == Exec(es).queue[id]
    ensures es <= more && IsRun(more) && Delivered(Exec(es), Exec(more), c, Exec(es).clients[u], ids)
  {
    EveryRunKeepsInv(es);
    QueuedAreStored(Exec(es), u, ids);
    var s := Exec(es);
    var to := s.clients[u];
    var located := Extend(es, DeliverLookup(c));
    LookupEffect(s, c, u, to);
    var selected := Extend(located, Select(c));
    SelectEffect(Exec(located), c, u, to);
    var replayed := ReplayAll(selected, c, u, to, ids);
    ReplayToPurge(Exec(selected), Exec(replayed), c, u, to, ids);
    var purged := PurgeAll(Exec(selected), replayed, c, u, to, ids);
    FinishEffect(Exec(selected), Exec(purged), c, u, to, ids);
    more := Extend(purged, Finish(c));
    DeliveredFrom(s, Exec(selected), Exec(more), c, to, ids);
  }

  /** What DeliverOfflineMessages does is a run of the machine from any reachable
      state in which c has just been installed: the same rows, in any order, go
      to the same connection and leave the queue. */
  lemma DeliverIsRun(es: seq<Event>, c: Conn, u: User, ids: seq<nat>) returns (more: seq<Event>)
    requires IsRun(es) && Exec(es).At(c) == DeliverStart(u) && u in Exec(es).clients
    requires Distinct(ids) && forall id :: id in ids <==> id in Exec(es).queue && Exec(es).queue[id].recipient == u
    ensures forall id :: id in ids ==> id in Exec(es).log.stored && id in Exec(es).queue
                                        && Exec(es).log.stored[id] == Exec(es).queue[id]
    ensures es <= more && IsRun(more) && Delivered(Exec(es), Exec(more), c, Exec(es).clients[u], ids)
  {
    RowsAreQueued(Exec(es), u, ids);
    more := DeliverRows(es, c, u, ids);
  }

  lemma RowsAreQueued(s: State, u: User, ids: seq<nat>)
    requires forall id :: id in ids <==> id in s.queue && s.queue[id].recipient == u
    ensures Ids(ids) == QueuedFor(s, u)
  {}

  lemma QueuedAreStored(s: State, u: User, ids: seq<nat>)
    requires QueueInv(s) && Ids(ids) == QueuedFor(s, u)
    ensures forall id :: id in ids ==> id in s.log.stored && id in s.queue && s.log.stored[id] == s.queue[id]
  {
    forall id | id in ids
      ensures id in s.log.stored && id in s.queue && s.log.stored[id] == s.queue[id]
    {
      assert id in Ids(ids);
    }
  }

  lemma DeliveredFrom(s: State, selected: State, s': State, c: Conn, to: Conn, ids: seq<nat>)
    requires forall id :: id in ids ==> id in s.log.stored
    requires SameElsewhere(s, selected, c) && selected.clients == s.clients && selected.username == s.username
    requires Delivered(selected, s', c, to, ids)
    ensures Delivered(s, s', c, to, ids)
  {}

  /** The rows can be taken in some order. */
  lemma {:induction false} SomeOrder(rows: set<nat>) returns (ids: seq<nat>)
    ensures Distinct(ids) && Ids(ids) == rows
    decreases rows
  {
    ids := [];
    if rows != {} {
      var id :| id in rows;
      ids := SomeOrder(rows - {id});
      assert id !in Ids(ids);
      ids := ids + [id];
      assert Ids(ids) == (rows - {id}) + {id};
    }
  }

  // ---------- runs that go wrong ----------

  /** A row can be handed over twice: from every
      reachable state with a row queued for u, two idle connections can log in
      as u and both deliver it. */
  lemma OverlapCanDuplicate(es: seq<Event>, u: User, id: nat, c: Conn, d: Conn) returns (more: seq<Event>)
    requires IsRun(es) && NoReader(Exec(es)) && c != d
    requires Exec(es).At(c).Idle? && Exec(es).At(d).Idle? && c !in Exec(es).exited && d !in Exec(es).exited
    requires id in Exec(es).queue && Exec(es).queue[id].recipient == u
    ensures es <= more && IsRun(more)
    ensures (c, id) in Exec(more).log.replayed && (d, id) in Exec(more).log.replayed
  {
    EveryRunKeepsInv(es);
    more := LogIn(es, c, u);
    more := LogIn(more, d, u);
    more := SelectBoth(more, u, id, c, d);
    more := ReplayBoth(more, id, c, d);
  }

  lemma ReplayBoth(es: seq<Event>, id: nat, c: Conn, d: Conn) returns (more: seq<Event>)
    requires IsRun(es) && c != d && id in Exec(es).log.stored
    requires Exec(es).At(c).Replaying? && id in Exec(es).At(c).rows
    requires Exec(es).At(d).Replaying? && id in Exec(es).At(d).rows
    ensures es <= more && IsRun(more)
    ensures (c, id) in Exec(more).log.replayed && (d, id) in Exec(more).log.replayed
  {
    more := Extend(es, Replay(c, id));
    more := Extend(more, Replay(d, id));
  }

  lemma SelectBoth(es: seq<Event>, u: User, id: nat, c: Conn, d: Conn) returns (more: seq<Event>)
    requires IsRun(es) && c != d && id in QueuedFor(Exec(es), u) && id in Exec(es).log.stored
    requires Exec(es).At(c) == Selecting(u, c) && Exec(es).At(d) == Selecting(u, d)
    ensures es <= more && IsRun(more) && id in Exec(more).log.stored
    ensures Exec(more).At(c).Replaying? && id in Exec(more).At(c).rows
    ensures Exec(more).At(d).Replaying? && id in Exec(more).At(d).rows
  {
    more := Extend(es, Select(c));
    more := Extend(more, Select(d));
  }

  /** c logs in as u and its delivery runs to the end. */
  lemma Session(es: seq<Event>, c: Conn, u: User) returns (more: seq<Event>)
    requires IsRun(es) && NoReader(Exec(es)) && Exec(es).At(c).Idle? && c !in Exec(es).exited
    ensures es <= more && IsRun(more) && NoReader(Exec(more)) && Exec(more).At(c).Idle?
    ensures Exec(more).exited == Exec(es).exited
    ensures Exec(more).clients == Exec(es).clients[u := c] && Exec(more).username == Exec(es).username[c := u]
  {
    var installed := Extend(es, Install(c, u));
    InstallEffect(Exec(es), c, u);
    var ids := SomeOrder(QueuedFor(Exec(installed), u));
    more := DeliverRows(installed, c, u, ids);
    NoReaderElsewhere(Exec(es), Exec(more), c);
  }

  /** Stale entries do arise: from every reachable state, an idle connection that
      logs in as u, then as v, and ends leaves u's entry behind. */
  lemma TwoNamesLeaveStale(es: seq<Event>, c: Conn, u: User, v: User) returns (more: seq<Event>)
    requires IsRun(es) && NoReader(Exec(es)) && Exec(es).At(c).Idle? && c !in Exec(es).exited && u != v
    ensures es <= more && IsRun(more)
    ensures u in Exec(more).clients && Exec(more).clients[u] == c && c in Exec(more).exited
  {
    more := Session(es, c, u);
    more := Session(more, c, v);
    ExitUnder(Exec(more), c, u, v);
    more := Extend(more, Exit(c));
  }

  lemma ExitUnder(s: State, c: Conn, u: User, v: User)
    requires NoReader(s) && s.At(c).Idle? && c !in s.exited && u != v
    requires c in s.username && s.username[c] == v && u in s.clients && s.clients[u] == c
    ensures Enabled(s, Exit(c))
    ensures var s' := Step(s, Exit(c)); u in s'.clients && s'.clients[u] == c && c in s'.exited
  {}
}
