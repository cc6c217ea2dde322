/** Where messages and rows end up, told by the events of a run: a message goes
    to the connection registered for its recipient when its handler looks, or
    becomes a row; a row stays until it is purged or erased. */
module RelayMessages {

  import opened Prelude
  import opened Relay

  // ---------- the events that decide ----------

  /** Event i took the message in, and its handler has not looked since. */
  predicate AwaitsLookup(es: seq<Event>, i: nat, m: Msg) {
    && i < |es| && es[i] == Accept(m.origin, m)
    && forall k :: i < k < |es| ==> es[k] != Lookup(m.origin)
  }

  /** At event j the handler of m looks up the recipient: its first lookup after
      the message came, or the message's turn in a fan-out. */
  ghost predicate LooksUpAt(es: seq<Event>, j: nat, m: Msg) {
    && j < |es|
    && (|| es[j] == FanNext(m.origin, m)
        || (es[j] == Lookup(m.origin) && exists i: nat :: AwaitsLookup(es[..j], i, m)))
  }

  /** The registry's answer to a lookup. */
  function Registered(s: State, u: User): Option<Conn> {
    if u in s.clients then Some(s.clients[u]) else None
  }

  // ---------- where a message is after its lookup ----------

  /** The handler goes on to send m to the connection, or to store it. */
  ghost predicate OnItsWay(s: State, m: Msg, to: Option<Conn>) {
    && s.At(m.origin) == (match to case Some(d) => Sending(m, d) case None => Storing(m))
    && forall x :: (x, m) !in s.log.sends
  }

  /** Sent once, to that connection alone, and never a row; or a row and never
      sent directly. */
  ghost predicate Settled(s: State, m: Msg, to: Option<Conn>) {
    match to
    case Some(d) => s.log.direct[m] == 1 && m !in s.log.rowOf && forall x :: (x, m) in s.log.sends <==> x == d
    case None => m !in s.log.direct && m in s.log.rowOf
  }

  /** Nothing is sent that was not handed over directly or stored. */
  ghost predicate SendsInv(s: State) {
    forall x, m :: (x, m) in s.log.sends ==> m in s.log.direct || m in s.log.rowOf
  }

  /** The message a step sends directly. */
  ghost predicate SendsDirectly(s: State, e: Event, x: Conn, m: Msg)
    requires Enabled(s, e)
  {
    || (e.Deliver? && s.At(e.c) == Sending(m, x))
    || (e.FanNext? && e.msg == m && m.recipient in s.clients && s.clients[m.recipient] == x)
  }

  lemma SendsAfter(s: State, e: Event, x: Conn, m: Msg)
    requires Enabled(s, e) && (x, m) in Step(s, e).log.sends && (x, m) !in s.log.sends
    ensures SendsDirectly(s, e, x, m) || (e.Replay? && s.log.stored[e.id] == m)
  {
    if OfSession(e) {
      SendsAfterOfSession(s, e, x, m);
    } else {
      SendsAfterOfMessage(s, e, x, m);
    }
  }

  lemma SendsAfterOfSession(s: State, e: Event, x: Conn, m: Msg)
    requires Enabled(s, e) && (x, m) in Step(s, e).log.sends && (x, m) !in s.log.sends && OfSession(e)
    ensures SendsDirectly(s, e, x, m) || (e.Replay? && s.log.stored[e.id] == m)
  {}

  lemma SendsAfterOfMessage(s: State, e: Event, x: Conn, m: Msg)
    requires Enabled(s, e) && (x, m) in Step(s, e).log.sends && (x, m) !in s.log.sends && !OfSession(e)
    ensures SendsDirectly(s, e, x, m)
  {}

  lemma DirectAfter(s: State, e: Event, m: Msg)
    requires Enabled(s, e)
    ensures m in s.log.direct ==> m in Step(s, e).log.direct
    ensures m in s.log.rowOf ==> m in Step(s, e).log.rowOf
    ensures forall x :: SendsDirectly(s, e, x, m) ==> m in Step(s, e).log.direct
    ensures forall x :: (x, m) in s.log.sends ==> (x, m) in Step(s, e).log.sends
  {
    if OfSession(e) {
      DirectAfterOfSession(s, e, m);
    } else {
      DirectAfterOfMessage(s, e, m);
    }
  }

  lemma DirectAfterOfSession(s: State, e: Event, m: Msg)
    requires Enabled(s, e) && OfSession(e)
    ensures m in s.log.direct ==> m in Step(s, e).log.direct
    ensures m in s.log.rowOf ==> m in Step(s, e).log.rowOf
    ensures forall x :: SendsDirectly(s, e, x, m) ==> m in Step(s, e).log.direct
    ensures forall x :: (x, m) in s.log.sends ==> (x, m) in Step(s, e).log.sends
  {}

  lemma DirectAfterOfMessage(s: State, e: Event, m: Msg)
    requires Enabled(s, e) && !OfSession(e)
    ensures m in s.log.direct ==> m in Step(s, e).log.direct
    ensures m in s.log.rowOf ==> m in Step(s, e).log.rowOf
    ensures forall x :: SendsDirectly(s, e, x, m) ==> m in Step(s, e).log.direct
    ensures forall x :: (x, m) in s.log.sends ==> (x, m) in Step(s, e).log.sends
  {}

  lemma SendsInvStep(s: State, e: Event)
    requires SendsInv(s) && QueueInv(s) && Enabled(s, e)
    ensures SendsInv(Step(s, e))
  {
    var s' := Step(s, e);
    forall x, m | (x, m) in s'.log.sends
      ensures m in s'.log.direct || m in s'.log.rowOf
    {
      DirectAfter(s, e, m);
      if (x, m) !in s.log.sends {
        SendsAfter(s, e, x, m);
      }
    }
  }

  lemma {:induction false} EveryRunKeepsSends(es: seq<Event>)
    requires IsRun(es)
    ensures SendsInv(Exec(es))
  {
    if es != [] {
      EveryRunKeepsSends(es[..|es| - 1]);
      EveryRunKeepsInv(es[..|es| - 1]);
      SendsInvStep(Exec(es[..|es| - 1]), es[|es| - 1]);
    }
  }

  /** What only the handler of m could do to it. */
  predicate Handles(s: State, e: Event, m: Msg)
    requires Enabled(s, e)
  {
    ((e.Deliver? || e.Store?) && s.At(e.c).Holds(m)) || (e.FanNext? && e.msg == m)
  }

  lemma NotHandled(s: State, e: Event, m: Msg)
    requires Enabled(s, e) && !Handles(s, e, m)
    ensures Step(s, e).log.direct[m] == s.log.direct[m]
    ensures m in Step(s, e).log.rowOf <==> m in s.log.rowOf
  {
    if OfSession(e) {
      NotHandledOfSession(s, e, m);
    } else {
      NotHandledOfMessage(s, e, m);
    }
  }

  lemma NotHandledOfSession(s: State, e: Event, m: Msg)
    requires Enabled(s, e) && !Handles(s, e, m) && OfSession(e)
    ensures Step(s, e).log.direct[m] == s.log.direct[m]
    ensures m in Step(s, e).log.rowOf <==> m in s.log.rowOf
  {}

  lemma NotHandledOfMessage(s: State, e: Event, m: Msg)
    requires Enabled(s, e) && !Handles(s, e, m) && !OfSession(e)
    ensures Step(s, e).log.direct[m] == s.log.direct[m]
    ensures m in Step(s, e).log.rowOf <==> m in s.log.rowOf
  {}

  lemma HandlerHolds(s: State, e: Event, m: Msg)
    requires Enabled(s, e) && Handles(s, e, m)
    ensures s.At(e.c).Holds(m)
  {}

  lemma SettledStep(s: State, e: Event, m: Msg, to: Option<Conn>)
    requires Enabled(s, e) && PlaceInv(s) && QueueInv(s) && Settled(s, m, to)
    ensures Settled(Step(s, e), m, to)
  {
    if Handles(s, e, m) {
      HandlerHolds(s, e, m);
    }
    NotHandled(s, e, m);
    DirectAfter(s, e, m);
    if to.Some? {
      forall x | (x, m) in Step(s, e).log.sends
        ensures x == to.value
      {
        if (x, m) !in s.log.sends {
          SendsAfter(s, e, x, m);
        }
      }
    }
  }

  lemma OtherHandlers(s: State, e: Event, c: Conn)
    requires Enabled(s, e) && (e.Ban? || e.c != c)
    ensures Step(s, e).At(c) == s.At(c)
  {
    if OfSession(e) {
      OtherHandlersOfSession(s, e, c);
    } else {
      OtherHandlersOfMessage(s, e, c);
    }
  }

  lemma OtherHandlersOfSession(s: State, e: Event, c: Conn)
    requires Enabled(s, e) && (e.Ban? || e.c != c) && OfSession(e)
    ensures Step(s, e).At(c) == s.At(c)
  {}

  lemma OtherHandlersOfMessage(s: State, e: Event, c: Conn)
    requires Enabled(s, e) && (e.Ban? || e.c != c) && !OfSession(e)
    ensures Step(s, e).At(c) == s.At(c)
  {}

  lemma NoSendsYet(s: State, e: Event, m: Msg)
    requires Enabled(s, e) && PlaceInv(s) && QueueInv(s) && s.At(m.origin).Holds(m) && !Handles(s, e, m)
    requires forall x :: (x, m) !in s.log.sends
    ensures forall x :: (x, m) !in Step(s, e).log.sends
  {
    forall x
      ensures (x, m) !in Step(s, e).log.sends
    {
      if (x, m) in Step(s, e).log.sends {
        SendsAfter(s, e, x, m);
      }
    }
  }

  lemma DeliverEffect(s: State, m: Msg, d: Conn)
    requires PlaceInv(s) && OnItsWay(s, m, Some(d))
    ensures Settled(Step(s, Deliver(m.origin)), m, Some(d))
  {}

  lemma StoreEffect(s: State, m: Msg)
    requires PlaceInv(s) && OnItsWay(s, m, None)
    ensures Settled(Step(s, Store(m.origin)), m, None)
  {}

  lemma OnItsWayStep(s: State, e: Event, m: Msg, to: Option<Conn>)
    requires Enabled(s, e) && PlaceInv(s) && QueueInv(s) && OnItsWay(s, m, to)
    ensures OnItsWay(Step(s, e), m, to) || Settled(Step(s, e), m, to)
  {
    if e.Ban? || e.c != m.origin {
      OtherHandlers(s, e, m.origin);
      NoSendsYet(s, e, m);
    } else if to.Some? {
      assert e == Deliver(m.origin);
      DeliverEffect(s, m, to.value);
    } else {
      assert e == Store(m.origin);
      StoreEffect(s, m);
    }
  }

  lemma {:induction false} AwaitingIsRouting(es: seq<Event>, i: nat, m: Msg)
    requires IsRun(es) && AwaitsLookup(es, i, m)
    ensures Exec(es).At(m.origin) == Routing(m)
    decreases |es|
  {
    var n := |es| - 1;
    var before := es[..n];
    if i < n {
      AwaitingIsRouting(before, i, m);
      if es[n].Ban? || es[n].c != m.origin {
        OtherHandlers(Exec(before), es[n], m.origin);
      }
    }
  }

  lemma LookupEffect(s: State, m: Msg)
    requires s.At(m.origin) == Routing(m) && forall x :: (x, m) !in s.log.sends
    ensures OnItsWay(Step(s, Lookup(m.origin)), m, Registered(s, m.recipient))
  {}

  lemma FanNextEffect(s: State, m: Msg)
    requires PlaceInv(s) && Enabled(s, FanNext(m.origin, m)) && forall x :: (x, m) !in s.log.sends
    ensures Settled(Step(s, FanNext(m.origin, m)), m, Registered(s, m.recipient))
  {
    assert s.At(m.origin).Holds(m);
  }

  lemma ProgressStep(s: State, e: Event, m: Msg, to: Option<Conn>)
    requires Enabled(s, e) && PlaceInv(s) && QueueInv(s) && (OnItsWay(s, m, to) || Settled(s, m, to))
    ensures OnItsWay(Step(s, e), m, to) || Settled(Step(s, e), m, to)
  {
    if OnItsWay(s, m, to) {
      OnItsWayStep(s, e, m, to);
    } else {
      SettledStep(s, e, m, to);
    }
  }

  lemma NeverSent(s: State, m: Msg)
    requires PlaceInv(s) && SendsInv(s) && s.At(m.origin).Holds(m)
    ensures forall x :: (x, m) !in s.log.sends
  {}

  lemma LooksUpEffect(s: State, e: Event, m: Msg)
    requires Enabled(s, e) && PlaceInv(s) && SendsInv(s)
    requires e == FanNext(m.origin, m) || (e == Lookup(m.origin) && s.At(m.origin) == Routing(m))
    ensures var to := Registered(s, m.recipient); OnItsWay(Step(s, e), m, to) || Settled(Step(s, e), m, to)
  {
    assert s.At(m.origin).Holds(m);
    NeverSent(s, m);
    if e.FanNext? {
      FanNextEffect(s, m);
    } else {
      LookupEffect(s, m);
    }
  }

  lemma LooksUpWhenRouting(es: seq<Event>, j: nat, m: Msg)
    requires IsRun(es) && j == |es| - 1 && LooksUpAt(es, j, m)
    ensures es[j] == FanNext(m.origin, m)
            || (es[j] == Lookup(m.origin) && Exec(es[..j]).At(m.origin) == Routing(m))
  {
    if es[j] != FanNext(m.origin, m) {
      var i: nat :| AwaitsLookup(es[..j], i, m);
      AwaitingIsRouting(es[..j], i, m);
    }
  }

  /** From the lookup on, m is where the registry pointed then. */
  lemma {:induction false} FollowsRegistry(es: seq<Event>, j: nat, m: Msg)
    requires IsRun(es) && LooksUpAt(es, j, m)
    ensures IsRun(es[..j])
    ensures var to := Registered(Exec(es[..j]), m.recipient);
            OnItsWay(Exec(es), m, to) || Settled(Exec(es), m, to)
    decreases |es|
  {
    var n := |es| - 1;
    if j < n {
      assert es[..n][..j] == es[..j];
      FollowsRegistry(es[..n], j, m);
      EveryRunKeepsInv(es[..n]);
      ProgressStep(Exec(es[..n]), es[n], m, Registered(Exec(es[..j]), m.recipient));
    } else {
      EveryRunKeepsInv(es[..n]);
      EveryRunKeepsSends(es[..n]);
      LooksUpWhenRouting(es, n, m);
      LooksUpEffect(Exec(es[..n]), es[n], m);
    }
  }

  /** A message was taken in by Accept or as a copy of a fan-out. */
  predicate TakenInAt(es: seq<Event>, i: nat, m: Msg) {
    i < |es| && (es[i] == Accept(m.origin, m) || (es[i].FanStart? && es[i].c == m.origin && m in es[i].copies))
  }

  /** A message taken in awaits its lookup, or has had it. */
  ghost predicate Awaits(es: seq<Event>, m: Msg)
    requires IsRun(es)
  {
    || (exists i: nat :: AwaitsLookup(es, i, m))
    || (Exec(es).At(m.origin).Fanning? && m in Exec(es).At(m.origin).todo)
  }

  lemma AwaitsStays(es: seq<Event>, i: nat, m: Msg)
    requires es != [] && AwaitsLookup(es[..|es| - 1], i, m)
    ensures AwaitsLookup(es, i, m) || LooksUpAt(es, |es| - 1, m)
  {}

  lemma LooksUpStays(es: seq<Event>, j: nat, m: Msg)
    requires es != [] && LooksUpAt(es[..|es| - 1], j, m)
    ensures LooksUpAt(es, j, m)
  {
    assert es[..|es| - 1][..j] == es[..j];
  }

  lemma FanningStep(s: State, e: Event, m: Msg)
    requires Enabled(s, e) && s.At(m.origin).Fanning? && m in s.At(m.origin).todo
    ensures e == FanNext(m.origin, m)
            || (Step(s, e).At(m.origin).Fanning? && m in Step(s, e).At(m.origin).todo)
  {
    if e.Ban? || e.c != m.origin {
      OtherHandlers(s, e, m.origin);
    }
  }

  lemma AcceptedStep(s: State, e: Event, m: Msg)
    requires Enabled(s, e)
    ensures m in Step(s, e).log.accepted <==>
              m in s.log.accepted || e == Accept(m.origin, m) || (e.FanStart? && e.c == m.origin && m in e.copies)
  {}

  /** The accepted messages are those some event took in. */
  lemma {:induction false} AcceptedIff(es: seq<Event>, m: Msg)
    requires IsRun(es)
    ensures m in Exec(es).log.accepted <==> exists i: nat :: TakenInAt(es, i, m)
  {
    if es != [] {
      var n := |es| - 1;
      AcceptedIff(es[..n], m);
      AcceptedStep(Exec(es[..n]), es[n], m);
      if i: nat :| TakenInAt(es[..n], i, m) {
        assert TakenInAt(es, i, m);
      }
      if i: nat :| TakenInAt(es, i, m) {
        assert i == n || TakenInAt(es[..n], i, m);
      }
      assert TakenInAt(es, n, m) ==> exists i: nat :: TakenInAt(es, i, m);
    }
  }

  lemma {:induction false} AwaitsOrLooked(es: seq<Event>, m: Msg)
    requires IsRun(es) && m in Exec(es).log.accepted
    ensures Awaits(es, m) || exists j: nat :: LooksUpAt(es, j, m)
  {
    var n := |es| - 1;
    var before := es[..n];
    AcceptedStep(Exec(before), es[n], m);
    if m in Exec(before).log.accepted {
      AwaitsOrLooked(before, m);
      if j: nat :| LooksUpAt(before, j, m) {
        LooksUpStays(es, j, m);
      } else if i: nat :| AwaitsLookup(before, i, m) {
        AwaitsStays(es, i, m);
      } else {
        FanningStep(Exec(before), es[n], m);
        assert es[n] == FanNext(m.origin, m) ==> LooksUpAt(es, n, m);
      }
    } else if es[n] == Accept(m.origin, m) {
      assert AwaitsLookup(es, n, m);
    }
  }

  lemma AwaitingIsHeld(es: seq<Event>, m: Msg)
    requires IsRun(es) && Awaits(es, m)
    ensures Exec(es).At(m.origin).Holds(m)
  {
    if i: nat :| AwaitsLookup(es, i, m) {
      AwaitingIsRouting(es, i, m);
    }
  }

  lemma {:induction false} RunPrefix(es: seq<Event>, j: nat)
    requires IsRun(es) && j <= |es|
    ensures IsRun(es[..j])
    decreases |es|
  {
    if j < |es| {
      assert es[..|es| - 1][..j] == es[..j];
      RunPrefix(es[..|es| - 1], j);
    } else {
      assert es[..j] == es;
    }
  }

  lemma LookedUpWasHeld(es: seq<Event>, j: nat, m: Msg)
    requires IsRun(es) && LooksUpAt(es, j, m)
    ensures IsRun(es[..j]) && Exec(es[..j]).At(m.origin).Holds(m)
  {
    RunPrefix(es, j + 1);
    assert es[..j + 1][..j] == es[..j];
    if es[j] != FanNext(m.origin, m) {
      var i: nat :| AwaitsLookup(es[..j], i, m);
      AwaitingIsRouting(es[..j], i, m);
    }
  }

  lemma OneRow(s: State, m: Msg)
    requires QueueInv(s)
    ensures m in s.log.rowOf <==> exists id :: id in s.log.stored && s.log.stored[id] == m
    ensures forall id :: id in s.log.stored && s.log.stored[id] == m ==> id == s.log.rowOf[m]
  {
    if m in s.log.rowOf {
      assert s.log.stored[s.log.rowOf[m]] == m;
    }
  }

  ghost predicate StoredGrows(at: State, s: State) {
    forall id :: id in at.log.stored ==> id in s.log.stored && s.log.stored[id] == at.log.stored[id]
  }

  lemma StoredStep(s: State, e: Event)
    requires Enabled(s, e) && QueueInv(s)
    ensures StoredGrows(s, Step(s, e))
  {
    if OfSession(e) {
      StoredStepOfSession(s, e);
    } else {
      StoredStepOfMessage(s, e);
    }
  }

  lemma StoredStepOfSession(s: State, e: Event)
    requires Enabled(s, e) && QueueInv(s) && OfSession(e)
    ensures StoredGrows(s, Step(s, e))
  {}

  lemma StoredStepOfMessage(s: State, e: Event)
    requires Enabled(s, e) && QueueInv(s) && !OfSession(e)
    ensures StoredGrows(s, Step(s, e))
  {}

  lemma {:induction false} StoredForGood(es: seq<Event>, j: nat)
    requires IsRun(es) && j <= |es| && IsRun(es[..j])
    ensures StoredGrows(Exec(es[..j]), Exec(es))
    decreases |es|
  {
    var n := |es| - 1;
    if j == |es| {
      assert es[..j] == es;
    } else {
      assert es[..n][..j] == es[..j];
      StoredForGood(es[..n], j);
      EveryRunKeepsInv(es[..n]);
      StoredStep(Exec(es[..n]), es[n]);
    }
  }

  // ---------- the laws ----------

  /** Once its handler is done with a message, it has gone where the registry
      pointed at its lookup: to the connection registered, once, to no other, and
      into no row; or, with none registered, into one row that is new, and to
      nobody directly. */
  lemma MessageFollowsRegistry(es: seq<Event>, j: nat, m: Msg)
    requires IsRun(es) && LooksUpAt(es, j, m) && !Exec(es).At(m.origin).Holds(m)
    ensures IsRun(es[..j])
    ensures var at, s := Exec(es[..j]), Exec(es);
            if m.recipient in at.clients then
              && s.log.direct[m] == 1 && (forall d :: (d, m) in s.log.sends <==> d == at.clients[m.recipient])
              && forall id :: id in s.log.stored ==> s.log.stored[id] != m
            else
              && m !in s.log.direct
              && exists id :: StoredOnlyAs(s, m, id) && id !in at.log.stored
  {
    LookedUpWasHeld(es, j, m);
    FollowsRegistry(es, j, m);
    EveryRunKeepsInv(es);
    EveryRunKeepsInv(es[..j]);
    StoredForGood(es, j);
    SettledRow(Exec(es[..j]), Exec(es), m, Registered(Exec(es[..j]), m.recipient));
  }

  lemma SettledRow(at: State, s: State, m: Msg, to: Option<Conn>)
    requires QueueInv(at) && QueueInv(s) && StoredGrows(at, s) && m !in at.log.rowOf
    requires Settled(s, m, to)
    ensures to.Some? ==> forall id :: id in s.log.stored ==> s.log.stored[id] != m
    ensures to.None? ==> exists id :: StoredOnlyAs(s, m, id) && id !in at.log.stored
  {
    OneRow(at, m);
    OneRow(s, m);
    if to.None? {
      assert StoredOnlyAs(s, m, s.log.rowOf[m]);
    }
  }

  ghost predicate StoredOnlyAs(s: State, m: Msg, id: nat) {
    && id in s.log.stored && s.log.stored[id] == m
    && forall other :: other in s.log.stored && s.log.stored[other] == m ==> other == id
  }

  /** In events alone: a message its handler is done with was sent to d directly
      if and only if d was the recipient's current session at the lookup ... */
  lemma SentDirectlyIff(es: seq<Event>, m: Msg, d: Conn)
    requires IsRun(es) && m in Exec(es).log.accepted && !Exec(es).At(m.origin).Holds(m)
    ensures m in Exec(es).log.direct && (d, m) in Exec(es).log.sends <==>
            exists j: nat :: LooksUpAt(es, j, m) && IsCurrent(es[..j], d, m.recipient)
  {
    var j := LookupOf(es, m);
    MessageFollowsRegistry(es, j, m);
    RegistryHoldsLatestSession(es[..j], d, m.recipient);
    if k: nat :| LooksUpAt(es, k, m) && IsCurrent(es[..k], d, m.recipient) {
      MessageFollowsRegistry(es, k, m);
      RegistryHoldsLatestSession(es[..k], d, m.recipient);
    }
  }

  /** ... and became a row if and only if the recipient had no session then. */
  lemma StoredIff(es: seq<Event>, m: Msg)
    requires IsRun(es) && m in Exec(es).log.accepted && !Exec(es).At(m.origin).Holds(m)
    ensures (exists id :: id in Exec(es).log.stored && Exec(es).log.stored[id] == m) <==>
            exists j: nat :: LooksUpAt(es, j, m) && forall d :: !IsCurrent(es[..j], d, m.recipient)
  {
    var j := LookupOf(es, m);
    MessageFollowsRegistry(es, j, m);
    NobodyCurrent(es[..j], m.recipient);
    if k: nat :| LooksUpAt(es, k, m) && forall d :: !IsCurrent(es[..k], d, m.recipient) {
      MessageFollowsRegistry(es, k, m);
      NobodyCurrent(es[..k], m.recipient);
    }
  }

  lemma LookupOf(es: seq<Event>, m: Msg) returns (j: nat)
    requires IsRun(es) && m in Exec(es).log.accepted && !Exec(es).At(m.origin).Holds(m)
    ensures LooksUpAt(es, j, m)
  {
    AwaitsOrLooked(es, m);
    if Awaits(es, m) {
      AwaitingIsHeld(es, m);
    }
    j :| LooksUpAt(es, j, m);
  }

  lemma NobodyCurrent(es: seq<Event>, u: User)
    requires IsRun(es)
    ensures u !in Exec(es).clients <==> forall d :: !IsCurrent(es, d, u)
  {
    forall d
      ensures (u in Exec(es).clients && Exec(es).clients[u] == d) <==> IsCurrent(es, d, u)
    {
      RegistryHoldsLatestSession(es, d, u);
    }
    if u in Exec(es).clients {
      assert IsCurrent(es, Exec(es).clients[u], u);
    }
  }

  // ---------- rows ----------

  /** The step inserts m as row id. */
  ghost predicate Inserts(s: State, e: Event, id: nat, m: Msg) {
    && id == s.nextRow
    && ((e == Store(m.origin) && s.At(m.origin) == Storing(m))
        || (e == FanNext(m.origin, m) && m.recipient !in s.clients))
  }

  ghost predicate InsertsAt(es: seq<Event>, j: nat, id: nat, m: Msg) {
    j < |es| && IsRun(es[..j]) && Inserts(Exec(es[..j]), es[j], id, m)
  }

  /** Event k deletes row id, which holds m: a delivery purges it, or the account
      of its sender or recipient is erased. */
  predicate RemovesAt(es: seq<Event>, k: nat, id: nat, m: Msg) {
    && k < |es|
    && ((es[k].Purge? && es[k].id == id)
        || (es[k].EraseAccount?
            && LastUser(es[..k], es[k].c) in {Some(m.sender), Some(m.recipient)}))
  }

  ghost predicate RowStands(es: seq<Event>, j: nat, id: nat, m: Msg) {
    InsertsAt(es, j, id, m) && forall k :: j < k < |es| ==> !RemovesAt(es, k, id, m)
  }

  lemma EnqueuedRow(s: State, x: Msg, id: nat, m: Msg)
    requires QueueInv(s)
    ensures (id in Enqueue(s, x).queue && Enqueue(s, x).queue[id] == m) <==>
              (id == s.nextRow && m == x) || (id in s.queue && s.queue[id] == m)
  {}

  /** What an event does to row id, when it holds m. */
  ghost predicate RowAfter(s: State, e: Event, id: nat, m: Msg)
    requires Enabled(s, e)
  {
    || Inserts(s, e, id, m)
    || (id in s.queue && s.queue[id] == m
        && !(e.Purge? && e.id == id)
        && !(e.EraseAccount? && s.username[e.c] in {m.sender, m.recipient}))
  }

  lemma RowOfStore(s: State, e: Event, id: nat, m: Msg)
    requires Enabled(s, e) && PlaceInv(s) && QueueInv(s) && e.Store?
    ensures (id in Step(s, e).queue && Step(s, e).queue[id] == m) <==> RowAfter(s, e, id, m)
  {
    assert s.At(e.c).Holds(s.At(e.c).msg);
    EnqueuedRow(s, s.At(e.c).msg, id, m);
  }

  lemma RowOfFanNext(s: State, e: Event, id: nat, m: Msg)
    requires Enabled(s, e) && PlaceInv(s) && QueueInv(s) && e.FanNext?
    ensures (id in Step(s, e).queue && Step(s, e).queue[id] == m) <==> RowAfter(s, e, id, m)
  {
    assert s.At(e.c).Holds(e.msg);
    EnqueuedRow(s, e.msg, id, m);
  }

  lemma RowOfRemoval(s: State, e: Event, id: nat, m: Msg)
    requires Enabled(s, e) && (e.Purge? || e.EraseAccount?)
    ensures (id in Step(s, e).queue && Step(s, e).queue[id] == m) <==> RowAfter(s, e, id, m)
  {}

  lemma RowOfOther(s: State, e: Event, id: nat, m: Msg)
    requires Enabled(s, e) && LeavesRows(e)
    ensures (id in Step(s, e).queue && Step(s, e).queue[id] == m) <==> RowAfter(s, e, id, m)
  {
    LeavesRowsEffect(s, e);
    assert Step(s, e).queue == s.queue && !Inserts(s, e, id, m);
  }

  lemma RowStep(s: State, e: Event, id: nat, m: Msg)
    requires Enabled(s, e) && PlaceInv(s) && QueueInv(s)
    ensures (id in Step(s, e).queue && Step(s, e).queue[id] == m) <==> RowAfter(s, e, id, m)
  {
    if LeavesRows(e) {
      RowOfOther(s, e, id, m);
    } else if e.Store? {
      RowOfStore(s, e, id, m);
    } else if e.FanNext? {
      RowOfFanNext(s, e, id, m);
    } else {
      RowOfRemoval(s, e, id, m);
    }
  }

  lemma RemovesLast(es: seq<Event>, id: nat, m: Msg)
    requires IsRun(es) && es != []
    ensures var n := |es| - 1;
            var e, s := es[n], Exec(es[..n]);
            RemovesAt(es, n, id, m) <==>
              (e.Purge? && e.id == id) || (e.EraseAccount? && s.username[e.c] in {m.sender, m.recipient})
  {
    var n := |es| - 1;
    if es[n].EraseAccount? {
      UsernameIsLastUser(es[..n], es[n].c);
    }
  }

  lemma RowStandsStep(es: seq<Event>, j: nat, id: nat, m: Msg)
    requires es != [] && j < |es| - 1
    ensures RowStands(es, j, id, m) <==>
              RowStands(es[..|es| - 1], j, id, m) && !RemovesAt(es, |es| - 1, id, m)
  {
    var n := |es| - 1;
    var before := es[..n];
    assert before[..j] == es[..j];
    forall k | j < k < n
      ensures RemovesAt(es, k, id, m) <==> RemovesAt(before, k, id, m)
    {
      assert before[..k] == es[..k];
    }
  }

  lemma RowAfterLast(es: seq<Event>, id: nat, m: Msg)
    requires IsRun(es) && es != []
    ensures var n := |es| - 1;
            (id in Exec(es).queue && Exec(es).queue[id] == m) <==>
              || Inserts(Exec(es[..n]), es[n], id, m)
              || (id in Exec(es[..n]).queue && Exec(es[..n]).queue[id] == m && !RemovesAt(es, n, id, m))
  {
    var n := |es| - 1;
    EveryRunKeepsInv(es[..n]);
    RowStep(Exec(es[..n]), es[n], id, m);
    RemovesLast(es, id, m);
  }

  /** A row is queued if and only if some event inserted it and none since has
      purged it or erased the account of its sender or recipient. */
  lemma {:induction false} QueuedIff(es: seq<Event>, id: nat, m: Msg)
    requires IsRun(es)
    ensures (id in Exec(es).queue && Exec(es).queue[id] == m) <==> exists j: nat :: RowStands(es, j, id, m)
  {
    if es != [] {
      var n := |es| - 1;
      QueuedIff(es[..n], id, m);
      RowAfterLast(es, id, m);
      forall j: nat | j < n
        ensures RowStands(es, j, id, m) <==> RowStands(es[..n], j, id, m) && !RemovesAt(es, n, id, m)
      {
        RowStandsStep(es, j, id, m);
      }
      if Inserts(Exec(es[..n]), es[n], id, m) {
        assert RowStands(es, n, id, m);
      }
    }
  }
}
