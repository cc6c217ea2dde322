/** Trust on first use: acceptPeerKey in the Go client (native_client/main.go)
    and in the web client (web/src/App.tsx). The key digest is abstract. */
module KeyPins {

  import opened Prelude

  type Digest = Key -> string

  datatype Pin = Pin(fingerprint: string, publicKey: Key)

  datatype State = State(pins: map<User, Pin>, peerKeys: map<User, Key>)

  /** One announced key, with the failures the pin store has while it is dealt
      with. */
  datatype Request = Request(peer: User, pk: Key, fpHint: string, lookupFails: bool, storeFails: bool)

  predicate HintFits(fp: Digest, r: Request) {
    r.fpHint == "" || r.fpHint == fp(r.pk)
  }

  function Cache(s: State, r: Request): State {
    s.(peerKeys := s.peerKeys[r.peer := r.pk])
  }

  function Store(fp: Digest, s: State, r: Request): State {
    s.(pins := s.pins[r.peer := Pin(fp(r.pk), r.pk)])
  }

  /** The Go client: a failed lookup counts as a first meeting, but then the
      insert runs into the primary key. Also tells whether the key was
      accepted. */
  function GoStep(fp: Digest, s: State, r: Request): (State, bool) {
    if r.peer == "" || !HintFits(fp, r) then (s, false)
    else if r.peer in s.pins && !r.lookupFails then
      if s.pins[r.peer].fingerprint == fp(r.pk) then (Cache(s, r), true) else (s, false)
    else if r.storeFails || r.peer in s.pins then (s, false)
    else (Cache(Store(fp, s, r), r), true)
  }

  /** The web client: pins live in memory, and saving them may throw. */
  function WebStep(fp: Digest, s: State, r: Request): (State, bool) {
    if !HintFits(fp, r) then (s, false)
    else if r.peer in s.pins then
      if s.pins[r.peer].fingerprint == fp(r.pk) then (Cache(s, r), true) else (s, false)
    else if r.storeFails then (Store(fp, s, r), false)
    else (Cache(Store(fp, s, r), r), true)
  }

  class PhazeApp {
    const fp: Digest
    var pins: map<User, Pin>
    var peerKeys: map<User, Key>

    function Abs(): State
      reads this
    {
      State(pins, peerKeys)
    }

    constructor (fp: Digest, pins: map<User, Pin>)
      ensures this.fp == fp && Abs() == State(pins, map[])
    {
      this.fp, this.pins, peerKeys := fp, pins, map[];
    }

    /** SELECT fingerprint: no row and a failing query are both errors. */
    method Lookup(peer: User, fails: bool) returns (fingerprint: Option<string>)
      ensures fingerprint == if peer in pins && !fails then Some(pins[peer].fingerprint) else None
    {
      fingerprint := if peer in pins && !fails then Some(pins[peer].fingerprint) else None;
    }

    /** INSERT under the primary key skypename. */
    method Insert(peer: User, pin: Pin, fails: bool) returns (ok: bool)
      modifies this`pins
      ensures ok <==> !fails && peer !in old(pins)
      ensures pins == if ok then old(pins)[peer := pin] else old(pins)
    {
      ok := !fails && peer !in pins;
      if ok {
        pins := pins[peer := pin];
      }
    }

    /** acceptPeerKey of the Go client; without a key nothing happens. */
    method AcceptPeerKey(peer: User, pk: Option<Key>, fpHint: string, lookupFails: bool, storeFails: bool)
      returns (accepted: bool)
      modifies this
      ensures pk.None? ==> Abs() == old(Abs()) && !accepted
      ensures pk.Some? ==>
                (Abs(), accepted) == GoStep(fp, old(Abs()), Request(peer, pk.value, fpHint, lookupFails, storeFails))
      ensures accepted <==>
                && peer != "" && pk.Some? && (fpHint == "" || fpHint == fp(pk.value))
                && if peer in old(pins) then !lookupFails && old(pins)[peer].fingerprint == fp(pk.value)
                   else !storeFails
      ensures accepted ==>
                && peerKeys == old(peerKeys)[peer := pk.value]
                && pins == if peer in old(pins) then old(pins) else old(pins)[peer := Pin(fp(pk.value), pk.value)]
      ensures !accepted ==> pins == old(pins) && peerKeys == old(peerKeys)
    {
      if peer == "" || pk.None? {
        return false;
      }
      var digest := fp(pk.value);
      if fpHint != "" && fpHint != digest {
        return false;
      }
      var pinned := Lookup(peer, lookupFails);
      if pinned.None? {
        var ok := Insert(peer, Pin(digest, pk.value), storeFails);
        if !ok {
          return false;
        }
        peerKeys := peerKeys[peer := pk.value];
        return true;
      } else if pinned.value == digest {
        peerKeys := peerKeys[peer := pk.value];
        return true;
      }
      return false;
    }
  }

  class WebApp {
    const fp: Digest
    var pins: map<User, Pin>
    var peerKeys: map<User, Key>

    function Abs(): State
      reads this
    {
      State(pins, peerKeys)
    }

    constructor (fp: Digest, pins: map<User, Pin>)
      ensures this.fp == fp && Abs() == State(pins, map[])
    {
      this.fp, this.pins, peerKeys := fp, pins, map[];
    }

    /** acceptPeerKey of the web client. */
    method AcceptPeerKey(peer: User, pk: Key, fpHint: string, saveFails: bool) returns (accepted: bool)
      modifies this
      ensures (Abs(), accepted) == WebStep(fp, old(Abs()), Request(peer, pk, fpHint, false, saveFails))
      ensures accepted <==>
                && (fpHint == "" || fpHint == fp(pk))
                && if peer in old(pins) then old(pins)[peer].fingerprint == fp(pk) else !saveFails
      ensures peerKeys == if accepted then old(peerKeys)[peer := pk] else old(peerKeys)
      ensures pins == if peer !in old(pins) && (fpHint == "" || fpHint == fp(pk))
                      then old(pins)[peer := Pin(fp(pk), pk)] else old(pins)
    {
      var digest := fp(pk);
      if fpHint != "" && fpHint != digest {
        return false;
      }
      var prev := if peer in pins then Some(pins[peer]) else None;
      if prev.Some? && prev.value.fingerprint != digest {
        return false;
      }
      if prev.None? {
        pins := pins[peer := Pin(digest, pk)];
        if saveFails {
          return false;
        }
      }
      peerKeys := peerKeys[peer := pk];
      accepted := true;
    }
  }

  /** The two clients treat a key differently exactly when it is announced for
      the empty name, a stored pin cannot be read, or a new one not stored. */
  lemma ClientsDifferIff(fp: Digest, s: State, r: Request)
    ensures WebStep(fp, s, r) != GoStep(fp, s, r) <==>
              && HintFits(fp, r)
              && if r.peer in s.pins
                 then s.pins[r.peer].fingerprint == fp(r.pk) && (r.peer == "" || r.lookupFails)
                 else r.peer == "" || r.storeFails
  {
    if r.peer !in s.pins {
      assert r.peer in Store(fp, s, r).pins;
    }
  }

  // ---------- runs ----------

  datatype Side = Go | Web

  /** Restart empties the Go client's key cache; Reset is the web client's
      account deletion. */
  datatype Event = Arrive(request: Request) | Restart | Reset

  predicate IsRun(side: Side, es: seq<Event>) {
    forall i :: 0 <= i < |es| ==> (es[i].Restart? ==> side.Go?) && (es[i].Reset? ==> side.Web?)
  }

  function Treat(side: Side, fp: Digest, s: State, r: Request): (State, bool) {
    if side.Go? then GoStep(fp, s, r) else WebStep(fp, s, r)
  }

  function Step(side: Side, fp: Digest, s: State, e: Event): State {
    match e
    case Arrive(r) => Treat(side, fp, s, r).0
    case Restart => s.(peerKeys := map[])
    case Reset => State(map[], map[])
  }

  function After(side: Side, fp: Digest, s: State, es: seq<Event>): State {
    if es == [] then s else Step(side, fp, After(side, fp, s, es[..|es| - 1]), es[|es| - 1])
  }

  /** The i-th event has `key` accepted for `peer`. */
  predicate AcceptedAt(side: Side, fp: Digest, s: State, es: seq<Event>, i: nat, peer: User, key: Key) {
    && i < |es| && es[i].Arrive? && es[i].request.peer == peer && es[i].request.pk == key
    && Treat(side, fp, After(side, fp, s, es[..i]), es[i].request).1
  }

  /** Every pin is its key's fingerprint and every cached key fits its pin. */
  ghost predicate Inv(fp: Digest, s: State) {
    && (forall p :: p in s.pins ==> s.pins[p].fingerprint == fp(s.pins[p].publicKey))
    && (forall p :: p in s.peerKeys ==> p in s.pins && fp(s.peerKeys[p]) == s.pins[p].fingerprint)
  }

  /** Whatever is announced and whichever lookups and inserts fail. */
  lemma {:induction false} EveryRunKeepsInv(side: Side, fp: Digest, s: State, es: seq<Event>)
    requires Inv(fp, s) && IsRun(side, es)
    ensures Inv(fp, After(side, fp, s, es))
  {
    if es != [] {
      EveryRunKeepsInv(side, fp, s, es[..|es| - 1]);
    }
  }

  predicate NoResetFrom(es: seq<Event>, i: nat) {
    forall k :: i <= k < |es| ==> !es[k].Reset?
  }

  lemma StepKeepsPins(side: Side, fp: Digest, s: State, e: Event, peer: User)
    requires !e.Reset? && peer in s.pins
    ensures peer in Step(side, fp, s, e).pins && Step(side, fp, s, e).pins[peer] == s.pins[peer]
  {}

  /** A stored pin never changes, except by an account reset. */
  lemma {:induction false} PinNeverChanges(side: Side, fp: Digest, s: State, es: seq<Event>, i: nat, peer: User)
    requires IsRun(side, es) && i <= |es| && NoResetFrom(es, i)
    requires peer in After(side, fp, s, es[..i]).pins
    ensures peer in After(side, fp, s, es).pins
    ensures After(side, fp, s, es).pins[peer] == After(side, fp, s, es[..i]).pins[peer]
  {
    if i == |es| {
      assert es[..i] == es;
    } else {
      var before := es[..|es| - 1];
      assert before[..i] == es[..i];
      PinNeverChanges(side, fp, s, before, i, peer);
      StepKeepsPins(side, fp, After(side, fp, s, before), es[|es| - 1], peer);
    }
  }

  lemma AcceptedFitsPin(side: Side, fp: Digest, s: State, es: seq<Event>, i: nat, peer: User, key: Key)
    requires AcceptedAt(side, fp, s, es, i, peer, key)
    ensures peer in After(side, fp, s, es[..i + 1]).pins
    ensures After(side, fp, s, es[..i + 1]).pins[peer].fingerprint == fp(key)
  {
    assert es[..i + 1][..i] == es[..i];
  }

  /** All keys accepted for a peer, at any times, have the same fingerprint; in
      the web client, between account resets. */
  lemma AcceptedKeysAgree(side: Side, fp: Digest, s: State, es: seq<Event>, i: nat, j: nat,
                          peer: User, a: Key, b: Key)
    requires IsRun(side, es) && i < j && NoResetFrom(es, i)
    requires AcceptedAt(side, fp, s, es, i, peer, a) && AcceptedAt(side, fp, s, es, j, peer, b)
    ensures fp(a) == fp(b)
  {
    AcceptedFitsPin(side, fp, s, es, i, peer, a);
    AcceptedFitsPin(side, fp, s, es, j, peer, b);
    var upTo := es[..j + 1];
    assert upTo[..i + 1] == es[..i + 1];
    PinNeverChanges(side, fp, s, upTo, i + 1, peer);
  }

  /** In the Go client a peer that was not pinned is pinned exactly if some key
      of theirs was accepted, and the pin is that of the first one. */
  lemma {:induction false} PinIsFirstAccepted(fp: Digest, s: State, es: seq<Event>, peer: User)
    returns (i: nat, key: Key)
    requires IsRun(Go, es) && peer !in s.pins
    ensures peer in After(Go, fp, s, es).pins <==> AcceptedAt(Go, fp, s, es, i, peer, key)
    ensures peer in After(Go, fp, s, es).pins ==> After(Go, fp, s, es).pins[peer] == Pin(fp(key), key)
    ensures peer !in After(Go, fp, s, es).pins ==> i == |es|
    ensures forall j: nat, k :: AcceptedAt(Go, fp, s, es, j, peer, k) ==> i <= j < |es|
  {
    i, key := |es|, [];
    if es != [] {
      var n := |es| - 1;
      var before := es[..n];
      i, key := PinIsFirstAccepted(fp, s, before, peer);
      if peer !in After(Go, fp, s, before).pins {
        i := if peer in After(Go, fp, s, es).pins then n else n + 1;
        key := if i == n then es[n].request.pk else [];
      } else {
        assert before[..i] == es[..i];
      }
      forall j: nat, k | AcceptedAt(Go, fp, s, es, j, peer, k)
        ensures i <= j < |es|
      {
        if j < n {
          assert before[..j] == es[..j];
          assert AcceptedAt(Go, fp, s, before, j, peer, k);
        }
      }
    }
  }

  /** Event i has the key accepted, and nothing since has accepted another for
      the peer or emptied the cache. */
  ghost predicate LastAccepted(side: Side, fp: Digest, s: State, es: seq<Event>, i: nat, peer: User, key: Key) {
    && AcceptedAt(side, fp, s, es, i, peer, key)
    && forall j: nat :: i < j < |es| ==> es[j].Arrive? && forall k :: !AcceptedAt(side, fp, s, es, j, peer, k)
  }

  lemma CacheStep(side: Side, fp: Digest, s: State, e: Event, peer: User, key: Key)
    ensures var s' := Step(side, fp, s, e);
            (peer in s'.peerKeys && s'.peerKeys[peer] == key) <==>
              && e.Arrive?
              && if e.request.peer == peer && Treat(side, fp, s, e.request).1 then e.request.pk == key
                 else peer in s.peerKeys && s.peerKeys[peer] == key
  {}

  lemma AcceptedEarlier(side: Side, fp: Digest, s: State, es: seq<Event>, j: nat, peer: User, key: Key)
    requires j < |es| - 1
    ensures AcceptedAt(side, fp, s, es[..|es| - 1], j, peer, key) <==> AcceptedAt(side, fp, s, es, j, peer, key)
  {
    assert es[..|es| - 1][..j] == es[..j];
  }

  lemma LastAcceptedStep(side: Side, fp: Digest, s: State, es: seq<Event>, i: nat, peer: User, key: Key)
    requires i < |es| - 1
    ensures var n := |es| - 1;
            LastAccepted(side, fp, s, es, i, peer, key) <==>
              && LastAccepted(side, fp, s, es[..n], i, peer, key)
              && es[n].Arrive? && forall k :: !AcceptedAt(side, fp, s, es, n, peer, k)
  {
    var n := |es| - 1;
    AcceptedEarlier(side, fp, s, es, i, peer, key);
    forall j: nat, k | j < n
      ensures AcceptedAt(side, fp, s, es[..n], j, peer, k) <==> AcceptedAt(side, fp, s, es, j, peer, k)
    {
      AcceptedEarlier(side, fp, s, es, j, peer, k);
    }
  }

  lemma SomeLastAccepted(side: Side, fp: Digest, s: State, es: seq<Event>, peer: User, key: Key)
    requires es != []
    ensures var n := |es| - 1;
            (exists i: nat :: LastAccepted(side, fp, s, es, i, peer, key)) <==>
              || AcceptedAt(side, fp, s, es, n, peer, key)
              || ((exists i: nat :: LastAccepted(side, fp, s, es[..n], i, peer, key))
                  && es[n].Arrive? && forall k :: !AcceptedAt(side, fp, s, es, n, peer, k))
  {
    var n := |es| - 1;
    if AcceptedAt(side, fp, s, es, n, peer, key) {
      assert LastAccepted(side, fp, s, es, n, peer, key);
    } else if i: nat :| LastAccepted(side, fp, s, es[..n], i, peer, key) {
      LastAcceptedStep(side, fp, s, es, i, peer, key);
    }
    if i: nat :| LastAccepted(side, fp, s, es, i, peer, key) && i < n {
      LastAcceptedStep(side, fp, s, es, i, peer, key);
    }
  }

  /** From an empty cache: a key is cached for a peer if and only if it is the
      last one accepted for them since the cache was last emptied. */
  lemma {:induction false} CachedIff(side: Side, fp: Digest, s: State, es: seq<Event>, peer: User, key: Key)
    requires s.peerKeys == map[]
    ensures var s' := After(side, fp, s, es);
            (peer in s'.peerKeys && s'.peerKeys[peer] == key) <==>
            exists i: nat :: LastAccepted(side, fp, s, es, i, peer, key)
  {
    if es != [] {
      var n := |es| - 1;
      var before := After(side, fp, s, es[..n]);
      CachedIff(side, fp, s, es[..n], peer, key);
      CacheStep(side, fp, before, es[n], peer, key);
      SomeLastAccepted(side, fp, s, es, peer, key);
      if es[n].Arrive? && es[n].request.peer == peer && Treat(side, fp, before, es[n].request).1 {
        assert AcceptedAt(side, fp, s, es, n, peer, es[n].request.pk);
      }
    }
  }

  // ---------- which pins there are ----------

  /** The request pins its key: it fits the hint, the peer has no pin, and in the
      Go client the name is not empty and the insert goes through. */
  predicate Pins(side: Side, fp: Digest, s: State, r: Request) {
    && (r.fpHint == "" || r.fpHint == fp(r.pk)) && r.peer !in s.pins
    && (side.Go? ==> r.peer != "" && !r.storeFails)
  }

  /** Event i pins the key for the peer, and no account reset has come since. */
  predicate PinStands(side: Side, fp: Digest, s: State, es: seq<Event>, i: nat, peer: User, key: Key) {
    && i < |es| && es[i].Arrive? && es[i].request.peer == peer && es[i].request.pk == key
    && Pins(side, fp, After(side, fp, s, es[..i]), es[i].request)
    && forall k :: i < k < |es| ==> !es[k].Reset?
  }

  lemma PinStep(side: Side, fp: Digest, s: State, e: Event, peer: User, pin: Pin)
    ensures var s' := Step(side, fp, s, e);
            (peer in s'.pins && s'.pins[peer] == pin) <==>
              || (e.Arrive? && e.request.peer == peer && Pins(side, fp, s, e.request)
                  && pin == Pin(fp(e.request.pk), e.request.pk))
              || (peer in s.pins && s.pins[peer] == pin && !e.Reset?)
  {}

  lemma PinStandsStep(side: Side, fp: Digest, s: State, es: seq<Event>, i: nat, peer: User, key: Key)
    requires i < |es| - 1
    ensures PinStands(side, fp, s, es, i, peer, key) <==>
              PinStands(side, fp, s, es[..|es| - 1], i, peer, key) && !es[|es| - 1].Reset?
  {
    assert es[..|es| - 1][..i] == es[..i];
  }

  lemma SomePinStands(side: Side, fp: Digest, s: State, es: seq<Event>, peer: User, key: Key)
    requires es != []
    ensures var n := |es| - 1;
            (exists i: nat :: PinStands(side, fp, s, es, i, peer, key)) <==>
              || PinStands(side, fp, s, es, n, peer, key)
              || ((exists i: nat :: PinStands(side, fp, s, es[..n], i, peer, key)) && !es[n].Reset?)
  {
    var n := |es| - 1;
    if i: nat :| PinStands(side, fp, s, es[..n], i, peer, key) {
      PinStandsStep(side, fp, s, es, i, peer, key);
    }
    if i: nat :| PinStands(side, fp, s, es, i, peer, key) && i < n {
      PinStandsStep(side, fp, s, es, i, peer, key);
    }
  }

  /** In both clients, from no pins: a pin is there if and only if some request
      pinned that key and no account reset has come since; restarts keep it. */
  lemma {:induction false} PinnedIff(side: Side, fp: Digest, s: State, es: seq<Event>, peer: User, pin: Pin)
    requires s.pins == map[]
    ensures var s' := After(side, fp, s, es);
            (peer in s'.pins && s'.pins[peer] == pin) <==>
            pin.fingerprint == fp(pin.publicKey)
            && exists i: nat :: PinStands(side, fp, s, es, i, peer, pin.publicKey)
  {
    if es != [] {
      var n := |es| - 1;
      PinnedIff(side, fp, s, es[..n], peer, pin);
      PinStep(side, fp, After(side, fp, s, es[..n]), es[n], peer, pin);
      SomePinStands(side, fp, s, es, peer, pin.publicKey);
    }
  }
}
