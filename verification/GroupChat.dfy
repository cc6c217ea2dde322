/** One group message end to end: the sender's envelopes
    (native_client/main.go, OnSend), the server's fan-out
    (nexus_server/main.go, convo_msg) and the receiver's decryption
    (native_client/main.go, HandleIncomingMessage). */
module GroupChat {

  import opened Prelude
  import Envelopes
  import Relay
  import RelayRuns

  type Msg = Relay.Msg

  // ---------- the sender ----------

  /** OnSend, group branch: one envelope per listed member other than the sender;
      a listed member without a key is sent the text itself, and their key is
      asked for. The i-th member's envelope takes the i-th nonce, if the random
      source gives one. */
  method BuildEnvelopes(box: Envelopes.Box, client: Envelopes.Client, username: User, members: seq<User>,
                        body: Bytes, nonces: seq<Option<Bytes>>)
    returns (envelopes: map<User, Bytes>, requested: set<User>)
    requires |nonces| == |members|
    ensures AreEnvelopes(box, client, username, members, body, nonces, envelopes)
    ensures forall m :: m in envelopes <==> m in members && m != "" && m != username
    ensures forall m :: m in envelopes ==>
              var nonce := nonces[LastIndex(members, m)];
              if client.privKey.Some? && m in client.peerKeys && body != [] && nonce.Some?
              then Envelopes.Carries(envelopes[m], nonce.value + box.seal(body, nonce.value, client.peerKeys[m],
                                                                          client.privKey.value))
              else envelopes[m] == body
    ensures requested == set m | m in members && m != "" && m != username && m !in client.peerKeys
  {
    envelopes, requested := map[], {};
    for i := 0 to |members|
      invariant AreEnvelopes(box, client, username, members[..i], body, nonces[..i], envelopes)
      invariant requested == set m | m in envelopes && m !in client.peerKeys
    {
      var m := members[i];
      ghost var before := envelopes;
      if !(m == "" || m == username) {
        if m !in client.peerKeys {
          requested := requested + {m};
        }
        envelopes := envelopes[m := client.EncryptForPeer(box, body, m, nonces[i])];
      }
      OneMoreEnvelope(box, client, username, members, body, nonces, i, before, envelopes);
    }
    assert members[..|members|] == members && nonces[..|members|] == nonces;
    forall m | m in envelopes {
      Envelopes.SealedExactly(box, client, body, m, nonces[LastIndex(members, m)]);
    }
  }

  predicate Listed(members: seq<User>, username: User, m: User) {
    m in members && m != "" && m != username
  }

  /** Where m is listed, last if more than once. */
  function LastIndex(members: seq<User>, m: User): (i: nat)
    requires m in members
    ensures i < |members| && members[i] == m && m !in members[i + 1..]
  {
    if members[|members| - 1] == m then |members| - 1 else LastIndex(members[..|members| - 1], m)
  }

  /** Exactly the listed members have an envelope, each encrypted for them. */
  ghost predicate AreEnvelopes(box: Envelopes.Box, client: Envelopes.Client, username: User, members: seq<User>,
                               body: Bytes, nonces: seq<Option<Bytes>>, envelopes: map<User, Bytes>)
    requires |nonces| == |members|
  {
    && (forall m :: m in envelopes <==> Listed(members, username, m))
    && (forall m :: m in envelopes ==>
          envelopes[m] == client.EncryptForPeer(box, body, m, nonces[LastIndex(members, m)]))
  }

  lemma OneMoreEnvelope(box: Envelopes.Box, client: Envelopes.Client, username: User, members: seq<User>,
                        body: Bytes, nonces: seq<Option<Bytes>>, i: nat,
                        before: map<User, Bytes>, after: map<User, Bytes>)
    requires |nonces| == |members| && i < |members|
    requires AreEnvelopes(box, client, username, members[..i], body, nonces[..i], before)
    requires after == if members[i] == "" || members[i] == username then before
                      else before[members[i] := client.EncryptForPeer(box, body, members[i], nonces[i])]
    ensures AreEnvelopes(box, client, username, members[..i + 1], body, nonces[..i + 1], after)
  {
    ListedStep(members, username, i);
    forall m | m in after
      ensures after[m] == client.EncryptForPeer(box, body, m, nonces[..i + 1][LastIndex(members[..i + 1], m)])
    {
      LastIndexStep(members, i, m);
      NonceStep(nonces, members, i, m);
    }
  }

  lemma ListedStep(members: seq<User>, username: User, i: nat)
    requires i < |members|
    ensures forall m :: Listed(members[..i + 1], username, m) <==>
              Listed(members[..i], username, m) || (m == members[i] && m != "" && m != username)
  {
    assert members[..i + 1] == members[..i] + [members[i]];
  }

  lemma NonceStep(nonces: seq<Option<Bytes>>, members: seq<User>, i: nat, m: User)
    requires |nonces| == |members| && i < |members| && m in members[..i + 1]
    ensures var k := LastIndex(members[..i + 1], m);
            nonces[..i + 1][k] == if m == members[i] then nonces[i] else nonces[..i][LastIndex(members[..i], m)]
  {
    LastIndexStep(members, i, m);
  }

  lemma LastIndexStep(members: seq<User>, i: nat, m: User)
    requires i < |members| && m in members[..i + 1]
    ensures m != members[i] ==> m in members[..i]
    ensures LastIndex(members[..i + 1], m) == if m == members[i] then i else LastIndex(members[..i], m)
  {
    assert members[..i + 1][..i] == members[..i];
  }

  // ---------- the server ----------

  /** What the server forwards to m: m's envelope, else the message's own body,
      which the Go client leaves empty. */
  function BodyFor(body: Bytes, envelopes: map<User, Bytes>, m: User): Bytes {
    if m in envelopes then envelopes[m] else body
  }

  /** The copies of the group message, in member order. */
  function Copies(c: Conn, serial: nat, username: User, members: seq<User>, body: Bytes,
                  envelopes: map<User, Bytes>): seq<Msg>
  {
    if members == [] then []
    else
      var m := members[|members| - 1];
      var rest := Copies(c, serial, username, members[..|members| - 1], body, envelopes);
      if m == username then rest
      else rest + [Relay.Msg(c, serial + |members| - 1, username, m, BodyFor(body, envelopes, m))]
  }

  /** The convo_msg handler: nothing happens before login or without a
      conversation id. */
  method OnConvoMsg(server: Relay.NexusServer, c: Conn, serial: nat, username: User, convoID: string,
                    members: seq<User>, body: Bytes, envelopes: map<User, Bytes>)
    returns (sends: seq<(Conn, Msg)>)
    modifies server`queue, server`nextRow
    ensures username == "" || convoID == "" ==> sends == [] && server.queue == old(server.queue)
    ensures username != "" && convoID != "" ==>
              var copies := Copies(c, serial, username, members, body, envelopes);
              && sends == Relay.OnlineCopies(server.clients, copies)
              && server.queue == Relay.AddRows(old(server.queue), old(server.nextRow),
                                               Relay.OfflineCopies(server.clients, copies))
  {
    if username == "" || convoID == "" {
      return [];
    }
    var copies := [];
    for i := 0 to |members|
      invariant copies == Copies(c, serial, username, members[..i], body, envelopes)
      invariant server.queue == old(server.queue) && server.nextRow == old(server.nextRow)
    {
      assert members[..i + 1][..i] == members[..i];
      var m := members[i];
      if m != username {
        var text := body;
        if m in envelopes {
          text := envelopes[m];
        }
        copies := copies + [Relay.Msg(c, serial + i, username, m, text)];
      }
    }
    assert members[..|members|] == members;
    sends := server.FanOut(copies);
  }

  function CountFor(ms: seq<Msg>, m: User): nat {
    if ms == [] then 0
    else CountFor(ms[..|ms| - 1], m) + if ms[|ms| - 1].recipient == m then 1 else 0
  }

  function CountSent(sends: seq<(Conn, Msg)>, m: User): nat {
    if sends == [] then 0
    else CountSent(sends[..|sends| - 1], m) + if sends[|sends| - 1].1.recipient == m then 1 else 0
  }

  /** Everybody on the server's list except the sender gets exactly one copy,
      and nobody else gets any. */
  lemma {:induction false} OneCopyEach(c: Conn, serial: nat, username: User, members: seq<User>, body: Bytes,
                                       envelopes: map<User, Bytes>, m: User)
    requires Distinct(members)
    ensures CountFor(Copies(c, serial, username, members, body, envelopes), m)
            == if m in members && m != username then 1 else 0
  {
    if members != [] {
      var front, last := members[..|members| - 1], members[|members| - 1];
      OneCopyEach(c, serial, username, front, body, envelopes, m);
      assert members == front + [last];
      var rest := Copies(c, serial, username, front, body, envelopes);
      if last != username {
        var copy := Relay.Msg(c, serial + |members| - 1, username, last, BodyFor(body, envelopes, last));
        assert (rest + [copy])[..|rest|] == rest;
      }
    }
  }

  /** What a copy says follows from whom it is for. */
  lemma {:induction false} CopyContents(c: Conn, serial: nat, username: User, members: seq<User>, body: Bytes,
                                        envelopes: map<User, Bytes>, i: nat)
    requires i < |Copies(c, serial, username, members, body, envelopes)|
    ensures var copy := Copies(c, serial, username, members, body, envelopes)[i];
            && copy.sender == username && copy.recipient in members && copy.recipient != username
            && copy.body == if copy.recipient in envelopes then envelopes[copy.recipient] else body
  {
    var front := members[..|members| - 1];
    if i < |Copies(c, serial, username, front, body, envelopes)| {
      CopyContents(c, serial, username, front, body, envelopes, i);
    }
  }

  /** Every copy is sent or queued, never both. */
  lemma {:induction false} SentOrQueued(clients: map<User, Conn>, copies: seq<Msg>, m: User)
    ensures CountSent(Relay.OnlineCopies(clients, copies), m) + CountFor(Relay.OfflineCopies(clients, copies), m)
            == CountFor(copies, m)
  {
    if copies != [] {
      var front, last := copies[..|copies| - 1], copies[|copies| - 1];
      SentOrQueued(clients, front, m);
      if last.recipient in clients {
        var sends := Relay.OnlineCopies(clients, front);
        var sent := (clients[last.recipient], last);
        assert (sends + [sent])[..|sends|] == sends;
        assert Relay.OfflineCopies(clients, front) + [] == Relay.OfflineCopies(clients, front);
      } else {
        var rows := Relay.OfflineCopies(clients, front);
        assert (rows + [last])[..|rows|] == rows;
        assert Relay.OnlineCopies(clients, front) + [] == Relay.OnlineCopies(clients, front);
      }
    }
  }

  /** Sent copies go to the connection registered for their recipient. */
  lemma {:induction false} SentToRecipient(clients: map<User, Conn>, copies: seq<Msg>, i: nat)
    requires i < |Relay.OnlineCopies(clients, copies)|
    ensures var (to, copy) := Relay.OnlineCopies(clients, copies)[i];
            copy in copies && copy.recipient in clients && clients[copy.recipient] == to
  {
    var front := copies[..|copies| - 1];
    if i < |Relay.OnlineCopies(clients, front)| {
      SentToRecipient(clients, front, i);
    }
  }

  /** Queued copies become rows of their own; older rows stay. */
  lemma {:induction false} RowsAppended(queue: map<nat, Msg>, next: nat, ms: seq<Msg>, id: nat)
    ensures var q := Relay.AddRows(queue, next, ms);
            && (id < next || id >= next + |ms| ==> (id in q <==> id in queue) && (id in q ==> q[id] == queue[id]))
            && (next <= id < next + |ms| ==> id in q && q[id] == ms[id - next])
  {
    if ms != [] {
      RowsAppended(queue, next, ms[..|ms| - 1], id);
    }
  }

  /** Exactly the copies for registered recipients are sent, to their
      connections, and exactly the others are queued. */
  lemma {:induction false} SplitByRegistry(clients: map<User, Conn>, copies: seq<Msg>, d: Conn, m: Msg)
    ensures (d, m) in Relay.OnlineCopies(clients, copies) <==>
            m in copies && m.recipient in clients && clients[m.recipient] == d
    ensures m in Relay.OfflineCopies(clients, copies) <==> m in copies && m.recipient !in clients
  {
    if copies != [] {
      SplitByRegistry(clients, copies[..|copies| - 1], d, m);
      assert copies == copies[..|copies| - 1] + [copies[|copies| - 1]];
    }
  }

  // ---------- the fan-out as a run of the relay ----------

  /** Copies of c's user with growing serial numbers from `first` up to `end`. */
  ghost predicate Numbered(copies: seq<Msg>, c: Conn, username: User, first: nat, end: nat) {
    && (forall i :: 0 <= i < |copies| ==>
          && copies[i].origin == c && copies[i].sender == username && copies[i].recipient != username
          && first <= copies[i].serial < end)
    && forall i, j :: 0 <= i < j < |copies| ==> copies[i].serial < copies[j].serial
  }

  lemma NumberedMore(copies: seq<Msg>, c: Conn, username: User, first: nat, end: nat, m: Msg)
    requires Numbered(copies, c, username, first, end) && first <= end
    requires m.origin == c && m.sender == username && m.recipient != username && m.serial == end
    ensures Numbered(copies + [m], c, username, first, end + 1)
  {}

  lemma {:induction false} CopiesNumbered(c: Conn, serial: nat, username: User, members: seq<User>, body: Bytes,
                                          envelopes: map<User, Bytes>)
    ensures Numbered(Copies(c, serial, username, members, body, envelopes), c, username, serial, serial + |members|)
  {
    if members != [] {
      var n := |members| - 1;
      CopiesNumbered(c, serial, username, members[..n], body, envelopes);
      if members[n] != username {
        NumberedMore(Copies(c, serial, username, members[..n], body, envelopes), c, username, serial, serial + n,
                     Relay.Msg(c, serial + n, username, members[n], BodyFor(body, envelopes, members[n])));
      }
    }
  }

  lemma NumberedAreNew(s: Relay.State, c: Conn, copies: seq<Msg>, first: nat, end: nat)
    requires s.At(c).Idle? && c !in s.exited && c in s.username
    requires Numbered(copies, c, s.username[c], first, end)
    requires forall m :: m in s.log.accepted && m.origin == c ==> m.serial < first
    ensures RelayRuns.CanFanOut(s, c, copies)
  {
    forall i, j | 0 <= i < j < |copies|
      ensures copies[i] != copies[j]
    {
      assert copies[i].serial < copies[j].serial;
    }
  }

  /** From every reachable state in which the sender is logged in on c, what
      OnConvoMsg does is a run of the relay machine: the same copies are sent and
      the same are queued, in the same order. */
  lemma GroupMessageIsRun(es: seq<Relay.Event>, c: Conn, serial: nat, members: seq<User>, body: Bytes,
                          envelopes: map<User, Bytes>)
    returns (more: seq<Relay.Event>)
    requires Relay.IsRun(es) && Relay.Exec(es).At(c).Idle? && c !in Relay.Exec(es).exited
    requires c in Relay.Exec(es).username
    requires forall m :: m in Relay.Exec(es).log.accepted && m.origin == c ==> m.serial < serial
    ensures es <= more && Relay.IsRun(more) && Relay.Exec(more).At(c).Idle?
    ensures var s, s' := Relay.Exec(es), Relay.Exec(more);
            var copies := Copies(c, serial, s.username[c], members, body, envelopes);
            && s'.clients == s.clients
            && s'.queue == Relay.AddRows(s.queue, s.nextRow, Relay.OfflineCopies(s.clients, copies))
            && s'.log.sends == s.log.sends + (set p | p in Relay.OnlineCopies(s.clients, copies))
  {
    var username := Relay.Exec(es).username[c];
    CopiesNumbered(c, serial, username, members, body, envelopes);
    NumberedAreNew(Relay.Exec(es), c, Copies(c, serial, username, members, body, envelopes), serial,
                   serial + |members|);
    more := RelayRuns.FanOutIsRun(es, c, Copies(c, serial, username, members, body, envelopes));
  }

  // ---------- the receiver ----------

  /** The decryption prologue of HandleIncomingMessage. */
  function Read(box: Envelopes.Box, client: Envelopes.Client, msg: Msg): Bytes {
    if msg.sender != "" && msg.body != [] then client.DecryptFromPeer(box, msg.body, msg.sender) else msg.body
  }

  /** The text was sealed for listed member m. */
  predicate Sealed(sender: Envelopes.Client, members: seq<User>, nonces: seq<Option<Bytes>>, m: User)
    requires |nonces| == |members| && m in members
  {
    sender.CanSeal(m) && nonces[LastIndex(members, m)].Some?
  }

  /** A copy of a non-empty group message reads as the original exactly when its
      recipient was on the sender's own list and the text was sealed for them or
      does not look like an envelope. */
  lemma CopyReadsBackIff(box: Envelopes.Box, sender: Envelopes.Client, sName: User, members: seq<User>, body: Bytes,
                         nonces: seq<Option<Bytes>>, envelopes: map<User, Bytes>, receiver: Envelopes.Client, copy: Msg)
    requires box.Correct() && box.NeverGrows() && body != [] && sName != ""
    requires |nonces| == |members| && forall i :: 0 <= i < |nonces| ==> Envelopes.IsNonce(nonces[i])
    requires AreEnvelopes(box, sender, sName, members, body, nonces, envelopes)
    requires copy.sender == sName && copy.recipient != sName
    requires copy.body == if copy.recipient in envelopes then envelopes[copy.recipient] else []
    requires sender.CanSeal(copy.recipient) ==> Envelopes.Paired(box, sender, sName, receiver, copy.recipient)
    ensures Read(box, receiver, copy) == body <==>
              && copy.recipient in members && copy.recipient != ""
              && (Sealed(sender, members, nonces, copy.recipient) || !(Envelopes.PREFIX <= body))
  {
    var m := copy.recipient;
    if m in envelopes {
      Envelopes.ReadsBackIff(box, body, nonces[LastIndex(members, m)], sender, sName, receiver, m);
    }
  }

  /** The lists agree, everybody holds current keys and the random source works:
      then each member except the sender gets exactly one copy, sent or queued,
      and reads the original bytes from it, also when they start with the
      envelope prefix. */
  lemma GroupMessageArrives(box: Envelopes.Box, sender: Envelopes.Client, sName: User, members: seq<User>,
                            body: Bytes, nonces: seq<Option<Bytes>>, envelopes: map<User, Bytes>,
                            c: Conn, serial: nat, clients: map<User, Conn>, stored: seq<User>,
                            receiver: Envelopes.Client, m: User)
    requires box.Correct() && box.NeverGrows() && body != [] && sName != ""
    requires |nonces| == |members|
    requires forall i :: 0 <= i < |nonces| ==> nonces[i].Some? && Envelopes.IsNonce(nonces[i])
    requires AreEnvelopes(box, sender, sName, members, body, nonces, envelopes)
    requires Distinct(stored) && (forall u :: u in stored <==> u in members) && m in members && m != sName
    requires Envelopes.Paired(box, sender, sName, receiver, m)
    ensures var copies := Copies(c, serial, sName, stored, [], envelopes);
            && CountSent(Relay.OnlineCopies(clients, copies), m)
               + CountFor(Relay.OfflineCopies(clients, copies), m) == 1
            && forall i :: 0 <= i < |copies| && copies[i].recipient == m ==> Read(box, receiver, copies[i]) == body
  {
    var copies := Copies(c, serial, sName, stored, [], envelopes);
    OneCopyEach(c, serial, sName, stored, [], envelopes, m);
    SentOrQueued(clients, copies, m);
    forall i | 0 <= i < |copies| && copies[i].recipient == m
      ensures Read(box, receiver, copies[i]) == body
    {
      CopyContents(c, serial, sName, stored, [], envelopes, i);
      CopyReadsBackIff(box, sender, sName, members, body, nonces, envelopes, receiver, copies[i]);
    }
  }
}
