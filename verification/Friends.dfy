/** The friend graph and group creation (nexus_server/main.go). Each database
    operation is one step, so a friend request is two, its check and its insert,
    and steps of different connections interleave. The friends table is a map
    because of its key UNIQUE(user_a, user_b). */
module Friends {

  import opened Prelude

  datatype Status = Pending | Accepted

  datatype Tables = Tables(
    friends: map<(User, User), Status>,
    convos: map<string, User>,       // conversation id -> created_by
    members: set<(string, User)>,
    checked: map<Conn, (User, User)>) // requests that passed the check, not yet inserted; not in the database

  datatype Event =
    | Check(c: Conn, sender: User, to: User)
    | Insert(c: Conn)
    | Accept(sender: User, to: User)
    | Reject(sender: User, to: User)
    | Remove(a: User, b: User)
    | DeleteAccount(user: User)
    | Create(id: string, creator: User, wanted: seq<User>)
    | Leave(id: string, user: User)

  /** A row in either direction. */
  predicate HasRow(t: Tables, a: User, b: User) {
    (a, b) in t.friends || (b, a) in t.friends
  }

  predicate IsAccepted(t: Tables, a: User, b: User) {
    (a, b) in t.friends && t.friends[(a, b)].Accepted?
  }

  predicate IsPending(t: Tables, a: User, b: User) {
    (a, b) in t.friends && t.friends[(a, b)].Pending?
  }

  predicate AreFriends(t: Tables, a: User, b: User) {
    IsAccepted(t, a, b) || IsAccepted(t, b, a)
  }

  function RowsOf(t: Tables, u: User): set<(User, User)> {
    set p | p in t.friends && (p.0 == u || p.1 == u)
  }

  /** Whom convo_create lets in: the creator and accepted friends. */
  function Eligible(t: Tables, creator: User, wanted: seq<User>): set<User> {
    set m | m in wanted && (m == creator || AreFriends(t, creator, m))
  }

  /** convo_create lets m into a group of the creator. */
  predicate MayBeIn(friends: map<(User, User), Status>, creator: User, m: User) {
    || m == creator
    || ((creator, m) in friends && friends[(creator, m)] == Accepted)
    || ((m, creator) in friends && friends[(m, creator)] == Accepted)
  }

  /** Group creation goes through: someone is eligible and the id is free. */
  predicate Creates(t: Tables, id: string, creator: User, wanted: seq<User>) {
    Eligible(t, creator, wanted) != {} && id !in t.convos
  }

  function MembersOf(t: Tables, id: string): set<User> {
    set r | r in t.members && r.0 == id :: r.1
  }

  /** The event inserts the row (a, b); a second insert of a row fails on the
      key. */
  predicate Inserts(t: Tables, e: Event, a: User, b: User) {
    e.Insert? && e.c in t.checked && t.checked[e.c] == (a, b) && (a, b) !in t.friends
  }

  function Empty(): Tables {
    Tables(map[], map[], {}, map[])
  }

  function Step(t: Tables, e: Event): Tables {
    match e
    case Check(c, a, b) => t.(checked := if HasRow(t, a, b) then t.checked - {c} else t.checked[c := (a, b)])
    case Insert(c) =>
      if c !in t.checked then t
      else t.(checked := t.checked - {c},
              friends := if t.checked[c] in t.friends then t.friends else t.friends[t.checked[c] := Pending])
    case Accept(a, b) => if IsPending(t, a, b) then t.(friends := t.friends[(a, b) := Accepted]) else t
    case Reject(a, b) => if IsPending(t, a, b) then t.(friends := t.friends - {(a, b)}) else t
    case Remove(a, b) => t.(friends := t.friends - {(a, b), (b, a)})
    case DeleteAccount(u) =>
      t.(friends := t.friends - RowsOf(t, u),
         convos := map id | id in t.convos && t.convos[id] != u :: t.convos[id],
         members := set r | r in t.members && r.1 != u)
    case Create(id, creator, wanted) =>
      if Creates(t, id, creator, wanted)
      then t.(convos := t.convos[id := creator],
              members := t.members + (set m | m in Eligible(t, creator, wanted) + {creator} :: (id, m)))
      else t
    case Leave(id, u) => t.(members := t.members - {(id, u)})
  }

  // ---------- the operations as code ----------

  class NexusServer {
    var friends: map<(User, User), Status>
    var convos: map<string, User>
    var members: set<(string, User)>

    function Abs(): Tables
      reads this
    {
      Tables(friends, convos, members, map[])
    }

    constructor ()
      ensures Abs() == Empty()
    {
      friends, convos, members := map[], map[], {};
    }

    /** sendFriendRequest, when nothing comes between its check and its insert. */
    method SendFriendRequest(c: Conn, sender: User, to: User)
      modifies this`friends
      ensures Abs() == Step(Step(old(Abs()), Check(c, sender, to)), Insert(c))
      ensures friends == if (sender, to) in old(friends) || (to, sender) in old(friends) then old(friends)
                         else old(friends)[(sender, to) := Pending]
    {
      var count := |set p | p in friends && (p == (sender, to) || p == (to, sender))|;
      CountIsZeroIff(Abs(), sender, to);
      if count > 0 {
        return;
      }
      friends := friends[(sender, to) := Pending];
    }

    method AcceptFriendRequest(sender: User, to: User)
      modifies this`friends
      ensures Abs() == Step(old(Abs()), Accept(sender, to))
      ensures friends == if (sender, to) in old(friends) && old(friends)[(sender, to)] == Pending
                         then old(friends)[(sender, to) := Accepted] else old(friends)
    {
      if (sender, to) in friends && friends[(sender, to)].Pending? {
        friends := friends[(sender, to) := Accepted];
      }
    }

    method RejectFriendRequest(sender: User, to: User)
      modifies this`friends
      ensures Abs() == Step(old(Abs()), Reject(sender, to))
      ensures friends == if (sender, to) in old(friends) && old(friends)[(sender, to)] == Pending
                         then old(friends) - {(sender, to)} else old(friends)
    {
      if (sender, to) in friends && friends[(sender, to)].Pending? {
        friends := friends - {(sender, to)};
      }
    }

    method RemoveFriend(a: User, b: User)
      modifies this`friends
      ensures Abs() == Step(old(Abs()), Remove(a, b))
      ensures friends == old(friends) - {(a, b), (b, a)}
    {
      friends := friends - {(a, b), (b, a)};
    }

    /** getFriends: exactly u's friends, in whatever order the rows come; one is
        listed twice exactly if the two have accepted rows in both directions. */
    method GetFriends(u: User) returns (fs: seq<User>)
      ensures forall v :: multiset(fs)[v] == FriendRows(Abs(), u, v)
      ensures forall v :: v in fs <==> AreFriends(Abs(), u, v)
      ensures !Distinct(fs) <==> exists v :: v != u && IsAccepted(Abs(), u, v) && IsAccepted(Abs(), v, u)
    {
      fs := [];
      var rows := set p | p in friends && (p.0 == u || p.1 == u) && friends[p].Accepted?;
      ghost var all := rows;
      while rows != {}
        invariant rows <= all
        invariant forall v :: multiset(fs)[v] == RowsBehind(all - rows, u, v)
        decreases rows
      {
        var p :| p in rows;
        ghost var done := all - rows;
        rows := rows - {p};
        assert all - rows == done + {p};
        fs := fs + [if p.0 == u then p.1 else p.0];
      }
      assert all - rows == all;
      forall v
        ensures RowsBehind(all, u, v) == FriendRows(Abs(), u, v)
      {}
      ListedTwiceIff(Abs(), u, fs);
    }

    /** convo_create: strangers to the creator are left out, and a creator
        without anyone eligible, or with a taken id, gets an error. */
    method ConvoCreate(id: string, creator: User, wanted: seq<User>) returns (ok: bool)
      modifies this`convos, this`members
      ensures ok <==> id !in old(convos) && exists m :: m in wanted && MayBeIn(old(friends), creator, m)
      ensures ok ==>
                && convos == old(convos)[id := creator]
                && forall i, m :: (i, m) in members <==>
                     (i, m) in old(members)
                     || (i == id && (m == creator || (m in wanted && MayBeIn(old(friends), creator, m))))
      ensures !ok ==> convos == old(convos) && members == old(members)
      ensures Abs() == Step(old(Abs()), Create(id, creator, wanted))
    {
      var fs := GetFriends(creator);
      var eligible: seq<User> := [];
      for i := 0 to |wanted|
        invariant forall m :: m in eligible <==> m in wanted[..i] && (m == creator || AreFriends(Abs(), creator, m))
        invariant Abs() == old(Abs())
      {
        if wanted[i] == creator || wanted[i] in fs {
          eligible := eligible + [wanted[i]];
        }
      }
      assert (set m | m in eligible) == Eligible(Abs(), creator, wanted);
      assert forall m :: m in wanted && MayBeIn(friends, creator, m) <==> m in eligible;
      if |eligible| == 0 {
        return false;
      }
      assert eligible[0] in Eligible(Abs(), creator, wanted);
      ok := CreateConversation(id, creator, eligible);
    }

    /** leaveConversation. */
    method LeaveConversation(id: string, user: User)
      modifies this`members
      ensures Abs() == Step(old(Abs()), Leave(id, user)) && members == old(members) - {(id, user)}
    {
      members := members - {(id, user)};
    }

    /** What deleteAccount removes from these tables. */
    method DeleteAccount(user: User)
      modifies this
      ensures Abs() == Step(old(Abs()), Event.DeleteAccount(user))
      ensures forall p :: p in friends <==> p in old(friends) && p.0 != user && p.1 != user
      ensures forall p :: p in friends ==> friends[p] == old(friends)[p]
      ensures forall r :: r in members <==> r in old(members) && r.1 != user
      ensures forall id :: id in convos <==> id in old(convos) && old(convos)[id] != user
      ensures forall id :: id in convos ==> convos[id] == old(convos)[id]
    {
      friends := friends - (set p | p in friends && (p.0 == user || p.1 == user));
      members := set r | r in members && r.1 != user;
      convos := map id | id in convos && convos[id] != user :: convos[id];
    }

    method CreateConversation(id: string, creator: User, wanted: seq<User>) returns (ok: bool)
      modifies this`convos, this`members
      ensures ok <==> id !in old(convos)
      ensures convos == if ok then old(convos)[id := creator] else old(convos)
      ensures members == if ok then old(members) + (set m | m in (set w | w in wanted) + {creator} :: (id, m))
                         else old(members)
    {
      if id in convos {
        return false;
      }
      convos := convos[id := creator];
      var seen: set<User> := {};
      var all := [creator] + wanted;
      for i := 0 to |all|
        invariant seen == set m | m in all[..i]
        invariant members == old(members) + (set m | m in seen :: (id, m))
        invariant convos == old(convos)[id := creator]
      {
        if all[i] !in seen {
          members := members + {(id, all[i])};
          seen := seen + {all[i]};
        }
      }
      assert all[..|all|] == all;
      assert seen == (set w | w in wanted) + {creator};
      ok := true;
    }
  }

  lemma CountIsZeroIff(t: Tables, a: User, b: User)
    ensures |set p | p in t.friends && (p == (a, b) || p == (b, a))| > 0 <==> HasRow(t, a, b)
  {
    var rows := set p | p in t.friends && (p == (a, b) || p == (b, a));
    if HasRow(t, a, b) {
      assert (a, b) in rows || (b, a) in rows;
    } else {
      assert rows == {};
    }
  }

  /** How often the rows name v as u's friend. */
  function RowsBehind(rows: set<(User, User)>, u: User, v: User): nat {
    (if (u, v) in rows then 1 else 0) + (if v != u && (v, u) in rows then 1 else 0)
  }

  /** How many accepted rows there are for u and v. */
  function FriendRows(t: Tables, u: User, v: User): nat {
    (if IsAccepted(t, u, v) then 1 else 0) + (if v != u && IsAccepted(t, v, u) then 1 else 0)
  }

  lemma ListedTwiceIff(t: Tables, u: User, fs: seq<User>)
    requires forall v :: multiset(fs)[v] == FriendRows(t, u, v)
    ensures forall v :: v in fs <==> AreFriends(t, u, v)
    ensures !Distinct(fs) <==> exists v :: v != u && IsAccepted(t, u, v) && IsAccepted(t, v, u)
  {
    forall v
      ensures v in fs <==> multiset(fs)[v] > 0
    {
      assert v in fs <==> v in multiset(fs);
    }
    if !Distinct(fs) {
      var i, j :| 0 <= i < j < |fs| && fs[i] == fs[j];
      CountTwo(fs, i, j);
    }
    if v :| v != u && IsAccepted(t, u, v) && IsAccepted(t, v, u) {
      TwoPlaces(fs, v);
    }
  }

  lemma CountTwo(fs: seq<User>, i: nat, j: nat)
    requires i < j < |fs| && fs[i] == fs[j]
    ensures multiset(fs)[fs[i]] >= 2
  {
    assert fs == fs[..j] + fs[j..];
    assert fs[..j][i] == fs[i] && fs[j..][0] == fs[j];
    assert fs[i] in multiset(fs[..j]) && fs[i] in multiset(fs[j..]);
  }

  lemma TwoPlaces(fs: seq<User>, v: User)
    requires multiset(fs)[v] >= 2
    ensures !Distinct(fs)
  {
    assert v in multiset(fs);
    var i :| 0 <= i < |fs| && fs[i] == v;
    assert fs == fs[..i] + [fs[i]] + fs[i + 1..];
    if v in multiset(fs[..i]) {
      var j :| 0 <= j < i && fs[..i][j] == v;
      assert fs[j] == fs[i];
    } else {
      assert v in multiset(fs[i + 1..]);
      var j :| 0 <= j < |fs| - i - 1 && fs[i + 1..][j] == v;
      assert fs[i] == fs[i + 1 + j];
    }
  }

  // ---------- what every run keeps ----------

  function After(es: seq<Event>): Tables {
    if es == [] then Empty() else Step(After(es[..|es| - 1]), es[|es| - 1])
  }

  /** At most one row for each unordered pair. */
  ghost predicate OneRowPerPair(t: Tables) {
    forall a, b :: (a, b) in t.friends && (b, a) in t.friends ==> a == b
  }

  /** An insert meets the opposite row, which came in after its own check. */
  predicate Crosses(t: Tables, e: Event) {
    && e.Insert? && e.c in t.checked
    && t.checked[e.c] !in t.friends && (t.checked[e.c].1, t.checked[e.c].0) in t.friends
  }

  lemma StepKeepsPairsIff(t: Tables, e: Event)
    requires OneRowPerPair(t)
    ensures OneRowPerPair(Step(t, e)) <==> !Crosses(t, e)
  {
    if Crosses(t, e) {
      var (a, b) := t.checked[e.c];
      assert (a, b) in Step(t, e).friends && (b, a) in Step(t, e).friends;
    }
  }

  /** Every state of the run has at most one row a pair. */
  ghost predicate PairsAlways(es: seq<Event>) {
    OneRowPerPair(After(es)) && (es != [] ==> PairsAlways(es[..|es| - 1]))
  }

  predicate NeverCrosses(es: seq<Event>) {
    es == [] || (NeverCrosses(es[..|es| - 1]) && !Crosses(After(es[..|es| - 1]), es[|es| - 1]))
  }

  /** Over all runs, whatever interleaves: no state of the run has two rows for
      one pair if and only if no insert crossed one in the other direction. */
  lemma {:induction false} PairsIff(es: seq<Event>)
    ensures PairsAlways(es) <==> NeverCrosses(es)
  {
    if es != [] {
      var before := es[..|es| - 1];
      PairsIff(before);
      if OneRowPerPair(After(before)) {
        StepKeepsPairsIff(After(before), es[|es| - 1]);
      }
    }
  }

  /** Every insert comes right after its own check. */
  ghost predicate RequestsAtomic(es: seq<Event>) {
    forall n :: 0 <= n < |es| && es[n].Insert? ==> n > 0 && es[n - 1].Check? && es[n - 1].c == es[n].c
  }

  lemma {:induction false} AtomicNeverCrosses(es: seq<Event>)
    requires RequestsAtomic(es)
    ensures NeverCrosses(es)
  {
    if es != [] {
      var n := |es| - 1;
      var before := es[..n];
      assert forall k :: 0 <= k < n ==> before[k] == es[k];
      AtomicNeverCrosses(before);
      if es[n].Insert? {
        JustChecked(After(before[..n - 1]), before[n - 1]);
      }
    }
  }

  lemma JustChecked(t: Tables, e: Event)
    requires e.Check?
    ensures var t' := Step(t, e); e.c in t'.checked ==> !HasRow(t', t'.checked[e.c].0, t'.checked[e.c].1)
  {}

  /** With check and insert as one step, there is at most one row a pair in every
      reachable state. */
  lemma AtomicRequestsKeepPairs(es: seq<Event>)
    requires RequestsAtomic(es)
    ensures OneRowPerPair(After(es)) && PairsAlways(es)
  {
    AtomicNeverCrosses(es);
    PairsIff(es);
  }

  /** Event k inserts the row (a, b). */
  predicate InsertsAt(es: seq<Event>, k: nat, a: User, b: User) {
    k < |es| && Inserts(After(es[..k]), es[k], a, b)
  }

  lemma {:induction false} CheckedHasCheck(es: seq<Event>, c: Conn) returns (i: nat)
    requires c in After(es).checked
    ensures i < |es| && es[i] == Check(c, After(es).checked[c].0, After(es).checked[c].1)
  {
    var n := |es| - 1;
    if es[n].Check? && es[n].c == c {
      i := n;
    } else {
      i := CheckedHasCheck(es[..n], c);
    }
  }

  /** A crossing insert was overtaken: between its check and it, the other user's
      request went in. */
  lemma {:induction false} CrossedSinceCheck(es: seq<Event>, c: Conn) returns (i: nat, k: nat)
    requires c in After(es).checked
    requires (After(es).checked[c].1, After(es).checked[c].0) in After(es).friends
    ensures var p := After(es).checked[c];
            i < k < |es| && es[i] == Check(c, p.0, p.1) && InsertsAt(es, k, p.1, p.0)
  {
    var n := |es| - 1;
    var before, p := es[..n], After(es).checked[c];
    CheckedStep(After(before), es[n], c);
    if (p.1, p.0) in After(before).friends {
      i, k := CrossedSinceCheck(before, c);
      assert before[..k] == es[..k];
    } else {
      i := CheckedHasCheck(before, c);
      k := n;
    }
  }

  lemma CheckedStep(t: Tables, e: Event, c: Conn)
    requires c in Step(t, e).checked
    ensures var p := Step(t, e).checked[c];
            (p.1, p.0) in Step(t, e).friends ==>
              && c in t.checked && t.checked[c] == p
              && ((p.1, p.0) in t.friends || Inserts(t, e, p.1, p.0))
  {}

  /** Crossing requests do make two rows: from every reachable state without a
      row of the two, when both check before either inserts; and once both are
      accepted, each is the other's friend twice. */
  lemma RequestsCross(es: seq<Event>, a: User, b: User, c: Conn, d: Conn) returns (more: seq<Event>)
    requires !HasRow(After(es), a, b) && a != b && c != d
    ensures es <= more && IsAccepted(After(more), a, b) && IsAccepted(After(more), b, a)
    ensures FriendRows(After(more), a, b) == 2 && FriendRows(After(more), b, a) == 2
    ensures !NeverCrosses(more)
  {
    var checked := TwoEvents(es, Check(c, a, b), Check(d, b, a));
    var inserted := TwoEvents(checked, Insert(c), Insert(d));
    more := TwoEvents(inserted, Accept(a, b), Accept(b, a));
    BothRows(After(es), a, b, c, d);
    BothAccepted(After(inserted), a, b);
    PairsIff(more);
    assert !OneRowPerPair(After(more)) by {
      assert (a, b) in After(more).friends && (b, a) in After(more).friends;
    }
  }

  lemma TwoEvents(es: seq<Event>, e: Event, f: Event) returns (more: seq<Event>)
    ensures es <= more && After(more) == Step(Step(After(es), e), f)
  {
    var one := es + [e];
    more := one + [f];
    assert one[..|es|] == es && more[..|one|] == one;
  }

  lemma BothRows(t: Tables, a: User, b: User, c: Conn, d: Conn)
    requires !HasRow(t, a, b) && a != b && c != d
    ensures var t' := Step(Step(Step(Step(t, Check(c, a, b)), Check(d, b, a)), Insert(c)), Insert(d));
            IsPending(t', a, b) && IsPending(t', b, a)
  {
    var u := Step(Step(t, Check(c, a, b)), Check(d, b, a));
    assert u.friends == t.friends && u.checked[c] == (a, b) && u.checked[d] == (b, a);
  }

  lemma BothAccepted(t: Tables, a: User, b: User)
    requires IsPending(t, a, b) && IsPending(t, b, a) && a != b
    ensures var t' := Step(Step(t, Accept(a, b)), Accept(b, a)); IsAccepted(t', a, b) && IsAccepted(t', b, a)
  {}

  // ---------- consent ----------

  /** Events after which a and b are no longer friends, whatever came before. */
  predicate Ends(e: Event, a: User, b: User) {
    e == Remove(a, b) || e == Remove(b, a) || e == DeleteAccount(a) || e == DeleteAccount(b)
  }

  /** Event i puts in a's request to b, which is still open. */
  predicate OpenRequest(es: seq<Event>, a: User, b: User, i: nat) {
    && InsertsAt(es, i, a, b)
    && forall k :: i < k < |es| ==> !Ends(es[k], a, b) && es[k] != Reject(a, b) && es[k] != Accept(a, b)
  }

  /** Event j is b's acceptance of a's request i, and nothing has ended the
      friendship since. */
  predicate Befriended(es: seq<Event>, a: User, b: User, i: nat, j: nat) {
    && i < j < |es| && OpenRequest(es[..j], a, b, i) && es[j] == Accept(a, b)
    && forall k :: j < k < |es| ==> !Ends(es[k], a, b)
  }

  lemma StepOfPair(t: Tables, e: Event, a: User, b: User)
    ensures IsPending(Step(t, e), a, b) <==>
              || Inserts(t, e, a, b)
              || (IsPending(t, a, b) && !Ends(e, a, b) && e != Reject(a, b) && e != Accept(a, b))
    ensures IsAccepted(Step(t, e), a, b) <==>
              (IsAccepted(t, a, b) && !Ends(e, a, b)) || (IsPending(t, a, b) && e == Accept(a, b))
  {}

  lemma OpenRequestStep(es: seq<Event>, a: User, b: User, i: nat)
    requires i < |es| - 1
    ensures var before, e := es[..|es| - 1], es[|es| - 1];
            OpenRequest(es, a, b, i) <==>
              OpenRequest(before, a, b, i) && !Ends(e, a, b) && e != Reject(a, b) && e != Accept(a, b)
  {
    assert es[..|es| - 1][..i] == es[..i];
  }

  lemma BefriendedStep(es: seq<Event>, a: User, b: User, i: nat, j: nat)
    requires j < |es| - 1
    ensures var before, e := es[..|es| - 1], es[|es| - 1];
            Befriended(es, a, b, i, j) <==> Befriended(before, a, b, i, j) && !Ends(e, a, b)
  {
    assert es[..|es| - 1][..j] == es[..j];
  }

  lemma {:induction false} PendingIff(es: seq<Event>, a: User, b: User)
    ensures IsPending(After(es), a, b) <==> exists i: nat :: OpenRequest(es, a, b, i)
  {
    if es != [] {
      var n := |es| - 1;
      PendingIff(es[..n], a, b);
      StepOfPair(After(es[..n]), es[n], a, b);
      forall i: nat | i < n
        ensures OpenRequest(es, a, b, i) <==> OpenRequest(es[..n], a, b, i) && !Ends(es[n], a, b)
                                              && es[n] != Reject(a, b) && es[n] != Accept(a, b)
      {
        OpenRequestStep(es, a, b, i);
      }
      if Inserts(After(es[..n]), es[n], a, b) {
        assert OpenRequest(es, a, b, n);
      } else if IsPending(After(es), a, b) {
        var i: nat :| OpenRequest(es[..n], a, b, i);
        assert OpenRequest(es, a, b, i);
      }
    }
  }

  /** The row (a, b) is accepted exactly when b accepted a request that a had
      made and nothing withdrew, and neither a removal nor the deletion of one of
      the accounts has come since. */
  lemma {:induction false} ConsentIff(es: seq<Event>, a: User, b: User)
    ensures IsAccepted(After(es), a, b) <==> exists i: nat, j: nat :: Befriended(es, a, b, i, j)
  {
    if es != [] {
      var n := |es| - 1;
      ConsentIff(es[..n], a, b);
      PendingIff(es[..n], a, b);
      StepOfPair(After(es[..n]), es[n], a, b);
      forall i: nat, j: nat | j < n
        ensures Befriended(es, a, b, i, j) <==> Befriended(es[..n], a, b, i, j) && !Ends(es[n], a, b)
      {
        BefriendedStep(es, a, b, i, j);
      }
      if IsPending(After(es[..n]), a, b) && es[n] == Accept(a, b) {
        var i: nat :| OpenRequest(es[..n], a, b, i);
        assert Befriended(es, a, b, i, n);
      } else if IsAccepted(After(es), a, b) {
        var i: nat, j: nat :| Befriended(es[..n], a, b, i, j);
        assert Befriended(es, a, b, i, j);
      }
    }
  }

  // ---------- crossing requests, by events ----------

  /** b's request to a is open, or has made the two friends. */
  ghost predicate OppositeStands(es: seq<Event>, a: User, b: User) {
    (exists i: nat :: OpenRequest(es, b, a, i)) || (exists i: nat, j: nat :: Befriended(es, b, a, i, j))
  }

  /** Event n puts in a request while the opposite one stands. */
  ghost predicate CrossesAt(es: seq<Event>, n: nat) {
    n < |es| && exists a, b :: InsertsAt(es, n, a, b) && OppositeStands(es[..n], a, b)
  }

  lemma OppositeStandsIff(es: seq<Event>, a: User, b: User)
    ensures OppositeStands(es, a, b) <==> (b, a) in After(es).friends
  {
    PendingIff(es, b, a);
    ConsentIff(es, b, a);
  }

  lemma CrossesAtIff(es: seq<Event>, n: nat)
    requires n < |es|
    ensures CrossesAt(es, n) <==> Crosses(After(es[..n]), es[n])
  {
    var t := After(es[..n]);
    if es[n].Insert? && es[n].c in t.checked {
      var (a, b) := t.checked[es[n].c];
      OppositeStandsIff(es[..n], a, b);
      if Crosses(t, es[n]) {
        assert InsertsAt(es, n, a, b) && OppositeStands(es[..n], a, b);
      }
    }
  }

  lemma CrossesAtPrefix(es: seq<Event>, n: nat, k: nat)
    requires k < n <= |es|
    ensures CrossesAt(es[..n], k) <==> CrossesAt(es, k)
  {
    assert es[..n][..k] == es[..k];
    CrossesAtIff(es, k);
    CrossesAtIff(es[..n], k);
  }

  lemma {:induction false} NeverCrossesIff(es: seq<Event>)
    ensures NeverCrosses(es) <==> forall n: nat :: !CrossesAt(es, n)
  {
    if es != [] {
      var n := |es| - 1;
      NeverCrossesIff(es[..n]);
      CrossesAtIff(es, n);
      forall k: nat | k < n
        ensures CrossesAt(es[..n], k) <==> CrossesAt(es, k)
      {
        CrossesAtPrefix(es, n, k);
      }
      assert forall k: nat :: CrossesAt(es[..n], k) ==> k < n;
      assert forall k: nat :: CrossesAt(es, k) ==> k <= n;
    }
  }

  /** Over all runs, in events alone: no state has two rows for one pair if and
      only if no request ever goes in while the opposite one stands, open or
      accepted. */
  lemma PairsEventsIff(es: seq<Event>)
    ensures PairsAlways(es) <==> forall n: nat :: !CrossesAt(es, n)
  {
    PairsIff(es);
    NeverCrossesIff(es);
  }

  /** Requests, answers and removals between a and b. */
  predicate IsDealing(t: Tables, e: Event, a: User, b: User) {
    match e
    case Check(_, x, y) => (x == a && y == b) || (x == b && y == a)
    case Insert(c) => c in t.checked ==> t.checked[c] == (a, b) || t.checked[c] == (b, a)
    case Accept(x, y) => (x == a && y == b) || (x == b && y == a)
    case Reject(x, y) => (x == a && y == b) || (x == b && y == a)
    case Remove(x, y) => (x == a && y == b) || (x == b && y == a)
    case _ => false
  }

  predicate AreDealings(es: seq<Event>, dealings: seq<Event>, a: User, b: User) {
    dealings == []
    || (AreDealings(es, dealings[..|dealings| - 1], a, b)
        && IsDealing(After(es + dealings[..|dealings| - 1]), dealings[|dealings| - 1], a, b))
  }

  /** The tables agree but for the rows of the pair. */
  predicate AgreeWithoutPair(t: Tables, t': Tables, a: User, b: User) {
    && t.friends - {(a, b), (b, a)} == t'.friends - {(a, b), (b, a)}
    && t.convos == t'.convos && t.members == t'.members
  }

  lemma DealingStep(t: Tables, e: Event, a: User, b: User)
    requires IsDealing(t, e, a, b)
    ensures AgreeWithoutPair(Step(t, e), t, a, b)
  {}

  lemma AgreeTransitive(t: Tables, u: Tables, v: Tables, a: User, b: User)
    requires AgreeWithoutPair(t, u, a, b) && AgreeWithoutPair(u, v, a, b)
    ensures AgreeWithoutPair(t, v, a, b)
  {}

  lemma {:induction false} DealingsStayInPair(es: seq<Event>, dealings: seq<Event>, a: User, b: User)
    requires AreDealings(es, dealings, a, b)
    ensures AgreeWithoutPair(After(es + dealings), After(es), a, b)
  {
    if dealings == [] {
      assert es + dealings == es;
    } else {
      var n := |dealings| - 1;
      var before := After(es + dealings[..n]);
      assert (es + dealings)[..|es + dealings| - 1] == es + dealings[..n];
      DealingsStayInPair(es, dealings[..n], a, b);
      DealingStep(before, dealings[n], a, b);
      AgreeTransitive(Step(before, dealings[n]), before, After(es), a, b);
    }
  }

  /** Whatever two users without a row do with each other, a removal at the end
      restores the tables to what they were before. */
  lemma RemoveUndoes(es: seq<Event>, dealings: seq<Event>, a: User, b: User)
    requires !HasRow(After(es), a, b) && AreDealings(es, dealings, a, b)
    ensures var t, t' := After(es), After(es + dealings + [Remove(a, b)]);
            t'.friends == t.friends && t'.convos == t.convos && t'.members == t.members
  {
    var all := es + dealings + [Remove(a, b)];
    assert all[..|all| - 1] == es + dealings;
    DealingsStayInPair(es, dealings, a, b);
    assert After(es).friends - {(a, b), (b, a)} == After(es).friends;
  }

  // ---------- groups ----------

  /** Event i put u into group id: its creator, or a friend of the creator. */
  predicate PutInto(es: seq<Event>, id: string, u: User, i: nat) {
    && i < |es| && es[i].Create? && es[i].id == id
    && Creates(After(es[..i]), id, es[i].creator, es[i].wanted)
    && (u == es[i].creator || (u in es[i].wanted && AreFriends(After(es[..i]), es[i].creator, u)))
  }

  /** And nothing has taken u out since. */
  predicate StillIn(es: seq<Event>, id: string, u: User, i: nat) {
    && PutInto(es, id, u, i)
    && forall k :: i < k < |es| ==> es[k] != Leave(id, u) && es[k] != DeleteAccount(u)
  }

  lemma StillInStep(es: seq<Event>, id: string, u: User, i: nat)
    requires i < |es| - 1
    ensures var n := |es| - 1;
            StillIn(es, id, u, i) <==>
              StillIn(es[..n], id, u, i) && es[n] != Leave(id, u) && es[n] != DeleteAccount(u)
  {
    assert es[..|es| - 1][..i] == es[..i];
  }

  lemma MembersStep(t: Tables, e: Event, id: string, u: User)
    ensures (id, u) in Step(t, e).members <==>
              || (e.Create? && e.id == id && Creates(t, id, e.creator, e.wanted)
                  && (u == e.creator || (u in e.wanted && AreFriends(t, e.creator, u))))
              || ((id, u) in t.members && e != Leave(id, u) && e != DeleteAccount(u))
  {}

  /** In every reachable state u is in group id if and only if u was put into it,
      as its creator or the creator's accepted friend at that moment, and has
      neither left nor been deleted since. */
  lemma {:induction false} MemberIff(es: seq<Event>, id: string, u: User)
    ensures u in MembersOf(After(es), id) <==> exists i: nat :: StillIn(es, id, u, i)
  {
    assert u in MembersOf(After(es), id) <==> (id, u) in After(es).members;
    if es != [] {
      var n := |es| - 1;
      MemberIff(es[..n], id, u);
      assert u in MembersOf(After(es[..n]), id) <==> (id, u) in After(es[..n]).members;
      MembersStep(After(es[..n]), es[n], id, u);
      forall i: nat | i < n
        ensures StillIn(es, id, u, i) <==>
                  StillIn(es[..n], id, u, i) && es[n] != Leave(id, u) && es[n] != DeleteAccount(u)
      {
        StillInStep(es, id, u, i);
      }
      if PutInto(es, id, u, n) {
        assert StillIn(es, id, u, n);
      } else if (id, u) in After(es).members {
        var i: nat :| StillIn(es[..n], id, u, i);
        assert StillIn(es, id, u, i);
      }
    }
  }

  /** Nobody is in a group without having created it or being the creator's
      accepted friend at that moment. */
  lemma NoStrangersAdded(es: seq<Event>, id: string, u: User)
    requires u in MembersOf(After(es), id)
    ensures exists i: nat :: PutInto(es, id, u, i)
  {
    MemberIff(es, id, u);
    var i: nat :| StillIn(es, id, u, i);
  }

  /** At the end of a run that creates a group, it has exactly the creator and the
      eligible as members if and only if nobody else was put into a group of that
      id before and has neither left nor been deleted. */
  lemma NewGroupExactIff(es: seq<Event>)
    requires es != [] && es[|es| - 1].Create?
    requires Creates(After(es[..|es| - 1]), es[|es| - 1].id, es[|es| - 1].creator, es[|es| - 1].wanted)
    ensures var before, e := es[..|es| - 1], es[|es| - 1];
            var invited := Eligible(After(before), e.creator, e.wanted) + {e.creator};
            MembersOf(After(es), e.id) == invited <==>
            forall u, i: nat :: StillIn(before, e.id, u, i) ==> u in invited
  {
    var before, e := es[..|es| - 1], es[|es| - 1];
    NewGroupMembers(After(before), e.id, e.creator, e.wanted);
    forall u
      ensures u in MembersOf(After(before), e.id) <==> exists i: nat :: StillIn(before, e.id, u, i)
    {
      MemberIff(before, e.id, u);
    }
    var left := MembersOf(After(before), e.id);
    var invited := Eligible(After(before), e.creator, e.wanted) + {e.creator};
    assert left + Eligible(After(before), e.creator, e.wanted) + {e.creator} == left + invited;
    assert left + invited == invited <==> forall u :: u in left ==> u in invited;
  }

  lemma ConvoStep(t: Tables, e: Event, id: string)
    requires id in t.convos && e != DeleteAccount(t.convos[id])
    ensures id in Step(t, e).convos && Step(t, e).convos[id] == t.convos[id]
  {}

  lemma {:induction false} ConvoStays(es: seq<Event>, id: string, u: User, i: nat)
    requires PutInto(es, id, u, i) && forall k :: i < k < |es| ==> es[k] != DeleteAccount(es[i].creator)
    ensures id in After(es).convos && After(es).convos[id] == es[i].creator
  {
    var n := |es| - 1;
    if i < n {
      assert es[..n][..i] == es[..i];
      ConvoStays(es[..n], id, u, i);
      ConvoStep(After(es[..n]), es[n], id);
    }
  }

  /** Whoever is left under a free id was put into a group whose creator's account
      has been deleted since. */
  lemma LeftOverByDeletion(es: seq<Event>, id: string, u: User, i: nat) returns (k: nat)
    requires StillIn(es, id, u, i) && id !in After(es).convos
    ensures i < k < |es| && es[k] == DeleteAccount(es[i].creator) && u != es[i].creator
  {
    if forall k :: i < k < |es| ==> es[k] != DeleteAccount(es[i].creator) {
      ConvoStays(es, id, u, i);
    }
    k :| i < k < |es| && es[k] == DeleteAccount(es[i].creator);
  }

  lemma NewGroupMembers(t: Tables, id: string, creator: User, wanted: seq<User>)
    requires Creates(t, id, creator, wanted)
    ensures MembersOf(Step(t, Create(id, creator, wanted)), id)
            == MembersOf(t, id) + Eligible(t, creator, wanted) + {creator}
  {
    var t' := Step(t, Create(id, creator, wanted));
    forall u
      ensures u in MembersOf(t', id) <==> u in MembersOf(t, id) + Eligible(t, creator, wanted) + {creator}
    {
      assert u in MembersOf(t', id) <==> (id, u) in t'.members;
      assert u in MembersOf(t, id) <==> (id, u) in t.members;
    }
  }

  /** Such rows do get left: deleting the creator's account removes the group but
      keeps the other members' rows, so that whoever takes the id next finds them
      in the new group. */
  lemma DeletedCreatorLeavesMembers(es: seq<Event>, id: string, creator: User, friend: User, next: User)
    requires Creates(After(es), id, creator, [friend]) && friend != creator && next != friend
    requires !HasRow(After(es), next, friend)
    ensures var later := es + [Create(id, creator, [friend]), DeleteAccount(creator), Create(id, next, [next])];
            friend in MembersOf(After(later), id) && !AreFriends(After(later), next, friend)
  {
    var first := es + [Create(id, creator, [friend])];
    var second := first + [DeleteAccount(creator)];
    var third := second + [Create(id, next, [next])];
    assert first[..|es|] == es && second[..|first|] == first && third[..|second|] == second;
    assert third == es + [Create(id, creator, [friend]), DeleteAccount(creator), Create(id, next, [next])];
    assert friend in Eligible(After(es), creator, [friend]);
    assert (id, friend) in After(first).members;
    assert (id, friend) in After(second).members && id !in After(second).convos;
    assert next in Eligible(After(second), next, [next]);
    assert (id, friend) in After(third).members;
  }
}
