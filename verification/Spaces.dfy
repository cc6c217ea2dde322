/** Spaces: servers, their members and their channels (nexus_server/main.go).
    Each handler is one step, except that creating a channel first reads the
    largest position and then inserts; steps of different connections interleave
    there. Tables are maps by primary key. */
module Spaces {

  import opened Prelude

  type Id = string

  datatype Role = Owner | Admin | Member

  datatype Server = Server(owner: User, invite: string)

  datatype Channel = Channel(server: Id, name: string, position: nat)

  /** A channel_create handler between its read, at step `readAt`, and its insert. */
  datatype Pending = Pending(server: Id, maxPos: nat, readAt: nat)

  /** `created` lists each server's channels in the order they were made, and
      `steps` counts the events so far; they are not in the database. */
  datatype State = State(
    servers: map<Id, Server>,
    roles: map<(Id, User), Role>,
    channels: map<Id, Channel>,
    pending: map<Conn, Pending>,
    created: map<Id, seq<Id>>,
    steps: nat)

  function Init(): State {
    State(map[], map[], map[], map[], map[], 0)
  }

  datatype Event =
    | Create(user: User, id: Id, invite: string, general: Id, random: Id)
    | Join(user: User, server: Id)
    | Leave(user: User, server: Id)
    | ReadMax(c: Conn, user: User, server: Id, maxPos: nat)
    | InsertChannel(c: Conn, channel: Id, name: string)

  predicate InviteTaken(s: State, invite: string) {
    exists id :: id in s.servers && s.servers[id].invite == invite
  }

  /** No insert of the creating transaction meets an existing key. */
  predicate NoConflict(s: State, e: Event)
    requires e.Create?
  {
    && e.id !in s.servers && !InviteTaken(s, e.invite) && (e.id, e.user) !in s.roles
    && e.general !in s.channels && e.random !in s.channels && e.general != e.random
  }

  function ChannelsOf(channels: map<Id, Channel>, server: Id): set<Id> {
    set c | c in channels && channels[c].server == server
  }

  /** SELECT COALESCE(MAX(position), 0). */
  ghost predicate IsMaxPosition(channels: map<Id, Channel>, server: Id, m: nat) {
    && (forall c :: c in ChannelsOf(channels, server) ==> channels[c].position <= m)
    && (if ChannelsOf(channels, server) == {} then m == 0
        else exists c :: c in ChannelsOf(channels, server) && channels[c].position == m)
  }

  function RoleOf(s: State, server: Id, user: User): Option<Role> {
    if (server, user) in s.roles then Some(s.roles[(server, user)]) else None
  }

  predicate MayCreateChannel(s: State, server: Id, user: User) {
    RoleOf(s, server, user) == Some(Owner) || RoleOf(s, server, user) == Some(Admin)
  }

  ghost predicate Enabled(s: State, e: Event) {
    match e
    case Create(_, _, _, _, _) => true
    case Join(_, server) => server in s.servers          // its invite code was given
    case Leave(_, _) => true
    case ReadMax(c, user, server, maxPos) =>
      c !in s.pending && MayCreateChannel(s, server, user) && IsMaxPosition(s.channels, server, maxPos)
    case InsertChannel(c, _, _) => c in s.pending
  }

  function Step(s: State, e: Event): State {
    Act(s, e).(steps := s.steps + 1)
  }

  function Act(s: State, e: Event): State {
    match e
    case Create(user, id, invite, general, random) =>
      if NoConflict(s, e) then Found(s, user, id, invite, general, random) else s
    case Join(user, server) =>
      if (server, user) in s.roles then s else s.(roles := s.roles[(server, user) := Member])
    case Leave(user, server) =>
      if RoleOf(s, server, user) == Some(Owner) then s else s.(roles := s.roles - {(server, user)})
    case ReadMax(c, user, server, maxPos) =>
      s.(pending := s.pending[c := Pending(server, maxPos, s.steps)])
    case InsertChannel(c, channel, name) =>
      var s' := s.(pending := s.pending - {c});
      if Inserts(s, e) then Append(s', s.pending[c].server, channel, name, s.pending[c].maxPos + 1) else s'
  }

  /** The handler's insert goes through: the channel id is new. */
  predicate Inserts(s: State, e: Event) {
    e.InsertChannel? && e.c in s.pending && e.channel !in s.channels
  }

  /** A new server with its owner and its first two channels. */
  function Found(s: State, user: User, id: Id, invite: string, general: Id, random: Id): State {
    s.(servers := s.servers[id := Server(user, invite)],
       roles := s.roles[(id, user) := Owner],
       channels := s.channels[general := Channel(id, "general", 0)][random := Channel(id, "random", 1)],
       created := s.created[id := [general, random]])
  }

  function Append(s: State, server: Id, channel: Id, name: string, position: nat): State {
    s.(channels := s.channels[channel := Channel(server, name, position)],
       created := s.created[server := (if server in s.created then s.created[server] else []) + [channel]])
  }

  function After(es: seq<Event>): State {
    if es == [] then Init() else Step(After(es[..|es| - 1]), es[|es| - 1])
  }

  ghost predicate IsRun(es: seq<Event>) {
    es == [] || (IsRun(es[..|es| - 1]) && Enabled(After(es[..|es| - 1]), es[|es| - 1]))
  }

  // ---------- the handlers as code ----------

  class NexusServer {
    var servers: map<Id, Server>
    var roles: map<(Id, User), Role>
    var channels: map<Id, Channel>

    ghost predicate Matches(s: State)
      reads this
    {
      servers == s.servers && roles == s.roles && channels == s.channels
    }

    constructor ()
      ensures Matches(Init())
    {
      servers, roles, channels := map[], map[], map[];
    }

    /** server_create: a transaction of four inserts; the first that fails rolls
        everything back. */
    method ServerCreate(user: User, id: Id, invite: string, ids: seq<Id>, ghost s: State) returns (ok: bool)
      requires Matches(s) && |ids| == 2
      modifies this
      ensures Matches(Step(s, Create(user, id, invite, ids[0], ids[1])))
      ensures ok <==>
                && id !in old(servers) && (forall x :: x in old(servers) ==> old(servers)[x].invite != invite)
                && (id, user) !in old(roles)
                && ids[0] !in old(channels) && ids[1] !in old(channels) && ids[0] != ids[1]
      ensures ok ==>
                && servers == old(servers)[id := Server(user, invite)] && roles == old(roles)[(id, user) := Owner]
                && channels == old(channels)[ids[0] := Channel(id, "general", 0)][ids[1] := Channel(id, "random", 1)]
      ensures !ok ==> servers == old(servers) && roles == old(roles) && channels == old(channels)
    {
      if id in servers || exists other :: other in servers && servers[other].invite == invite {
        return false;
      }
      var txServers := servers[id := Server(user, invite)];
      if (id, user) in roles {
        return false;
      }
      var txRoles := roles[(id, user) := Owner];
      var txChannels := channels;
      var names := ["general", "random"];
      for i := 0 to 2
        invariant i > 0 ==> ids[0] !in channels
        invariant i > 1 ==> ids[1] !in channels && ids[0] != ids[1]
        invariant txChannels == if i == 0 then channels
                                else if i == 1 then channels[ids[0] := Channel(id, "general", 0)]
                                else channels[ids[0] := Channel(id, "general", 0)][ids[1] := Channel(id, "random", 1)]
      {
        if ids[i] in txChannels {
          return false;
        }
        txChannels := txChannels[ids[i] := Channel(id, names[i], i)];
      }
      servers, roles, channels := txServers, txRoles, txChannels;
      ok := true;
    }

    /** server_join by invite code: INSERT OR IGNORE. */
    method ServerJoin(user: User, code: string, ghost s: State) returns (joined: Option<Id>)
      requires Matches(s)
      modifies this`roles
      ensures joined.None? <==> code == "" || forall id :: id in servers ==> servers[id].invite != code
      ensures joined.None? ==> Matches(s)
      ensures joined.Some? ==>
                && (joined.value, user) in roles
                && roles == if (joined.value, user) in old(roles) then old(roles)
                            else old(roles)[(joined.value, user) := Member]
      ensures joined.Some? ==>
                && joined.value in s.servers && s.servers[joined.value].invite == code
                && Enabled(s, Join(user, joined.value)) && Matches(Step(s, Join(user, joined.value)))
    {
      if code == "" || !exists id :: id in servers && servers[id].invite == code {
        return None;
      }
      var id :| id in servers && servers[id].invite == code;
      if (id, user) !in roles {
        roles := roles[(id, user) := Member];
      }
      joined := Some(id);
      assert servers[id].invite == code;
    }

    method ServerLeave(user: User, server: Id, ghost s: State) returns (ok: bool)
      requires Matches(s)
      modifies this`roles
      ensures Matches(Step(s, Leave(user, server)))
      ensures ok <==> !((server, user) in old(roles) && old(roles)[(server, user)] == Owner)
      ensures roles == if ok then old(roles) - {(server, user)} else old(roles)
    {
      if (server, user) in roles && roles[(server, user)].Owner? {
        return false;
      }
      roles := roles - {(server, user)};
      ok := true;
    }

    method MaxPosition(server: Id) returns (m: nat)
      ensures IsMaxPosition(channels, server, m)
    {
      m := 0;
      var todo := ChannelsOf(channels, server);
      ghost var all := todo;
      while todo != {}
        invariant todo <= all
        invariant forall c :: c in all && c !in todo ==> channels[c].position <= m
        invariant todo == all ==> m == 0
        invariant todo != all ==> exists c :: c in all && channels[c].position == m
        decreases todo
      {
        var c :| c in todo;
        todo := todo - {c};
        if m < channels[c].position {
          m := channels[c].position;
        }
      }
    }

    /** channel_create, for owners and admins, when nothing interleaves: its read
        and its insert. */
    method ChannelCreate(c: Conn, user: User, server: Id, channel: Id, name: string, ghost s: State)
      returns (ok: bool, ghost maxPos: nat)
      requires Matches(s) && c !in s.pending
      modifies this`channels
      ensures ok <==> && (server, user) in roles && roles[(server, user)] in {Owner, Admin}
                      && channel !in old(channels)
      ensures if ok then IsMaxPosition(old(channels), server, maxPos)
                         && channels == old(channels)[channel := Channel(server, name, maxPos + 1)]
              else channels == old(channels)
      ensures !MayCreateChannel(s, server, user) ==> Matches(s)
      ensures MayCreateChannel(s, server, user) ==>
                var read := Step(s, ReadMax(c, user, server, maxPos));
                && Enabled(s, ReadMax(c, user, server, maxPos)) && Enabled(read, InsertChannel(c, channel, name))
                && Matches(Step(read, InsertChannel(c, channel, name)))
    {
      maxPos := 0;
      if (server, user) !in roles || !(roles[(server, user)].Owner? || roles[(server, user)].Admin?) {
        return false, maxPos;
      }
      var m := MaxPosition(server);
      maxPos := m;
      if channel in channels {
        return false, maxPos;
      }
      channels := channels[channel := Channel(server, name, m + 1)];
      ok := true;
    }
  }

  // ---------- what every run keeps ----------

  /** A server's owner holds the only owner row, and rows belong to servers. */
  ghost predicate OwnersInv(s: State) {
    && (forall id :: id in s.servers ==> RoleOf(s, id, s.servers[id].owner) == Some(Owner))
    && (forall p :: p in s.roles ==>
          p.0 in s.servers && (s.roles[p].Owner? ==> p.1 == s.servers[p.0].owner) && !s.roles[p].Admin?)
  }

  /** Invite codes are unique, as the column demands. */
  ghost predicate InvitesInv(s: State) {
    forall a, b :: a in s.servers && b in s.servers && s.servers[a].invite == s.servers[b].invite ==> a == b
  }

  /** `list` lists the channels of server id, each once. */
  ghost predicate ListsChannels(channels: map<Id, Channel>, id: Id, list: seq<Id>) {
    && (forall i :: 0 <= i < |list| ==> list[i] in channels && channels[list[i]].server == id)
    && (forall i, j :: 0 <= i < j < |list| ==> list[i] != list[j])
    && (forall c :: c in channels && channels[c].server == id ==> c in list)
  }

  /** Each server has channels, and `created` lists them. */
  ghost predicate ChannelsInv(s: State) {
    && s.created.Keys == s.servers.Keys
    && (forall c :: c in s.channels ==> s.channels[c].server in s.created)
    && (forall id :: id in s.created ==> s.created[id] != [] && ListsChannels(s.channels, id, s.created[id]))
  }

  ghost predicate PendingInv(s: State) {
    forall c :: c in s.pending ==> s.pending[c].server in s.servers && s.pending[c].readAt < s.steps
  }

  ghost predicate Inv(s: State) {
    OwnersInv(s) && InvitesInv(s) && ChannelsInv(s) && PendingInv(s)
  }

  lemma OwnersOnlyDependOn(s: State, s': State)
    requires OwnersInv(s) && s'.servers == s.servers && s'.roles == s.roles
    ensures OwnersInv(s')
  {}

  lemma FoundKeepsOwners(s: State, user: User, id: Id, invite: string, general: Id, random: Id)
    requires OwnersInv(s) && id !in s.servers
    ensures OwnersInv(Found(s, user, id, invite, general, random))
  {}

  lemma CreateKeepsOwners(s: State, e: Event)
    requires OwnersInv(s) && e.Create?
    ensures OwnersInv(Step(s, e))
  {
    if NoConflict(s, e) {
      FoundKeepsOwners(s, e.user, e.id, e.invite, e.general, e.random);
      OwnersOnlyDependOn(Found(s, e.user, e.id, e.invite, e.general, e.random), Step(s, e));
    }
  }

  lemma MemberRowKeepsOwners(s: State, s': State, user: User, server: Id)
    requires OwnersInv(s) && server in s.servers && RoleOf(s, server, user) != Some(Owner)
    requires s'.servers == s.servers
    requires s'.roles == s.roles[(server, user) := Member] || s'.roles == s.roles - {(server, user)}
    ensures OwnersInv(s')
  {}

  lemma StepKeepsOwners(s: State, e: Event)
    requires OwnersInv(s) && Enabled(s, e)
    ensures OwnersInv(Step(s, e))
  {
    match e
    case Create(_, _, _, _, _) => CreateKeepsOwners(s, e);
    case Join(user, server) =>
      if (server, user) !in s.roles { MemberRowKeepsOwners(s, Step(s, e), user, server); }
    case Leave(user, server) =>
      if (server, user) in s.roles && !s.roles[(server, user)].Owner? {
        MemberRowKeepsOwners(s, Step(s, e), user, server);
      }
    case ReadMax(_, _, _, _) => OwnersOnlyDependOn(s, Step(s, e));
    case InsertChannel(_, _, _) => OwnersOnlyDependOn(s, Step(s, e));
  }

  lemma StepKeepsInvites(s: State, e: Event)
    requires InvitesInv(s) && Enabled(s, e)
    ensures InvitesInv(Step(s, e))
  {}

  lemma StepKeepsPending(s: State, e: Event)
    requires PendingInv(s) && OwnersInv(s) && Enabled(s, e)
    ensures PendingInv(Step(s, e))
  {
    if e.ReadMax? {
      assert (e.server, e.user) in s.roles;
    }
  }

  /** Whether a step makes new channels. */
  predicate Adds(s: State, e: Event) {
    (e.Create? && NoConflict(s, e)) || Inserts(s, e)
  }

  lemma OthersAddNothing(s: State, e: Event)
    requires !Adds(s, e)
    ensures var s' := Step(s, e); s'.servers == s.servers && s'.channels == s.channels && s'.created == s.created
  {}

  lemma ListGrows(channels: map<Id, Channel>, id: Id, list: seq<Id>, list': seq<Id>, c: Id, ch: Channel)
    requires ListsChannels(channels, id, list) && c !in channels && ch.server == id && list' == list + [c]
    ensures ListsChannels(channels[c := ch], id, list')
  {
    forall x | x in channels[c := ch] && channels[c := ch][x].server == id
      ensures x in list'
    {
      assert x != c ==> x in channels && x in list;
    }
  }

  lemma ListStays(channels: map<Id, Channel>, id: Id, list: seq<Id>, c: Id, ch: Channel)
    requires ListsChannels(channels, id, list) && c !in channels && ch.server != id
    ensures ListsChannels(channels[c := ch], id, list)
  {}

  lemma AppendKeepsChannels(s: State, s': State, server: Id, c: Id, ch: Channel)
    requires ChannelsInv(s) && server in s.created && c !in s.channels && ch.server == server
    requires s'.servers == s.servers && s'.channels == s.channels[c := ch]
    requires s'.created == s.created[server := s.created[server] + [c]]
    ensures ChannelsInv(s')
  {
    assert s'.created.Keys == s.created.Keys;
    forall id | id in s'.created
      ensures s'.created[id] != [] && ListsChannels(s'.channels, id, s'.created[id])
    {
      if id == server {
        ListGrows(s.channels, id, s.created[id], s'.created[id], c, ch);
      } else {
        ListStays(s.channels, id, s.created[id], c, ch);
      }
    }
  }

  lemma NewServerList(channels: map<Id, Channel>, id: Id, general: Id, random: Id)
    requires forall c :: c in channels ==> channels[c].server != id
    requires general !in channels && random !in channels && general != random
    ensures ListsChannels(channels[general := Channel(id, "general", 0)][random := Channel(id, "random", 1)],
                          id, [general, random])
  {
    var one := Channel(id, "general", 0);
    ListGrows(channels, id, [], [general], general, one);
    ListGrows(channels[general := one], id, [general], [general, random], random, Channel(id, "random", 1));
  }

  lemma FoundLists(s: State, s': State, id: Id, general: Id, random: Id)
    requires ChannelsInv(s) && id !in s.created
    requires general !in s.channels && random !in s.channels && general != random
    requires s'.created == s.created[id := [general, random]]
    requires s'.channels == s.channels[general := Channel(id, "general", 0)][random := Channel(id, "random", 1)]
    ensures forall x :: x in s'.created ==> s'.created[x] != [] && ListsChannels(s'.channels, x, s'.created[x])
  {
    NewServerList(s.channels, id, general, random);
    forall x | x in s.created
      ensures ListsChannels(s'.channels, x, s.created[x])
    {
      OtherListsStay(s.channels, x, s.created[x], id, general, random);
    }
  }

  lemma FoundServers(s: State, s': State, id: Id, general: Id, random: Id)
    requires forall c :: c in s.channels ==> s.channels[c].server in s.created
    requires s'.created == s.created[id := [general, random]]
    requires s'.channels == s.channels[general := Channel(id, "general", 0)][random := Channel(id, "random", 1)]
    ensures s'.created.Keys == s.created.Keys + {id}
    ensures forall c :: c in s'.channels ==> s'.channels[c].server in s'.created
  {}

  lemma FoundKeepsChannels(s: State, user: User, id: Id, invite: string, general: Id, random: Id)
    requires ChannelsInv(s) && id !in s.servers
    requires general !in s.channels && random !in s.channels && general != random
    ensures ChannelsInv(Found(s, user, id, invite, general, random))
  {
    FoundLists(s, Found(s, user, id, invite, general, random), id, general, random);
    FoundServers(s, Found(s, user, id, invite, general, random), id, general, random);
  }

  lemma OtherListsStay(channels: map<Id, Channel>, x: Id, list: seq<Id>, id: Id, general: Id, random: Id)
    requires ListsChannels(channels, x, list) && x != id
    requires general !in channels && random !in channels && general != random
    ensures var after := channels[general := Channel(id, "general", 0)][random := Channel(id, "random", 1)];
            ListsChannels(after, x, list) && (PlacedList(after, list) <==> PlacedList(channels, list))
  {
    var one, two := Channel(id, "general", 0), Channel(id, "random", 1);
    ListStays(channels, x, list, general, one);
    ListStaysPlaced(channels, x, list, general, one);
    ListStays(channels[general := one], x, list, random, two);
    ListStaysPlaced(channels[general := one], x, list, random, two);
  }

  lemma ChannelsOnlyDependOn(s: State, s': State)
    requires ChannelsInv(s) && s'.servers == s.servers && s'.channels == s.channels && s'.created == s.created
    ensures ChannelsInv(s')
  {}

  lemma CreateKeepsChannels(s: State, e: Event)
    requires ChannelsInv(s) && e.Create? && NoConflict(s, e)
    ensures ChannelsInv(Step(s, e))
  {
    FoundKeepsChannels(s, e.user, e.id, e.invite, e.general, e.random);
    ChannelsOnlyDependOn(Found(s, e.user, e.id, e.invite, e.general, e.random), Step(s, e));
  }

  /** What an insert does to the tables. */
  lemma InsertTables(s: State, e: Event)
    requires Inserts(s, e) && s.pending[e.c].server in s.created
    ensures var s', p := Step(s, e), s.pending[e.c];
            && s'.servers == s.servers
            && s'.channels == s.channels[e.channel := Channel(p.server, e.name, p.maxPos + 1)]
            && s'.created == s.created[p.server := s.created[p.server] + [e.channel]]
  {}

  lemma InsertKeepsChannels(s: State, e: Event)
    requires ChannelsInv(s) && Inserts(s, e) && s.pending[e.c].server in s.created
    ensures ChannelsInv(Step(s, e))
  {
    var p := s.pending[e.c];
    InsertTables(s, e);
    AppendKeepsChannels(s, Step(s, e), p.server, e.channel, Channel(p.server, e.name, p.maxPos + 1));
  }

  lemma StepKeepsChannels(s: State, e: Event)
    requires ChannelsInv(s) && PendingInv(s)
    ensures ChannelsInv(Step(s, e))
  {
    if !Adds(s, e) {
      OthersAddNothing(s, e);
      ChannelsOnlyDependOn(s, Step(s, e));
    } else if e.Create? {
      CreateKeepsChannels(s, e);
    } else {
      InsertKeepsChannels(s, e);
    }
  }

  lemma StepKeepsInv(s: State, e: Event)
    requires Inv(s) && Enabled(s, e)
    ensures Inv(Step(s, e))
  {
    StepKeepsOwners(s, e);
    StepKeepsInvites(s, e);
    StepKeepsChannels(s, e);
    StepKeepsPending(s, e);
  }

  lemma {:induction false} EveryRunKeepsInv(es: seq<Event>)
    requires IsRun(es)
    ensures Inv(After(es))
  {
    if es != [] {
      EveryRunKeepsInv(es[..|es| - 1]);
      StepKeepsInv(After(es[..|es| - 1]), es[|es| - 1]);
    }
  }

  /** In every reachable state a server has exactly one owner row, that of its
      owner. */
  lemma OneOwnerEach(es: seq<Event>, id: Id, user: User)
    requires IsRun(es) && id in After(es).servers
    ensures RoleOf(After(es), id, user) == Some(Owner) <==> user == After(es).servers[id].owner
  {
    EveryRunKeepsInv(es);
  }

  lemma ServerStays(s: State, e: Event, id: Id)
    requires id in s.servers
    ensures id in Step(s, e).servers && Step(s, e).servers[id] == s.servers[id]
  {}

  /** And that owner never changes: leaving, rejoining and creating servers, by
      anyone, keep it. */
  lemma {:induction false} OwnerForGood(es: seq<Event>, n: nat, id: Id)
    requires n <= |es| && id in After(es[..n]).servers
    ensures id in After(es).servers && After(es).servers[id] == After(es[..n]).servers[id]
  {
    if n == |es| {
      assert es[..n] == es;
    } else {
      assert es[..|es| - 1][..n] == es[..n];
      OwnerForGood(es[..|es| - 1], n, id);
      ServerStays(After(es[..|es| - 1]), es[|es| - 1], id);
    }
  }

  // ---------- members ----------

  /** The event founds server id for u: its id, invite code and first two
      channels are new. */
  predicate Founds(s: State, e: Event, id: Id, u: User) {
    && e.Create? && e.id == id && e.user == u
    && id !in s.servers && (forall x :: x in s.servers ==> s.servers[x].invite != e.invite)
    && e.general !in s.channels && e.random !in s.channels && e.general != e.random
  }

  predicate FoundsAt(es: seq<Event>, i: nat, id: Id, u: User) {
    i < |es| && Founds(After(es[..i]), es[i], id, u)
  }

  lemma FoundsIffNoConflict(s: State, e: Event)
    requires OwnersInv(s) && e.Create?
    ensures NoConflict(s, e) <==> Founds(s, e, e.id, e.user)
  {}

  lemma OwnerAfter(s: State, e: Event, id: Id, u: User)
    requires OwnersInv(s)
    ensures (id in Step(s, e).servers && Step(s, e).servers[id].owner == u) <==>
              Founds(s, e, id, u) || (id in s.servers && s.servers[id].owner == u)
  {
    if e.Create? {
      FoundsIffNoConflict(s, e);
    }
  }

  lemma FoundsLast(es: seq<Event>, id: Id, u: User)
    requires IsRun(es) && es != []
    ensures var n := |es| - 1;
            (id in After(es).servers && After(es).servers[id].owner == u) <==>
              FoundsAt(es, n, id, u) || (id in After(es[..n]).servers && After(es[..n]).servers[id].owner == u)
  {
    var n := |es| - 1;
    EveryRunKeepsInv(es[..n]);
    OwnerAfter(After(es[..n]), es[n], id, u);
  }

  /** A server belongs to u if and only if some event founded it for u. */
  lemma {:induction false} FounderIff(es: seq<Event>, id: Id, u: User)
    requires IsRun(es)
    ensures (id in After(es).servers && After(es).servers[id].owner == u) <==> exists i: nat :: FoundsAt(es, i, id, u)
  {
    if es != [] {
      var n := |es| - 1;
      FounderIff(es[..n], id, u);
      FoundsLast(es, id, u);
      FoundsSome(es, id, u);
    }
  }

  lemma FoundsSome(es: seq<Event>, id: Id, u: User)
    requires es != []
    ensures var n := |es| - 1;
            (exists i: nat :: FoundsAt(es, i, id, u)) <==>
              FoundsAt(es, n, id, u) || exists i: nat :: FoundsAt(es[..n], i, id, u)
  {
    var n := |es| - 1;
    if i: nat :| FoundsAt(es[..n], i, id, u) {
      FoundsPrefix(es, n, i, id, u);
    }
    if i: nat :| FoundsAt(es, i, id, u) && i < n {
      FoundsPrefix(es, n, i, id, u);
    }
  }

  lemma FoundsPrefix(es: seq<Event>, n: nat, i: nat, id: Id, u: User)
    requires i < n <= |es|
    ensures FoundsAt(es[..n], i, id, u) <==> FoundsAt(es, i, id, u)
  {
    assert es[..n][..i] == es[..i];
  }

  /** Event i is u's join, and u has not left since. */
  predicate StillJoined(es: seq<Event>, i: nat, id: Id, u: User) {
    i < |es| && es[i] == Join(u, id) && forall k :: i < k < |es| ==> es[k] != Leave(u, id)
  }

  lemma RowAfter(s: State, e: Event, id: Id, u: User)
    requires OwnersInv(s)
    ensures (id, u) in Step(s, e).roles <==>
              || Founds(s, e, id, u) || e == Join(u, id)
              || ((id, u) in s.roles && !(e == Leave(u, id) && s.roles[(id, u)] != Owner))
  {
    if e.Create? {
      FoundsIffNoConflict(s, e);
    }
  }

  lemma MemberStep(s: State, e: Event, id: Id, u: User)
    requires OwnersInv(s) && !Founds(s, e, id, u) && !(id in s.servers && s.servers[id].owner == u)
    ensures (id, u) in Step(s, e).roles <==> e == Join(u, id) || ((id, u) in s.roles && e != Leave(u, id))
  {
    RowAfter(s, e, id, u);
  }

  lemma StillJoinedLast(es: seq<Event>, id: Id, u: User)
    requires es != []
    ensures var n := |es| - 1;
            (exists i: nat :: StillJoined(es, i, id, u)) <==>
              es[n] == Join(u, id) || ((exists i: nat :: StillJoined(es[..n], i, id, u)) && es[n] != Leave(u, id))
  {
    var n := |es| - 1;
    if es[n] == Join(u, id) {
      assert StillJoined(es, n, id, u);
    } else if es[n] != Leave(u, id) {
      if i: nat :| StillJoined(es[..n], i, id, u) {
        assert StillJoined(es, i, id, u);
      }
    }
    if i: nat :| StillJoined(es, i, id, u) {
      assert i == n || StillJoined(es[..n], i, id, u);
    }
  }

  /** In every reachable state u has a row in a server if and only if u founded
      it, or joined it and has not left since; and the founder's row alone is an
      owner's. */
  lemma {:induction false} MemberIff(es: seq<Event>, id: Id, u: User)
    requires IsRun(es)
    ensures (id, u) in After(es).roles <==>
            (exists i: nat :: FoundsAt(es, i, id, u)) || (exists i: nat :: StillJoined(es, i, id, u))
    ensures (id, u) in After(es).roles ==>
              After(es).roles[(id, u)] == if exists i: nat :: FoundsAt(es, i, id, u) then Owner else Member
  {
    FounderIff(es, id, u);
    if exists i: nat :: FoundsAt(es, i, id, u) {
      OneOwnerEach(es, id, u);
    } else {
      JoinedIff(es, id, u);
    }
  }

  lemma {:induction false} JoinedIff(es: seq<Event>, id: Id, u: User)
    requires IsRun(es) && !(id in After(es).servers && After(es).servers[id].owner == u)
    ensures (id, u) in After(es).roles <==> exists i: nat :: StillJoined(es, i, id, u)
    ensures (id, u) in After(es).roles ==> After(es).roles[(id, u)] == Member
  {
    if es != [] {
      var n := |es| - 1;
      FoundsLast(es, id, u);
      JoinedIff(es[..n], id, u);
      EveryRunKeepsInv(es[..n]);
      MemberStep(After(es[..n]), es[n], id, u);
      StillJoinedLast(es, id, u);
      EveryRunKeepsInv(es);
      NotFounder(After(es), id, u);
    }
  }

  lemma NotFounder(s: State, id: Id, u: User)
    requires OwnersInv(s) && !(id in s.servers && s.servers[id].owner == u)
    ensures (id, u) in s.roles ==> s.roles[(id, u)] == Member
  {}

  // ---------- positions ----------

  function PositionOf(channels: map<Id, Channel>, c: Id): nat {
    if c in channels then channels[c].position else 0
  }

  ghost predicate PlacedList(channels: map<Id, Channel>, list: seq<Id>) {
    forall i :: 0 <= i < |list| ==> PositionOf(channels, list[i]) == i
  }

  /** Every server's channels are at positions 0..n-1, in the order they were
      made. */
  ghost predicate Placed(s: State) {
    forall id :: id in s.created ==> PlacedList(s.channels, s.created[id])
  }

  lemma MaxIsLast(s: State, server: Id, m: nat)
    requires ChannelsInv(s) && Placed(s) && server in s.created
    ensures IsMaxPosition(s.channels, server, m) <==> m + 1 == |s.created[server]|
  {
    var list := s.created[server];
    var last := list[|list| - 1];
    assert ListsChannels(s.channels, server, list) && PlacedList(s.channels, list);
    assert last in ChannelsOf(s.channels, server) && PositionOf(s.channels, last) == |list| - 1;
    forall c | c in ChannelsOf(s.channels, server)
      ensures s.channels[c].position < |list|
    {
      var i :| 0 <= i < |list| && list[i] == c;
    }
  }

  lemma ListStaysPlaced(channels: map<Id, Channel>, id: Id, list: seq<Id>, c: Id, ch: Channel)
    requires ListsChannels(channels, id, list) && c !in channels
    ensures PlacedList(channels[c := ch], list) <==> PlacedList(channels, list)
    ensures PlacedList(channels[c := ch], list + [c]) <==> PlacedList(channels, list) && ch.position == |list|
  {
    var list' := list + [c];
    forall i | 0 <= i < |list|
      ensures PositionOf(channels[c := ch], list[i]) == PositionOf(channels, list[i]) && list'[i] == list[i]
    {}
    assert list'[|list|] == c;
    if PlacedList(channels[c := ch], list') {
      forall i | 0 <= i < |list|
        ensures PositionOf(channels, list[i]) == i
      {
        assert PositionOf(channels[c := ch], list'[i]) == i;
      }
    }
  }

  lemma AppendPlacedIff(s: State, s': State, server: Id, c: Id, ch: Channel)
    requires ChannelsInv(s) && server in s.created && c !in s.channels
    requires s'.channels == s.channels[c := ch] && s'.created == s.created[server := s.created[server] + [c]]
    ensures Placed(s') <==> Placed(s) && ch.position == |s.created[server]|
  {
    forall id | id in s.created
      ensures PlacedList(s'.channels, s'.created[id]) <==>
                PlacedList(s.channels, s.created[id]) && (id == server ==> ch.position == |s.created[id]|)
    {
      ListStaysPlaced(s.channels, id, s.created[id], c, ch);
    }
    assert server in s'.created;
  }

  /** An insert one past m keeps the positions exactly if m is the maximum then. */
  lemma InsertKeepsPositionsIff(s: State, server: Id, c: Id, name: string, m: nat)
    requires ChannelsInv(s) && Placed(s) && server in s.created && c !in s.channels
    ensures Placed(Append(s, server, c, name, m + 1)) <==> IsMaxPosition(s.channels, server, m)
  {
    AppendPlacedIff(s, Append(s, server, c, name, m + 1), server, c, Channel(server, name, m + 1));
    MaxIsLast(s, server, m);
  }

  lemma FoundPlacedIff(s: State, user: User, id: Id, invite: string, general: Id, random: Id)
    requires ChannelsInv(s) && id !in s.servers
    requires general !in s.channels && random !in s.channels && general != random
    ensures Placed(Found(s, user, id, invite, general, random)) <==> Placed(s)
  {
    var s' := Found(s, user, id, invite, general, random);
    forall x | x in s.created
      ensures s'.created[x] == s.created[x]
      ensures PlacedList(s'.channels, s.created[x]) <==> PlacedList(s.channels, s.created[x])
    {
      OtherListsStay(s.channels, x, s.created[x], id, general, random);
    }
    assert PlacedList(s'.channels, [general, random]);
    if Placed(s') {
      forall x | x in s.created
        ensures PlacedList(s.channels, s.created[x])
      {
        assert x in s'.created;
      }
    }
  }

  lemma PlacedOnlyDependsOn(s: State, s': State)
    requires s'.channels == s.channels && s'.created == s.created
    ensures Placed(s') == Placed(s)
  {}

  lemma CreatePlacedIff(s: State, e: Event)
    requires ChannelsInv(s) && e.Create? && NoConflict(s, e)
    ensures Placed(Step(s, e)) <==> Placed(s)
  {
    FoundPlacedIff(s, e.user, e.id, e.invite, e.general, e.random);
    PlacedOnlyDependsOn(Found(s, e.user, e.id, e.invite, e.general, e.random), Step(s, e));
  }

  /** Whether an insert goes to the next position. */
  predicate AtNext(s: State, e: Event)
    requires Inserts(s, e)
  {
    var p := s.pending[e.c];
    p.server in s.created && p.maxPos + 1 == |s.created[p.server]|
  }

  lemma InsertPlacedIff(s: State, e: Event)
    requires ChannelsInv(s) && Inserts(s, e) && s.pending[e.c].server in s.created
    ensures Placed(Step(s, e)) <==> Placed(s) && AtNext(s, e)
  {
    var p := s.pending[e.c];
    InsertTables(s, e);
    AppendPlacedIff(s, Step(s, e), p.server, e.channel, Channel(p.server, e.name, p.maxPos + 1));
  }

  /** A step keeps the positions unless it inserts at another one than the next. */
  lemma StepPlacedIff(s: State, e: Event)
    requires ChannelsInv(s) && PendingInv(s)
    ensures Placed(Step(s, e)) <==> Placed(s) && (Inserts(s, e) ==> AtNext(s, e))
  {
    if !Adds(s, e) {
      OthersAddNothing(s, e);
      PlacedOnlyDependsOn(s, Step(s, e));
    } else if e.Create? {
      CreatePlacedIff(s, e);
    } else {
      InsertPlacedIff(s, e);
    }
  }

  // ---------- which inserts keep them ----------

  /** Event k inserts a channel into the server. */
  predicate InsertsAt(es: seq<Event>, k: nat, server: Id) {
    && k < |es| && Inserts(After(es[..k]), es[k])
    && After(es[..k]).pending[es[k].c].server == server
  }

  /** Insert j goes by a maximum read before another channel of the server was
      inserted. */
  predicate Overtaken(es: seq<Event>, j: nat, k: nat, server: Id) {
    InsertsAt(es, j, server) && InsertsAt(es, k, server) && After(es[..j]).pending[es[j].c].readAt < k < j
  }

  ghost predicate NoneOvertaken(es: seq<Event>) {
    forall j, k, server :: !Overtaken(es, j, k, server)
  }

  lemma InsertsAtPrefix(es: seq<Event>, n: nat, k: nat, server: Id)
    requires k < n <= |es|
    ensures InsertsAt(es[..n], k, server) == InsertsAt(es, k, server)
  {
    assert es[..n][..k] == es[..k];
  }

  lemma OvertakenPrefix(es: seq<Event>, n: nat, j: nat, k: nat, server: Id)
    requires j < n <= |es|
    ensures Overtaken(es[..n], j, k, server) == Overtaken(es, j, k, server)
  {
    assert es[..n][..j] == es[..j];
    InsertsAtPrefix(es, n, j, server);
    if k < j {
      InsertsAtPrefix(es, n, k, server);
    }
  }

  lemma NoneOvertakenPrefix(es: seq<Event>, n: nat)
    requires NoneOvertaken(es) && n <= |es|
    ensures NoneOvertaken(es[..n])
  {
    forall j: nat, k: nat, server
      ensures !Overtaken(es[..n], j, k, server)
    {
      if j < n {
        OvertakenPrefix(es, n, j, k, server);
      }
    }
  }

  lemma {:induction false} RunPrefix(es: seq<Event>, n: nat)
    requires IsRun(es) && n <= |es|
    ensures IsRun(es[..n])
  {
    if n == |es| {
      assert es[..n] == es;
    } else {
      RunPrefix(es[..|es| - 1], n);
      assert es[..|es| - 1][..n] == es[..n];
    }
  }

  lemma {:induction false} StepsIsLength(es: seq<Event>)
    ensures After(es).steps == |es|
  {
    if es != [] {
      StepsIsLength(es[..|es| - 1]);
    }
  }

  /** A pending handler has read the maximum that held at step readAt. */
  lemma {:induction false} PendingHasRead(es: seq<Event>, c: Conn)
    requires IsRun(es) && c in After(es).pending
    ensures var p := After(es).pending[c];
            && p.readAt < |es| && es[p.readAt].ReadMax? && es[p.readAt].c == c && es[p.readAt].server == p.server
            && IsMaxPosition(After(es[..p.readAt]).channels, p.server, p.maxPos)
            && MayCreateChannel(After(es[..p.readAt]), p.server, es[p.readAt].user)
  {
    var n := |es| - 1;
    var before, e := es[..n], es[n];
    StepsIsLength(before);
    if !(e.ReadMax? && e.c == c) {
      PendingStep(After(before), e, c);
      PendingHasRead(before, c);
      var r := After(es).pending[c].readAt;
      assert before[..r] == es[..r];
    }
  }

  lemma PendingStep(s: State, e: Event, c: Conn)
    requires c in Step(s, e).pending && !(e.ReadMax? && e.c == c)
    ensures c in s.pending && Step(s, e).pending[c] == s.pending[c]
  {}

  lemma CreatedStep(s: State, e: Event, server: Id)
    requires ChannelsInv(s) && server in s.created
    ensures server in Step(s, e).created
    ensures |Step(s, e).created[server]| == |s.created[server]| +
              if Inserts(s, e) && s.pending[e.c].server == server then 1 else 0
  {}

  /** How many of the events from i on insert a channel into the server. */
  function InsertCount(es: seq<Event>, i: nat, server: Id): nat {
    if |es| <= i then 0
    else InsertCount(es[..|es| - 1], i, server) + if InsertsAt(es, |es| - 1, server) then 1 else 0
  }

  /** No event after r inserts a channel into the server. */
  ghost predicate NoneSince(es: seq<Event>, r: nat, server: Id) {
    forall k: nat :: r < k < |es| ==> !InsertsAt(es, k, server)
  }

  lemma {:induction false} NoneIfZero(es: seq<Event>, i: nat, server: Id, k: nat)
    requires InsertCount(es, i, server) == 0 && i <= k < |es|
    ensures !InsertsAt(es, k, server)
  {
    var n := |es| - 1;
    if k < n {
      NoneIfZero(es[..n], i, server, k);
      InsertsAtPrefix(es, n, k, server);
    }
  }

  lemma {:induction false} ZeroIfNone(es: seq<Event>, i: nat, server: Id)
    requires forall k: nat :: i <= k < |es| ==> !InsertsAt(es, k, server)
    ensures InsertCount(es, i, server) == 0
  {
    if i < |es| {
      var n := |es| - 1;
      forall k: nat | i <= k < n
        ensures !InsertsAt(es[..n], k, server)
      {
        InsertsAtPrefix(es, n, k, server);
      }
      ZeroIfNone(es[..n], i, server);
    }
  }

  lemma InsertsLast(es: seq<Event>, server: Id)
    requires es != []
    ensures var n := |es| - 1;
            InsertsAt(es, n, server) <==>
              Inserts(After(es[..n]), es[n]) && After(es[..n]).pending[es[n].c].server == server
  {}

  /** A server's list grows by its inserts. */
  lemma {:induction false} CreatedCounts(es: seq<Event>, i: nat, server: Id)
    requires IsRun(es) && i <= |es| && server in After(es[..i]).created
    ensures server in After(es).created
    ensures |After(es).created[server]| == |After(es[..i]).created[server]| + InsertCount(es, i, server)
  {
    if i == |es| {
      assert es[..i] == es;
    } else {
      var n := |es| - 1;
      assert es[..n][..i] == es[..i];
      CreatedCounts(es[..n], i, server);
      EveryRunKeepsInv(es[..n]);
      CreatedStep(After(es[..n]), es[n], server);
      InsertsLast(es, server);
    }
  }

  /** A handler's maximum is one less than the length of the list it read. */
  lemma ReadLength(es: seq<Event>, c: Conn)
    requires IsRun(es) && c in After(es).pending && Placed(After(es[..PendingReadAt(es, c)]))
    ensures var p, r := After(es).pending[c], PendingReadAt(es, c);
            && r == p.readAt < |es| && es[r].ReadMax?
            && p.server in After(es[..r]).created && p.maxPos + 1 == |After(es[..r]).created[p.server]|
  {
    PendingHasRead(es, c);
    var p := After(es).pending[c];
    var there := es[..p.readAt];
    RunPrefix(es, p.readAt);
    EveryRunKeepsInv(there);
    RoleNeedsServer(After(there), p.server, es[p.readAt].user);
    MaxIsLast(After(there), p.server, p.maxPos);
  }

  lemma RoleNeedsServer(s: State, server: Id, user: User)
    requires Inv(s) && MayCreateChannel(s, server, user)
    ensures server in s.servers && server in s.created
  {
    assert (server, user) in s.roles;
  }

  /** With the positions right at its read, a handler's insert is behind the next
      position by the number of inserts that came between. */
  lemma BehindByInserts(es: seq<Event>, c: Conn)
    requires IsRun(es) && c in After(es).pending
    requires Placed(After(es[..PendingReadAt(es, c)]))
    ensures var p := After(es).pending[c];
            && p.server in After(es).created
            && p.maxPos + 1 + InsertCount(es, p.readAt, p.server) == |After(es).created[p.server]|
  {
    ReadLength(es, c);
    CreatedCounts(es, PendingReadAt(es, c), After(es).pending[c].server);
  }

  lemma NoInsertsSinceRead(es: seq<Event>, r: nat, server: Id)
    requires r < |es| && es[r].ReadMax?
    ensures InsertCount(es, r, server) == 0 <==> NoneSince(es, r, server)
  {
    if InsertCount(es, r, server) == 0 {
      forall k: nat | r < k < |es|
        ensures !InsertsAt(es, k, server)
      {
        NoneIfZero(es, r, server, k);
      }
    }
    if NoneSince(es, r, server) {
      ReadsDontInsert(es, r, server);
      ZeroIfNone(es, r, server);
    }
  }

  /** So it is at the next position exactly if none came between, and else at an
      earlier one. */
  lemma NextUnlessOvertaken(es: seq<Event>, c: Conn)
    requires IsRun(es) && c in After(es).pending
    requires Placed(After(es[..PendingReadAt(es, c)]))
    ensures var p := After(es).pending[c];
            && p.server in After(es).created && p.maxPos + 1 <= |After(es).created[p.server]|
            && (p.maxPos + 1 == |After(es).created[p.server]| <==> NoneSince(es, p.readAt, p.server))
  {
    ReadLength(es, c);
    BehindByInserts(es, c);
    NoInsertsSinceRead(es, After(es).pending[c].readAt, After(es).pending[c].server);
  }

  lemma ReadsDontInsert(es: seq<Event>, r: nat, server: Id)
    requires r < |es| && es[r].ReadMax?
    ensures !InsertsAt(es, r, server)
  {}

  function PendingReadAt(es: seq<Event>, c: Conn): (i: nat)
    ensures i <= |es|
  {
    if c in After(es).pending && After(es).pending[c].readAt <= |es| then After(es).pending[c].readAt else |es|
  }

  /** NoneOvertaken, one event later. */
  lemma NoneOvertakenStep(es: seq<Event>)
    requires es != []
    ensures var n := |es| - 1;
            NoneOvertaken(es) <==>
              && NoneOvertaken(es[..n])
              && (Inserts(After(es[..n]), es[n]) ==>
                    var p := After(es[..n]).pending[es[n].c]; NoneSince(es[..n], p.readAt, p.server))
  {
    var n := |es| - 1;
    var before, e := es[..n], es[n];
    forall j: nat, k: nat, server | j < n
      ensures Overtaken(before, j, k, server) == Overtaken(es, j, k, server)
    {
      OvertakenPrefix(es, n, j, k, server);
    }
    forall k: nat, server | k < n
      ensures Overtaken(es, n, k, server) <==>
                && Inserts(After(before), e) && After(before).pending[e.c].server == server
                && InsertsAt(before, k, server) && After(before).pending[e.c].readAt < k
    {
      InsertsAtPrefix(es, n, k, server);
    }
    forall j: nat, k: nat, server | Overtaken(before, j, k, server)
      ensures Overtaken(es, j, k, server)
    {
      assert j < n;
    }
    forall j: nat, k: nat, server | Overtaken(es, j, k, server)
      ensures j < n || (j == n && k < n)
    {}
  }

  /** Over all runs, whatever interleaves: every server's channels are at
      positions 0..n-1 in the order they were made, if and only if no channel was
      inserted into a server between another insert's read and that insert. */
  lemma {:induction false} PositionsIff(es: seq<Event>)
    requires IsRun(es)
    ensures Placed(After(es)) <==> NoneOvertaken(es)
    decreases |es|
  {
    if es == [] {
      assert NoneOvertaken(es);
    } else {
      var n := |es| - 1;
      var before, e := es[..n], es[n];
      EveryRunKeepsInv(before);
      StepPlacedIff(After(before), e);
      PositionsIff(before);
      NoneOvertakenStep(es);
      if NoneOvertaken(before) && Inserts(After(before), e) {
        PlacedAtRead(before, e.c);
        NextUnlessOvertaken(before, e.c);
      }
    }
  }

  /** The positions were right when a pending handler read them. */
  lemma PlacedAtRead(es: seq<Event>, c: Conn)
    requires IsRun(es) && NoneOvertaken(es) && c in After(es).pending
    ensures Placed(After(es[..PendingReadAt(es, c)]))
    decreases |es|
  {
    PendingHasRead(es, c);
    var r := PendingReadAt(es, c);
    RunPrefix(es, r);
    NoneOvertakenPrefix(es, r);
    PositionsIff(es[..r]);
  }

  // ---- shared positions ----

  predicate SharePosition(s: State, a: Id, b: Id) {
    && a != b && a in s.channels && b in s.channels
    && s.channels[a].server == s.channels[b].server && s.channels[a].position == s.channels[b].position
  }

  ghost predicate PositionsDistinct(s: State) {
    forall a, b :: !SharePosition(s, a, b)
  }

  lemma PositionIsIndex(s: State, c: Id)
    requires ChannelsInv(s) && Placed(s) && c in s.channels
    ensures var ch := s.channels[c];
            ch.server in s.created && ch.position < |s.created[ch.server]| && s.created[ch.server][ch.position] == c
  {
    var list := s.created[s.channels[c].server];
    assert ListsChannels(s.channels, s.channels[c].server, list) && PlacedList(s.channels, list);
    var i :| 0 <= i < |list| && list[i] == c;
    assert PositionOf(s.channels, list[i]) == i;
  }

  lemma PlacedAreDistinct(s: State)
    requires ChannelsInv(s) && Placed(s)
    ensures PositionsDistinct(s)
  {
    forall c | c in s.channels
      ensures s.channels[c].server in s.created && s.channels[c].position < |s.created[s.channels[c].server]|
      ensures s.created[s.channels[c].server][s.channels[c].position] == c
    {
      PositionIsIndex(s, c);
    }
  }

  lemma SharedForGood(s: State, e: Event, a: Id, b: Id)
    requires SharePosition(s, a, b)
    ensures SharePosition(Step(s, e), a, b)
  {}

  /** An overtaken insert takes the position of the channel that overtook it. */
  lemma EarlierPositionIsShared(s: State, e: Event) returns (a: Id)
    requires ChannelsInv(s) && Placed(s) && Inserts(s, e) && s.pending[e.c].server in s.created
    requires s.pending[e.c].maxPos + 1 < |s.created[s.pending[e.c].server]|
    ensures SharePosition(Step(s, e), a, e.channel)
  {
    var p := s.pending[e.c];
    a := s.created[p.server][p.maxPos + 1];
    assert ListsChannels(s.channels, p.server, s.created[p.server]) && PlacedList(s.channels, s.created[p.server]);
    assert PositionOf(s.channels, a) == p.maxPos + 1;
  }

  /** The same condition decides whether two channels of a server ever share a
      position. */
  lemma {:induction false} DistinctIff(es: seq<Event>)
    requires IsRun(es)
    ensures PositionsDistinct(After(es)) <==> NoneOvertaken(es)
  {
    EveryRunKeepsInv(es);
    PositionsIff(es);
    if NoneOvertaken(es) {
      PlacedAreDistinct(After(es));
    } else {
      assert es != [] by {
        var j: nat, k: nat, server :| Overtaken(es, j, k, server);
      }
      var n := |es| - 1;
      var before, e := es[..n], es[n];
      DistinctIff(before);
      if !NoneOvertaken(before) {
        var a, b :| SharePosition(After(before), a, b);
        SharedForGood(After(before), e, a, b);
      } else {
        var a, b := FirstClash(es);
      }
    }
  }

  /** The first overtaken insert makes two channels share a position. */
  lemma FirstClash(es: seq<Event>) returns (a: Id, b: Id)
    requires IsRun(es) && es != [] && NoneOvertaken(es[..|es| - 1]) && !NoneOvertaken(es)
    ensures SharePosition(After(es), a, b)
  {
    var n := |es| - 1;
    var before, e := es[..n], es[n];
    EveryRunKeepsInv(before);
    PositionsIff(before);
    NoneOvertakenStep(es);
    PlacedAtRead(before, e.c);
    NextUnlessOvertaken(before, e.c);
    a := EarlierPositionIsShared(After(before), e);
    b := e.channel;
  }

  /** Handlers that insert right after their read are never overtaken: with each
      handler as one step, positions are always right. */
  lemma AtomicHandlersKeepPositions(es: seq<Event>)
    requires IsRun(es)
    requires forall j :: 0 <= j < |es| && es[j].InsertChannel? ==> j > 0 && es[j - 1].ReadMax? && es[j - 1].c == es[j].c
    ensures NoneOvertaken(es) && Placed(After(es))
  {
    forall j: nat, k: nat, server
      ensures !Overtaken(es, j, k, server)
    {
      if InsertsAt(es, j, server) {
        AtomicNotOvertaken(es, j, k, server);
      }
    }
    PositionsIff(es);
  }

  lemma AtomicNotOvertaken(es: seq<Event>, j: nat, k: nat, server: Id)
    requires InsertsAt(es, j, server) && j > 0 && es[j - 1].ReadMax? && es[j - 1].c == es[j].c
    ensures !Overtaken(es, j, k, server)
  {
    assert es[..j][|es[..j]| - 1] == es[j - 1];
    ReadJustNow(es[..j]);
  }

  lemma ReadJustNow(es: seq<Event>)
    requires es != [] && es[|es| - 1].ReadMax?
    ensures var c := es[|es| - 1].c; c in After(es).pending && After(es).pending[c].readAt == |es| - 1
  {
    StepsIsLength(es[..|es| - 1]);
  }

  /** Interleaved handlers do clash: from every reachable state, two connections
      that both read before either inserts give their channels one position. */
  lemma InterleavedHandlersClash(es: seq<Event>, user: User, server: Id, m: nat, c: Conn, d: Conn,
                                 a: Id, b: Id, name: string, other: string)
    returns (more: seq<Event>)
    requires IsRun(es) && MayCreateChannel(After(es), server, user) && IsMaxPosition(After(es).channels, server, m)
    requires c != d && c !in After(es).pending && d !in After(es).pending
    requires a != b && a !in After(es).channels && b !in After(es).channels
    ensures es <= more && IsRun(more)
    ensures SharePosition(After(more), a, b) && a in ChannelsOf(After(more).channels, server)
    ensures !NoneOvertaken(more)
  {
    var read := TwoReads(es, user, server, m, c, d);
    more := TwoInserts(read, c, d, a, b, name, other);
    assert SharePosition(After(more), a, b);
    DistinctIff(more);
  }

  lemma TwoReads(es: seq<Event>, user: User, server: Id, m: nat, c: Conn, d: Conn) returns (more: seq<Event>)
    requires IsRun(es) && MayCreateChannel(After(es), server, user) && IsMaxPosition(After(es).channels, server, m)
    requires c != d && c !in After(es).pending && d !in After(es).pending
    ensures es <= more && IsRun(more)
    ensures After(more).channels == After(es).channels
    ensures forall x :: x == c || x == d ==>
              && x in After(more).pending
              && After(more).pending[x].server == server && After(more).pending[x].maxPos == m
  {
    more := Extend(es, ReadMax(c, user, server, m));
    ReadEffect(After(es), c, user, server, m);
    var s := After(more);
    more := Extend(more, ReadMax(d, user, server, m));
    ReadEffect(s, d, user, server, m);
  }

  lemma TwoInserts(es: seq<Event>, c: Conn, d: Conn, a: Id, b: Id, name: string, other: string)
    returns (more: seq<Event>)
    requires IsRun(es) && c != d && c in After(es).pending && d in After(es).pending
    requires a != b && a !in After(es).channels && b !in After(es).channels
    ensures es <= more && IsRun(more)
    ensures var p, q, channels := After(es).pending[c], After(es).pending[d], After(more).channels;
            && a in channels && channels[a] == Channel(p.server, name, p.maxPos + 1)
            && b in channels && channels[b] == Channel(q.server, other, q.maxPos + 1)
  {
    var mid := OneInsert(es, c, a, name);
    assert b !in After(mid).channels && After(mid).pending[d] == After(es).pending[d];
    more := OneInsert(mid, d, b, other);
    assert a in After(mid).channels && After(more).channels[a] == After(mid).channels[a];
  }

  lemma OneInsert(es: seq<Event>, c: Conn, a: Id, name: string) returns (more: seq<Event>)
    requires IsRun(es) && c in After(es).pending && a !in After(es).channels
    ensures es <= more && IsRun(more)
    ensures var s, s' := After(es), After(more);
            && s'.pending == s.pending - {c}
            && s'.channels == s.channels[a := Channel(s.pending[c].server, name, s.pending[c].maxPos + 1)]
  {
    more := Extend(es, InsertChannel(c, a, name));
    InsertEffect(After(es), c, a, name);
  }

  lemma ReadEffect(s: State, c: Conn, user: User, server: Id, m: nat)
    ensures var s' := Step(s, ReadMax(c, user, server, m));
            && s'.pending == s.pending[c := Pending(server, m, s.steps)]
            && s'.channels == s.channels && s'.roles == s.roles
  {}

  lemma InsertEffect(s: State, c: Conn, a: Id, name: string)
    requires c in s.pending && a !in s.channels
    ensures var s' := Step(s, InsertChannel(c, a, name));
            && s'.pending == s.pending - {c}
            && s'.channels == s.channels[a := Channel(s.pending[c].server, name, s.pending[c].maxPos + 1)]
  {}

  lemma Extend(es: seq<Event>, e: Event) returns (more: seq<Event>)
    requires IsRun(es) && Enabled(After(es), e)
    ensures more == es + [e] && IsRun(more) && After(more) == Step(After(es), e)
  {
    more := es + [e];
    assert more[..|es|] == es;
  }

  // ---- listings ----

  /** A listing of a server's channels as the query returns it. */
  ghost predicate IsListing(s: State, server: Id, list: seq<Id>) {
    && ListsChannels(s.channels, server, list)
    && ByPosition(s.channels, list)
  }

  ghost predicate ByPosition(channels: map<Id, Channel>, list: seq<Id>) {
    forall i, j :: 0 <= i < j < |list| ==> PositionOf(channels, list[i]) <= PositionOf(channels, list[j])
  }

  predicate SameAt(a: seq<Id>, b: seq<Id>, k: nat) {
    k < |a| && k < |b| && a[k] == b[k]
  }

  lemma {:induction false} ListedAt(s: State, server: Id, list: seq<Id>, k: nat)
    requires ChannelsInv(s) && Placed(s) && server in s.created && IsListing(s, server, list) && k < |list|
    ensures SameAt(list, s.created[server], k)
  {
    var made := s.created[server];
    forall j: nat | j < k
      ensures SameAt(list, made, j)
    {
      ListedAt(s, server, list, j);
    }
    assert ListsChannels(s.channels, server, made) && PlacedList(s.channels, made);
    NextListed(s.channels, server, made, list, k);
  }

  /** A list in position order that agrees with the creation order so far goes on
      with the next channel. */
  lemma NextListed(channels: map<Id, Channel>, server: Id, made: seq<Id>, list: seq<Id>, k: nat)
    requires ListsChannels(channels, server, made) && PlacedList(channels, made)
    requires ListsChannels(channels, server, list) && k < |list|
    requires ByPosition(channels, list)
    requires forall j: nat :: j < k ==> SameAt(list, made, j)
    ensures SameAt(list, made, k)
  {
    assert list[k] in made;
    var p: nat :| p < |made| && made[p] == list[k];
    assert p < k ==> SameAt(list, made, p);
    assert p >= k;
    assert PositionOf(channels, made[p]) == p && PositionOf(channels, made[k]) == k;
    assert made[k] in channels && made[k] in list;
    var i: nat :| i < |list| && list[i] == made[k];
    assert i < k ==> SameAt(list, made, i);
    assert i >= k;
  }

  lemma CreatedIsListed(s: State, server: Id, list: seq<Id>, k: nat)
    requires ChannelsInv(s) && Placed(s) && server in s.created && IsListing(s, server, list)
    requires k < |s.created[server]|
    ensures k < |list|
  {
    var made := s.created[server];
    assert ListsChannels(s.channels, server, made) && PlacedList(s.channels, made);
    var i: nat :| i < |list| && list[i] == made[k];
    ListedAt(s, server, list, i);
    assert PositionOf(s.channels, made[k]) == k && PositionOf(s.channels, made[i]) == i;
  }

  lemma ListingIsCreated(s: State, server: Id, list: seq<Id>)
    requires ChannelsInv(s) && Placed(s) && server in s.created && IsListing(s, server, list)
    ensures list == s.created[server]
  {
    var made := s.created[server];
    forall k: nat | k < |list|
      ensures k < |made| && list[k] == made[k]
    {
      ListedAt(s, server, list, k);
    }
    CreatedIsListed(s, server, list, |made| - 1);
    ListedAt(s, server, list, |list| - 1);
  }

  /** In every state that a run without overtaken inserts reaches, listing a
      server's channels by position gives them in creation order. */
  lemma ListsInCreationOrder(es: seq<Event>, server: Id, list: seq<Id>)
    requires IsRun(es) && NoneOvertaken(es) && server in After(es).servers && IsListing(After(es), server, list)
    ensures server in After(es).created && list == After(es).created[server]
    ensures forall i :: 0 <= i < |list| ==> PositionOf(After(es).channels, list[i]) == i
  {
    EveryRunKeepsInv(es);
    PositionsIff(es);
    ListingIsCreated(After(es), server, list);
    assert PlacedList(After(es).channels, list);
  }

  /** Otherwise some server's listing holds two channels at one position, so that
      their order is not that of creation but of their names. */
  lemma ClashesAreListed(es: seq<Event>) returns (server: Id)
    requires IsRun(es) && !NoneOvertaken(es)
    ensures server in After(es).servers
    ensures forall list :: IsListing(After(es), server, list) ==>
              exists i, j :: 0 <= i < j < |list| && SharePosition(After(es), list[i], list[j])
  {
    DistinctIff(es);
    EveryRunKeepsInv(es);
    var a, b :| SharePosition(After(es), a, b);
    server := After(es).channels[a].server;
    forall list | IsListing(After(es), server, list)
      ensures exists i, j :: 0 <= i < j < |list| && SharePosition(After(es), list[i], list[j])
    {
      SharedInListing(After(es), list, a, b);
    }
  }

  lemma SharedInListing(s: State, list: seq<Id>, a: Id, b: Id)
    requires SharePosition(s, a, b) && IsListing(s, s.channels[a].server, list)
    ensures exists i, j :: 0 <= i < j < |list| && SharePosition(s, list[i], list[j])
  {
    var i: nat :| i < |list| && list[i] == a;
    var j: nat :| j < |list| && list[j] == b;
    if i < j {
      assert SharePosition(s, list[i], list[j]);
    } else {
      assert SharePosition(s, list[j], list[i]);
    }
  }
}
