/** Channel history and its paging (nexus_server/main.go). */
module ChannelHistory {

  datatype ChannelMsg = ChannelMsg(id: int, channel: string, sender: string, body: string)

  /** Row ids are positive and grow in insertion order (AUTOINCREMENT). */
  ghost predicate Valid(rows: seq<ChannelMsg>) {
    && (forall i :: 0 <= i < |rows| ==> rows[i].id >= 1)
    && (forall i, j :: 0 <= i < j < |rows| ==> rows[i].id < rows[j].id)
  }

  // ---------- what a page should be ----------

  predicate Selects(m: ChannelMsg, channel: string, cursor: int) {
    m.channel == channel && (cursor <= 0 || m.id < cursor)
  }

  /** The channel's messages older than the cursor, oldest first; a cursor of 0
      or less is none. */
  function Matching(rows: seq<ChannelMsg>, channel: string, cursor: int): seq<ChannelMsg> {
    if rows == [] then []
    else
      var last, rest := rows[|rows| - 1], rows[..|rows| - 1];
      if Selects(last, channel, cursor) then Matching(rest, channel, cursor) + [last]
      else Matching(rest, channel, cursor)
  }

  /** The whole channel, oldest first. */
  function Log(rows: seq<ChannelMsg>, channel: string): seq<ChannelMsg> {
    Matching(rows, channel, 0)
  }

  function LastN(s: seq<ChannelMsg>, n: nat): seq<ChannelMsg> {
    if |s| <= n then s else s[|s| - n..]
  }

  function PageSize(limit: int): (n: nat)
    ensures 1 <= n <= 200
  {
    if limit <= 0 || limit > 200 then 50 else limit
  }

  /** The newest messages older than the cursor, oldest first. */
  function Page(rows: seq<ChannelMsg>, channel: string, cursor: int, limit: int): seq<ChannelMsg> {
    LastN(Matching(rows, channel, cursor), PageSize(limit))
  }

  // ---------- what channelHistory does ----------

  /** The SQL query: matching rows by descending id, at most n. */
  function QueryDescending(rows: seq<ChannelMsg>, channel: string, cursor: int, n: nat): seq<ChannelMsg> {
    if rows == [] || n == 0 then []
    else
      var last, rest := rows[|rows| - 1], rows[..|rows| - 1];
      if Selects(last, channel, cursor)
      then [last] + QueryDescending(rest, channel, cursor, n - 1)
      else QueryDescending(rest, channel, cursor, n)
  }

  function Reversed(s: seq<ChannelMsg>): (r: seq<ChannelMsg>)
    ensures |r| == |s| && forall k :: 0 <= k < |s| ==> r[k] == s[|s| - 1 - k]
  {
    seq(|s|, k requires 0 <= k < |s| => s[|s| - 1 - k])
  }

  class NexusServer {
    var rows: seq<ChannelMsg> // channel_messages
    var lastId: int

    ghost predicate Ok()
      reads this
    {
      Valid(rows) && lastId >= 0 && forall i :: 0 <= i < |rows| ==> rows[i].id <= lastId
    }

    constructor ()
      ensures Ok() && rows == []
    {
      rows, lastId := [], 0;
    }

    /** The INSERT of channel_msg. */
    method Insert(channel: string, sender: string, body: string) returns (id: int)
      requires Ok()
      modifies this
      ensures Ok() && rows == old(rows) + [ChannelMsg(id, channel, sender, body)]
    {
      lastId := lastId + 1;
      id := lastId;
      rows := rows + [ChannelMsg(id, channel, sender, body)];
    }

    method ChannelHistory(channelID: string, beforeID: int, limit: int) returns (page: seq<ChannelMsg>)
      ensures page == Page(rows, channelID, beforeID, limit)
    {
      var n := limit;
      if n <= 0 || n > 200 {
        n := 50;
      }
      var found := QueryDescending(rows, channelID, beforeID, n);
      var out := new ChannelMsg[|found|](i requires 0 <= i < |found| => found[i]);
      ReverseInPlace(out);
      page := out[..];
      assert page == Reversed(found);
      QueryIsPage(rows, channelID, beforeID, n);
    }
  }

  /** The in-place reversal to chronological order. */
  method ReverseInPlace(out: array<ChannelMsg>)
    modifies out
    ensures forall k :: 0 <= k < out.Length ==> out[k] == old(out[out.Length - 1 - k])
  {
    var i, j := 0, out.Length - 1;
    while i < j
      invariant 0 <= i && i + j == out.Length - 1 && i <= j + 1
      invariant forall k :: 0 <= k < i ==>
                  out[k] == old(out[out.Length - 1 - k]) && out[out.Length - 1 - k] == old(out[k])
      invariant forall k :: i <= k <= j ==> out[k] == old(out[k])
    {
      out[i], out[j] := out[j], out[i];
      i, j := i + 1, j - 1;
    }
  }

  lemma {:induction false} QueryIsPage(rows: seq<ChannelMsg>, channel: string, cursor: int, n: nat)
    ensures Reversed(QueryDescending(rows, channel, cursor, n)) == LastN(Matching(rows, channel, cursor), n)
    decreases |rows|
  {
    if rows != [] && n > 0 {
      var last, rest := rows[|rows| - 1], rows[..|rows| - 1];
      if Selects(last, channel, cursor) {
        QueryIsPage(rest, channel, cursor, n - 1);
        LastNSnoc(Matching(rest, channel, cursor), last, n);
        ReversedCons(last, QueryDescending(rest, channel, cursor, n - 1));
      } else {
        QueryIsPage(rest, channel, cursor, n);
      }
    }
  }

  lemma LastNSnoc(s: seq<ChannelMsg>, m: ChannelMsg, n: nat)
    requires n > 0
    ensures LastN(s + [m], n) == LastN(s, n - 1) + [m]
  {}

  lemma ReversedCons(m: ChannelMsg, s: seq<ChannelMsg>)
    ensures Reversed([m] + s) == Reversed(s) + [m]
  {}

  // ---------- what is on a page ----------

  /** Ids grow along the list. */
  ghost predicate Ascending(s: seq<ChannelMsg>) {
    forall i, j :: 0 <= i < j < |s| ==> s[i].id < s[j].id
  }

  lemma {:induction false} MatchingIff(rows: seq<ChannelMsg>, channel: string, cursor: int, m: ChannelMsg)
    ensures m in Matching(rows, channel, cursor) <==>
            m in rows && m.channel == channel && (cursor <= 0 || m.id < cursor)
  {
    if rows != [] {
      MatchingIff(rows[..|rows| - 1], channel, cursor, m);
      assert rows == rows[..|rows| - 1] + [rows[|rows| - 1]];
    }
  }

  lemma {:induction false} MatchingAscends(rows: seq<ChannelMsg>, channel: string, cursor: int)
    requires Valid(rows)
    ensures Ascending(Matching(rows, channel, cursor))
  {
    if rows != [] {
      var rest := rows[..|rows| - 1];
      MatchingAscends(rest, channel, cursor);
      forall m | m in Matching(rest, channel, cursor)
        ensures m.id < rows[|rows| - 1].id
      {
        MatchingIff(rest, channel, cursor, m);
      }
    }
  }

  /** The channel's messages older than the cursor and newer than m. */
  ghost function NewerThan(rows: seq<ChannelMsg>, channel: string, cursor: int, m: ChannelMsg): set<ChannelMsg> {
    set x | x in rows && x.channel == channel && (cursor <= 0 || x.id < cursor) && x.id > m.id
  }

  lemma {:induction false} SizeOfAscending(s: seq<ChannelMsg>)
    requires Ascending(s)
    ensures |set m | m in s| == |s|
  {
    if s != [] {
      var front, last := s[..|s| - 1], s[|s| - 1];
      SizeOfAscending(front);
      assert s == front + [last];
      assert (set m | m in s) == (set m | m in front) + {last};
    }
  }

  lemma NewerCount(rows: seq<ChannelMsg>, channel: string, cursor: int, k: nat)
    requires Valid(rows) && k < |Matching(rows, channel, cursor)|
    ensures var all := Matching(rows, channel, cursor);
            |NewerThan(rows, channel, cursor, all[k])| == |all| - k - 1
  {
    var all := Matching(rows, channel, cursor);
    var later := all[k + 1..];
    MatchingAscends(rows, channel, cursor);
    SizeOfAscending(later);
    forall x
      ensures x in NewerThan(rows, channel, cursor, all[k]) <==> x in later
    {
      MatchingIff(rows, channel, cursor, x);
      if x in all && x.id > all[k].id {
        var i :| 0 <= i < |all| && all[i] == x;
        assert later[i - k - 1] == x;
      }
    }
    assert NewerThan(rows, channel, cursor, all[k]) == set m | m in later;
  }

  /** A page is in order of ids and holds exactly the channel's messages older
      than the cursor, if there is one, with fewer than `limit` newer ones (50
      for a limit out of 1..200). */
  lemma PageIff(rows: seq<ChannelMsg>, channel: string, cursor: int, limit: int, m: ChannelMsg)
    requires Valid(rows)
    ensures Ascending(Page(rows, channel, cursor, limit))
    ensures m in Page(rows, channel, cursor, limit) <==>
              && m in rows && m.channel == channel && (cursor <= 0 || m.id < cursor)
              && |NewerThan(rows, channel, cursor, m)| < (if 1 <= limit <= 200 then limit else 50)
  {
    var all, n := Matching(rows, channel, cursor), PageSize(limit);
    MatchingAscends(rows, channel, cursor);
    MatchingIff(rows, channel, cursor, m);
    if k :| 0 <= k < |all| && all[k] == m {
      NewerCount(rows, channel, cursor, k);
      if k >= |all| - n {
        var start := if |all| <= n then 0 else |all| - n;
        assert LastN(all, n)[k - start] == m;
      }
    }
  }

  // ---------- paging backwards ----------

  lemma {:induction false} MatchingAppend(rows: seq<ChannelMsg>, more: seq<ChannelMsg>, channel: string, cursor: int)
    ensures Matching(rows + more, channel, cursor) == Matching(rows, channel, cursor) + Matching(more, channel, cursor)
    decreases |more|
  {
    if more == [] {
      assert rows + more == rows;
    } else {
      var all, init := rows + more, more[..|more| - 1];
      assert all[..|all| - 1] == rows + init && all[|all| - 1] == more[|more| - 1];
      MatchingAppend(rows, init, channel, cursor);
    }
  }

  lemma {:induction false} NoneBelow(rows: seq<ChannelMsg>, channel: string, cursor: int)
    requires cursor > 0 && forall i :: 0 <= i < |rows| ==> rows[i].id >= cursor
    ensures Matching(rows, channel, cursor) == []
  {
    if rows != [] {
      NoneBelow(rows[..|rows| - 1], channel, cursor);
    }
  }

  lemma {:induction false} AllBelow(rows: seq<ChannelMsg>, channel: string, cursor: int)
    requires forall i :: 0 <= i < |rows| ==> rows[i].id < cursor
    ensures Matching(rows, channel, cursor) == Log(rows, channel)
  {
    if rows != [] {
      AllBelow(rows[..|rows| - 1], channel, cursor);
    }
  }

  lemma {:induction false} LogIsPart(rows: seq<ChannelMsg>, channel: string, k: nat)
    requires k < |Log(rows, channel)|
    ensures Log(rows, channel)[k] in rows
  {
    var last, rest := rows[|rows| - 1], rows[..|rows| - 1];
    assert rows == rest + [last];
    if k < |Log(rest, channel)| {
      LogIsPart(rest, channel, k);
    }
  }

  /** The messages older than the r-th of the log are the first r of it. */
  lemma {:induction false} OlderIsPrefix(rows: seq<ChannelMsg>, channel: string, r: nat)
    requires Valid(rows) && r < |Log(rows, channel)|
    ensures Log(rows, channel)[r].id >= 1
    ensures Matching(rows, channel, Log(rows, channel)[r].id) == Log(rows, channel)[..r]
  {
    var last, rest := rows[|rows| - 1], rows[..|rows| - 1];
    var older := Log(rest, channel);
    if r < |older| {
      LogIsPart(rest, channel, r);
      OlderIsPrefix(rest, channel, r);
    } else {
      AllBelow(rest, channel, last.id);
    }
  }

  /** Snapshots of the table at successive fetches: rows are only ever appended. */
  ghost predicate Growing(first: seq<ChannelMsg>, snaps: seq<seq<ChannelMsg>>) {
    Valid(first) && forall k :: 0 <= k < |snaps| ==> Valid(snaps[k]) && first <= snaps[k]
  }

  /** Fetch page after page, each with the oldest id returned so far as cursor,
      until a page is empty; joined oldest first. */
  function FetchBack(snaps: seq<seq<ChannelMsg>>, channel: string, cursor: int, limit: int): seq<ChannelMsg>
    decreases |snaps|
  {
    if snaps == [] then []
    else
      var page := Page(snaps[0], channel, cursor, limit);
      if page == [] then [] else FetchBack(snaps[1..], channel, page[0].id, limit) + page
  }

  /** Rows appended after the cursor was handed out do not show before it. */
  lemma AppendedRowsAreNewer(first: seq<ChannelMsg>, now: seq<ChannelMsg>, channel: string, r: nat)
    requires Valid(first) && Valid(now) && first <= now && r < |Log(first, channel)|
    ensures var cursor := Log(first, channel)[r].id;
            cursor >= 1 && Matching(now, channel, cursor) == Log(first, channel)[..r]
  {
    var cursor, more := Log(first, channel)[r].id, now[|first|..];
    OlderIsPrefix(first, channel, r);
    LogIsPart(first, channel, r);
    assert now == first + more;
    forall i | 0 <= i < |more|
      ensures more[i].id >= cursor
    {
      assert more[i] == now[|first| + i];
    }
    NoneBelow(more, channel, cursor);
    MatchingAppend(first, more, channel, cursor);
  }

  /** Where a page of the first r messages starts. */
  function Start(r: nat, size: nat): nat {
    if r <= size then 0 else r - size
  }

  lemma PageOfPrefix(log: seq<ChannelMsg>, r: nat, size: nat)
    requires 0 < r <= |log| && size > 0
    ensures var page := LastN(log[..r], size);
            page == log[Start(r, size)..r] && page[0] == log[Start(r, size)]
            && log[..Start(r, size)] + page == log[..r]
  {}

  lemma EnoughLeft(k: nat, size: nat, r: nat)
    requires k > 0 && k * size >= r
    ensures (k - 1) * size >= Start(r, size)
  {
    assert k * size == (k - 1) * size + size;
  }

  /** With the r-th message of the first snapshot's log as cursor, fetching
      yields the r messages before it. */
  lemma {:induction false} FetchRest(first: seq<ChannelMsg>, snaps: seq<seq<ChannelMsg>>, channel: string, r: nat,
                                     limit: int)
    requires Growing(first, snaps) && r < |Log(first, channel)|
    requires |snaps| * PageSize(limit) >= r
    ensures FetchBack(snaps, channel, Log(first, channel)[r].id, limit) == Log(first, channel)[..r]
    decreases |snaps|
  {
    var log, size := Log(first, channel), PageSize(limit);
    if snaps == [] {
      assert 0 * size == 0;
    } else {
      AppendedRowsAreNewer(first, snaps[0], channel, r);
      if r > 0 {
        PageOfPrefix(log, r, size);
        EnoughLeft(|snaps|, size, r);
        FetchRest(first, snaps[1..], channel, Start(r, size), limit);
      }
    }
  }

  /** The pages, joined oldest first, are exactly the channel's log at the time
      of the first fetch, whatever is appended meanwhile, and one fetch per
      full page is enough to get it all. */
  lemma PagesRebuildLog(snaps: seq<seq<ChannelMsg>>, channel: string, limit: int)
    requires snaps != [] && Growing(snaps[0], snaps)
    requires |snaps| * PageSize(limit) >= |Log(snaps[0], channel)|
    ensures FetchBack(snaps, channel, 0, limit) == Log(snaps[0], channel)
  {
    var log, size := Log(snaps[0], channel), PageSize(limit);
    if log != [] {
      assert log[..|log|] == log;
      PageOfPrefix(log, |log|, size);
      EnoughLeft(|snaps|, size, |log|);
      FetchRest(snaps[0], snaps[1..], channel, Start(|log|, size), limit);
    }
  }

  /** Each message of the channel is on exactly one page. */
  lemma NoGapNoDuplicate(snaps: seq<seq<ChannelMsg>>, channel: string, limit: int, m: ChannelMsg)
    requires snaps != [] && Growing(snaps[0], snaps)
    requires |snaps| * PageSize(limit) >= |Log(snaps[0], channel)|
    ensures multiset(FetchBack(snaps, channel, 0, limit))[m] == if m in snaps[0] && m.channel == channel then 1 else 0
  {
    PagesRebuildLog(snaps, channel, limit);
    LogCounts(snaps[0], channel, m);
  }

  lemma {:induction false} LogCounts(rows: seq<ChannelMsg>, channel: string, m: ChannelMsg)
    requires Valid(rows)
    ensures multiset(Log(rows, channel))[m] == if m in rows && m.channel == channel then 1 else 0
    decreases |rows|
  {
    if rows != [] {
      var last, rest := rows[|rows| - 1], rows[..|rows| - 1];
      LogCounts(rest, channel, m);
      assert rows == rest + [last];
      assert last !in rest;
    }
  }
}
