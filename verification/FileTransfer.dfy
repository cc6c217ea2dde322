/** File transfer over a DataChannel (native_client/internal/chat/webrtc.go):
    SendFile's frames and the OnMessage receiver that reassembles them. */
module FileTransfer {

  import opened Prelude

  type Peer = string

  /** The JSON header {name, size}. */
  datatype Header = Header(name: string, size: nat)

  /** json.Marshal and json.Unmarshal of a header, as abstract functions. */
  datatype Json = Json(marshal: Header -> Bytes, unmarshal: Bytes -> Option<Header>)
  {
    /** Headers round-trip and are written on one line. */
    ghost predicate Faithful() {
      forall h :: unmarshal(marshal(h)) == Some(h) && NEWLINE !in marshal(h)
    }
  }

  const NEWLINE: Byte := 10
  const DATA: Byte := 68
  const VID: Bytes := [86, 73, 68]
  const HDR: Bytes := [72, 68, 82]
  const END: Bytes := [69, 78, 68]
  const CHUNK := 16 * 1024

  // ---------- sending ----------

  /** The D frames for data from offset i on. */
  function Chunks(data: Bytes, i: nat): (frames: seq<Bytes>)
    requires i <= |data|
    decreases |data| - i
  {
    if i == |data| then []
    else
      var end := if i + CHUNK > |data| then |data| else i + CHUNK;
      [[DATA] + data[i..end]] + Chunks(data, end)
  }

  function Frames(json: Json, name: string, data: Bytes): seq<Bytes> {
    [HDR + json.marshal(Header(name, |data|)) + [NEWLINE]] + Chunks(data, 0) + [END]
  }

  /** SendFile on an open channel: what it passes to dc.Send, in order. */
  method SendFile(json: Json, fileName: string, data: Bytes) returns (sent: seq<Bytes>)
    ensures sent == Frames(json, fileName, data)
  {
    sent := [HDR + json.marshal(Header(fileName, |data|)) + [NEWLINE]];
    ghost var head := sent;
    var i := 0;
    while i < |data|
      invariant 0 <= i
      invariant i <= |data| ==> sent + Chunks(data, i) == head + Chunks(data, 0)
      invariant i > |data| ==> sent == head + Chunks(data, 0)
      decreases |data| - i
    {
      var end := i + CHUNK;
      if end > |data| {
        end := |data|;
      }
      sent := sent + [[DATA] + data[i..end]];
      i := i + CHUNK;
    }
    sent := sent + [END];
  }

  /** The data of the frames, joined. */
  function Payload(frames: seq<Bytes>): Bytes
    requires forall k :: 0 <= k < |frames| ==> frames[k] != []
  {
    if frames == [] then [] else frames[0][1..] + Payload(frames[1..])
  }

  /** Data frames start with "D"; each but the last carries 16384 bytes, the last
      at least one and no more, and together they carry the data. */
  lemma {:induction false} ChunkFormat(data: Bytes, i: nat)
    requires i <= |data|
    ensures var frames := Chunks(data, i);
            && (forall k :: 0 <= k < |frames| ==> 1 < |frames[k]| <= 16385 && frames[k][0] == 68)
            && (forall k :: 0 <= k < |frames| - 1 ==> |frames[k]| == 16385)
            && Payload(frames) == data[i..]
    decreases |data| - i
  {
    if i < |data| {
      var end := if i + CHUNK > |data| then |data| else i + CHUNK;
      ChunkFormat(data, end);
      var first := [DATA] + data[i..end];
      assert first[1..] == data[i..end];
      assert Chunks(data, i)[0] == first && Chunks(data, i)[1..] == Chunks(data, end);
      assert data[i..end] + data[end..] == data[i..];
    }
  }

  /** On the wire: "HDR", the header and a newline; the data frames; "END". */
  lemma WireFormat(json: Json, name: string, data: Bytes)
    ensures var sent := Frames(json, name, data);
            && |sent| >= 2
            && sent[0] == [72, 68, 82] + json.marshal(Header(name, |data|)) + [10]
            && sent[|sent| - 1] == [69, 78, 68]
            && sent[1..|sent| - 1] == Chunks(data, 0)
  {}

  // ---------- receiving ----------

  /** fileRx: a transfer in progress. */
  datatype FileRx = FileRx(name: string, size: nat, buf: Bytes)

  /** A call of OnFile. */
  datatype Received = Received(peer: Peer, name: string, size: nat, data: Bytes)

  predicate StartsWith(data: Bytes, tag: Bytes) {
    |data| >= |tag| && data[..|tag|] == tag
  }

  /** bytes.IndexByte. */
  function IndexOf(data: Bytes, b: Byte): (r: Option<nat>)
    ensures r.None? <==> b !in data
    ensures r.Some? ==> r.value < |data| && data[r.value] == b && b !in data[..r.value]
  {
    if data == [] then None
    else if data[0] == b then Some(0)
    else
      match IndexOf(data[1..], b)
      case None => None
      case Some(i) =>
        assert data[..i + 1] == [data[0]] + data[1..][..i];
        Some(i + 1)
  }

  /** The header of a frame that starts with HDR, if it parses. */
  function ParseHeader(json: Json, data: Bytes): Option<Header>
    requires StartsWith(data, HDR)
  {
    match IndexOf(data, NEWLINE)
    case None => None
    case Some(nl) =>
      assert nl >= 3 by { TagHasNoNewline(data); }
      json.unmarshal(data[3..nl])
  }

  lemma TagHasNoNewline(data: Bytes)
    requires StartsWith(data, HDR)
    ensures data[0] == 72 && data[1] == 68 && data[2] == 82
  {
    assert data[..3][0] == 72 && data[..3][1] == 68 && data[..3][2] == 82;
  }

  /** One peer's receiver: its transfer in progress and what it reports. */
  function Receive(json: Json, peer: Peer, rx: Option<FileRx>, data: Bytes): (Option<FileRx>, seq<Received>) {
    if data == [] || StartsWith(data, VID) then (rx, [])
    else if StartsWith(data, HDR) then
      match ParseHeader(json, data)
      case None => (rx, [])
      case Some(h) => (Some(FileRx(h.name, h.size, [])), [])
    else if data[0] == DATA then
      (if rx.Some? then Some(rx.value.(buf := rx.value.buf + data[1..])) else None, [])
    else if StartsWith(data, END) then
      (None, if rx.Some? then [Received(peer, rx.value.name, rx.value.size, rx.value.buf)] else [])
    else (rx, [])
  }

  /** The first b is at i. */
  predicate FirstAt(data: Bytes, b: Byte, i: nat) {
    i < |data| && data[i] == b && b !in data[..i]
  }

  /** What each kind of message does to its peer's transfer: a header that parses
      starts one afresh, data is appended to it, an end reports it, and nothing
      else has any effect. */
  lemma MessageEffect(json: Json, peer: Peer, rx: Option<FileRx>, data: Bytes)
    ensures var (rx', out) := Receive(json, peer, rx, data);
            if |data| >= 3 && data[..3] == [72, 68, 82] then
              && out == []
              && (10 !in data ==> rx' == rx)
              && forall nl: nat :: FirstAt(data, 10, nl) && nl >= 3 ==>
                   rx' == match json.unmarshal(data[3..nl])
                          case None => rx
                          case Some(h) => Some(FileRx(h.name, h.size, []))
            else if data != [] && data[0] == 68 then
              && out == []
              && (if rx.None? then rx' == None
                  else rx' == Some(FileRx(rx.value.name, rx.value.size, rx.value.buf + data[1..])))
            else if |data| >= 3 && data[..3] == [69, 78, 68] then
              && rx' == None
              && out == (if rx.None? then [] else [Received(peer, rx.value.name, rx.value.size, rx.value.buf)])
            else rx' == rx && out == []
  {
    if StartsWith(data, HDR) {
      TagHasNoNewline(data);
      forall nl: nat | FirstAt(data, 10, nl)
        ensures IndexOf(data, 10) == Some(nl)
      {
        OnlyFirst(data, 10, nl);
      }
    }
    assert StartsWith(data, VID) ==> data[..3][0] == 86;
    assert StartsWith(data, END) ==> data[..3][0] == 69;
  }

  lemma OnlyFirst(data: Bytes, b: Byte, i: nat)
    requires FirstAt(data, b, i)
    ensures IndexOf(data, b) == Some(i)
  {
    BeforeFirst(data, b, IndexOf(data, b).value, i);
    BeforeFirst(data, b, i, IndexOf(data, b).value);
  }

  lemma BeforeFirst(data: Bytes, b: Byte, i: nat, j: nat)
    requires FirstAt(data, b, i) && j < |data| && data[j] == b
    ensures j >= i
  {}

  function Lookup(rx: map<Peer, FileRx>, peer: Peer): Option<FileRx> {
    if peer in rx then Some(rx[peer]) else None
  }

  /** The call manager's receive side; OnFile calls are collected in order. */
  class Receiver {
    const json: Json
    var rxState: map<Peer, FileRx>
    var received: seq<Received>

    constructor (json: Json)
      ensures this.json == json && rxState == map[] && received == []
    {
      this.json, rxState, received := json, map[], [];
    }

    method OnMessage(peer: Peer, data: Bytes)
      modifies this
      ensures rxState == Arrive(json, old(rxState), Arrival(peer, data))
      ensures received == old(received) + Receive(json, peer, Lookup(old(rxState), peer), data).1
    {
      if |data| == 0 {
        return;
      }
      if |data| >= 3 && data[..3] == VID {
        return; // a video frame: decoded and shown, no effect on files
      } else if |data| >= 3 && data[..3] == HDR {
        var nl := IndexOf(data, NEWLINE);
        if nl.None? {
          return;
        }
        TagHasNoNewline(data);
        var h := json.unmarshal(data[3..nl.value]);
        if h.None? {
          return;
        }
        rxState := rxState[peer := FileRx(h.value.name, h.value.size, [])];
      } else if data[0] == DATA {
        if peer in rxState {
          var rx := rxState[peer];
          rxState := rxState[peer := rx.(buf := rx.buf + data[1..])];
        }
      } else if |data| >= 3 && data[..3] == END {
        if peer in rxState {
          var rx := rxState[peer];
          rxState := rxState - {peer};
          received := received + [Received(peer, rx.name, rx.size, rx.buf)];
        }
      }
    }
  }

  // ---------- whole conversations ----------

  datatype Arrival = Arrival(peer: Peer, data: Bytes)

  /** One peer's transfer in progress after a sequence of messages, */
  function After(json: Json, peer: Peer, rx: Option<FileRx>, msgs: seq<Bytes>): Option<FileRx>
    decreases |msgs|
  {
    if msgs == [] then rx else After(json, peer, Receive(json, peer, rx, msgs[0]).0, msgs[1..])
  }

  /** and the files reported meanwhile. */
  function Reported(json: Json, peer: Peer, rx: Option<FileRx>, msgs: seq<Bytes>): seq<Received>
    decreases |msgs|
  {
    if msgs == [] then []
    else
      var (rx', out) := Receive(json, peer, rx, msgs[0]);
      out + Reported(json, peer, rx', msgs[1..])
  }

  /** The whole receive state after one arrival, as OnMessage leaves it. */
  function Arrive(json: Json, rx: map<Peer, FileRx>, a: Arrival): map<Peer, FileRx> {
    var r := Receive(json, a.peer, Lookup(rx, a.peer), a.data).0;
    if r.Some? then rx[a.peer := r.value] else rx - {a.peer}
  }

  function AfterAll(json: Json, rx: map<Peer, FileRx>, arrivals: seq<Arrival>): map<Peer, FileRx>
    decreases |arrivals|
  {
    if arrivals == [] then rx else AfterAll(json, Arrive(json, rx, arrivals[0]), arrivals[1..])
  }

  function ReportedAll(json: Json, rx: map<Peer, FileRx>, arrivals: seq<Arrival>): seq<Received>
    decreases |arrivals|
  {
    if arrivals == [] then []
    else
      var a := arrivals[0];
      Receive(json, a.peer, Lookup(rx, a.peer), a.data).1 + ReportedAll(json, Arrive(json, rx, a), arrivals[1..])
  }

  function Of(arrivals: seq<Arrival>, peer: Peer): seq<Bytes> {
    if arrivals == [] then []
    else (if arrivals[0].peer == peer then [arrivals[0].data] else []) + Of(arrivals[1..], peer)
  }

  function FilesOf(files: seq<Received>, peer: Peer): seq<Received> {
    if files == [] then []
    else (if files[0].peer == peer then [files[0]] else []) + FilesOf(files[1..], peer)
  }

  lemma {:induction false} FilesOfAppend(a: seq<Received>, b: seq<Received>, peer: Peer)
    ensures FilesOf(a + b, peer) == FilesOf(a, peer) + FilesOf(b, peer)
  {
    if a == [] {
      assert a + b == b;
    } else {
      var first := if a[0].peer == peer then [a[0]] else [];
      calc {
        FilesOf(a + b, peer);
        { assert (a + b)[0] == a[0] && (a + b)[1..] == a[1..] + b; }
        first + FilesOf(a[1..] + b, peer);
        { FilesOfAppend(a[1..], b, peer); }
        first + (FilesOf(a[1..], peer) + FilesOf(b, peer));
        FilesOf(a, peer) + FilesOf(b, peer);
      }
    }
  }

  /** What a peer's transfers come to depends only on that peer's messages. */
  lemma {:induction false} PeersIndependent(json: Json, rx: map<Peer, FileRx>, arrivals: seq<Arrival>, peer: Peer)
    ensures Lookup(AfterAll(json, rx, arrivals), peer) == After(json, peer, Lookup(rx, peer), Of(arrivals, peer))
    ensures FilesOf(ReportedAll(json, rx, arrivals), peer) == Reported(json, peer, Lookup(rx, peer), Of(arrivals, peer))
    decreases |arrivals|
  {
    if arrivals != [] {
      var a := arrivals[0];
      var rx' := Arrive(json, rx, a);
      var out := Receive(json, a.peer, Lookup(rx, a.peer), a.data).1;
      PeersIndependent(json, rx', arrivals[1..], peer);
      FilesOfAppend(out, ReportedAll(json, rx', arrivals[1..]), peer);
      ReportsOwnFiles(json, Lookup(rx, a.peer), a, peer);
      if a.peer == peer {
        assert Of(arrivals, peer)[0] == a.data && Of(arrivals, peer)[1..] == Of(arrivals[1..], peer);
      } else {
        assert Of(arrivals, peer) == Of(arrivals[1..], peer);
      }
    }
  }

  lemma ReportsOwnFiles(json: Json, rx: Option<FileRx>, a: Arrival, peer: Peer)
    ensures var out := Receive(json, a.peer, rx, a.data).1;
            FilesOf(out, peer) == if a.peer == peer then out else []
  {}

  /** Messages that are not video frames. */
  function WithoutVideo(msgs: seq<Bytes>): seq<Bytes> {
    if msgs == [] then []
    else (if StartsWith(msgs[0], VID) then [] else [msgs[0]]) + WithoutVideo(msgs[1..])
  }

  lemma {:induction false} VideoIgnored(json: Json, peer: Peer, rx: Option<FileRx>, msgs: seq<Bytes>)
    ensures After(json, peer, rx, msgs) == After(json, peer, rx, WithoutVideo(msgs))
    ensures Reported(json, peer, rx, msgs) == Reported(json, peer, rx, WithoutVideo(msgs))
    decreases |msgs|
  {
    if msgs != [] {
      VideoIgnored(json, peer, Receive(json, peer, rx, msgs[0]).0, msgs[1..]);
      if StartsWith(msgs[0], VID) {
        assert WithoutVideo(msgs) == WithoutVideo(msgs[1..]);
      } else {
        assert WithoutVideo(msgs)[0] == msgs[0] && WithoutVideo(msgs)[1..] == WithoutVideo(msgs[1..]);
      }
    }
  }

  lemma {:induction false} RunAppend(json: Json, peer: Peer, rx: Option<FileRx>, a: seq<Bytes>, b: seq<Bytes>)
    ensures After(json, peer, rx, a + b) == After(json, peer, After(json, peer, rx, a), b)
    ensures Reported(json, peer, rx, a + b)
            == Reported(json, peer, rx, a) + Reported(json, peer, After(json, peer, rx, a), b)
    decreases |a|
  {
    if a == [] {
      assert a + b == b;
    } else {
      assert (a + b)[0] == a[0] && (a + b)[1..] == a[1..] + b;
      RunAppend(json, peer, Receive(json, peer, rx, a[0]).0, a[1..], b);
    }
  }

  lemma {:induction false} ChunksAppend(json: Json, peer: Peer, rx: FileRx, data: Bytes, i: nat)
    requires i <= |data|
    ensures After(json, peer, Some(rx), Chunks(data, i)) == Some(rx.(buf := rx.buf + data[i..]))
    ensures Reported(json, peer, Some(rx), Chunks(data, i)) == []
    decreases |data| - i
  {
    if i == |data| {
      assert rx.buf + data[i..] == rx.buf;
    } else {
      var end := if i + CHUNK > |data| then |data| else i + CHUNK;
      var frame := [DATA] + data[i..end];
      assert frame[0] == DATA && frame[1..] == data[i..end];
      assert Chunks(data, i)[0] == frame && Chunks(data, i)[1..] == Chunks(data, end);
      var rx' := rx.(buf := rx.buf + data[i..end]);
      DataFrame(json, peer, rx, data[i..end]);
      ChunksAppend(json, peer, rx', data, end);
      assert rx'.buf + data[end..] == rx.buf + data[i..];
    }
  }

  lemma DataFrame(json: Json, peer: Peer, rx: FileRx, chunk: Bytes)
    ensures Receive(json, peer, Some(rx), [DATA] + chunk) == (Some(rx.(buf := rx.buf + chunk)), [])
  {
    var frame := [DATA] + chunk;
    assert frame[0] == DATA && frame[1..] == chunk;
    if |frame| >= 3 {
      assert frame[..3][0] == DATA;
    }
  }

  lemma RunSingle(json: Json, peer: Peer, rx: Option<FileRx>, msg: Bytes)
    ensures After(json, peer, rx, [msg]) == Receive(json, peer, rx, msg).0
    ensures Reported(json, peer, rx, [msg]) == Receive(json, peer, rx, msg).1
  {
    var (rx', out) := Receive(json, peer, rx, msg);
    assert After(json, peer, rx', [msg][1..]) == rx' && Reported(json, peer, rx', [msg][1..]) == [];
  }

  lemma HeaderParses(json: Json, h: Header)
    requires json.Faithful()
    ensures ParseHeader(json, HDR + json.marshal(h) + [NEWLINE]) == Some(h)
  {
    var m := json.marshal(h);
    assert json.unmarshal(m) == Some(h) && NEWLINE !in m;
    var frame := HDR + m + [NEWLINE];
    var nl := IndexOf(frame, NEWLINE).value;
    assert frame[3 + |m|] == NEWLINE;
    assert forall i :: 3 <= i < 3 + |m| ==> frame[i] == m[i - 3];
    assert frame[0] == 72 && frame[1] == 68 && frame[2] == 82;
    assert frame[..nl + 1][nl] == NEWLINE;
    assert nl == 3 + |m|;
    assert frame[3..nl] == m && frame[..3] == HDR;
  }

  /** From any earlier state, even an abandoned transfer, the frames of one file
      yield exactly that file and leave no transfer behind. */
  lemma FramesRoundTrip(json: Json, peer: Peer, rx: Option<FileRx>, name: string, data: Bytes)
    requires json.Faithful()
    ensures After(json, peer, rx, Frames(json, name, data)) == None
    ensures Reported(json, peer, rx, Frames(json, name, data)) == [Received(peer, name, |data|, data)]
  {
    var h := Header(name, |data|);
    var hdr := HDR + json.marshal(h) + [NEWLINE];
    var open := FileRx(name, |data|, []);
    HeaderFrame(json, peer, rx, h);
    ChunksAppend(json, peer, open, data, 0);
    assert open.buf + data[0..] == data;
    RunAppend(json, peer, rx, [hdr], Chunks(data, 0));
    EndFrame(json, peer, open.(buf := data));
    RunAppend(json, peer, rx, [hdr] + Chunks(data, 0), [END]);
  }

  lemma HeaderFrame(json: Json, peer: Peer, rx: Option<FileRx>, h: Header)
    requires json.Faithful()
    ensures var frame := HDR + json.marshal(h) + [NEWLINE];
            && After(json, peer, rx, [frame]) == Some(FileRx(h.name, h.size, []))
            && Reported(json, peer, rx, [frame]) == []
  {
    var frame := HDR + json.marshal(h) + [NEWLINE];
    HeaderParses(json, h);
    assert frame[..3] == HDR && HDR[0] != VID[0];
    RunSingle(json, peer, rx, frame);
  }

  lemma EndFrame(json: Json, peer: Peer, rx: FileRx)
    ensures After(json, peer, Some(rx), [END]) == None
    ensures Reported(json, peer, Some(rx), [END]) == [Received(peer, rx.name, rx.size, rx.buf)]
  {
    assert END[..3] == END && END[0] != VID[0] && END[0] != HDR[0];
    RunSingle(json, peer, Some(rx), END);
  }

  /** End to end: whatever other peers send in between, and with any video
      frames interleaved, a transfer is reported exactly once, unchanged. */
  lemma TransferDelivered(json: Json, rx: map<Peer, FileRx>, arrivals: seq<Arrival>,
                          peer: Peer, name: string, data: Bytes)
    requires json.Faithful()
    requires WithoutVideo(Of(arrivals, peer)) == Frames(json, name, data)
    ensures FilesOf(ReportedAll(json, rx, arrivals), peer) == [Received(peer, name, |data|, data)]
    ensures peer !in AfterAll(json, rx, arrivals)
  {
    PeersIndependent(json, rx, arrivals, peer);
    VideoIgnored(json, peer, Lookup(rx, peer), Of(arrivals, peer));
    FramesRoundTrip(json, peer, Lookup(rx, peer), name, data);
  }

  /** Files sent one after the other are reported one after the other. */
  function FramesOfAll(json: Json, files: seq<(string, Bytes)>): seq<Bytes> {
    if files == [] then [] else Frames(json, files[0].0, files[0].1) + FramesOfAll(json, files[1..])
  }

  function Reports(peer: Peer, files: seq<(string, Bytes)>): seq<Received> {
    if files == [] then []
    else [Received(peer, files[0].0, |files[0].1|, files[0].1)] + Reports(peer, files[1..])
  }

  lemma {:induction false} TransfersInSequence(json: Json, peer: Peer, rx: Option<FileRx>, files: seq<(string, Bytes)>)
    requires json.Faithful()
    ensures Reported(json, peer, rx, FramesOfAll(json, files)) == Reports(peer, files)
    decreases |files|
  {
    if files != [] {
      FramesRoundTrip(json, peer, rx, files[0].0, files[0].1);
      RunAppend(json, peer, rx, Frames(json, files[0].0, files[0].1), FramesOfAll(json, files[1..]));
      TransfersInSequence(json, peer, None, files[1..]);
    }
  }
}
