/** The playback queue between the RTP reader and the audio callback
    (native_client/internal/chat/audio.go, drainRemote): a channel of ten
    frames, one producer and one callback that interleave between channel
    operations. */
module JitterBuffer {

  import opened Prelude

  const CAPACITY := 10

  /** A decoded frame and where it starts in the stream of all arrived samples. */
  datatype Frame = Frame(start: nat, samples: seq<int>) {
    function End(): nat { start + |samples| }
  }

  datatype Producer = Reading | Dropping(held: Frame) | Resending(held: Frame)

  datatype Callback = Idle | Filling(size: nat, n: nat)

  datatype State = State(
    queue: seq<Frame>,
    producer: Producer,
    callback: Callback,
    arrived: seq<int>,          // every decoded sample, in arrival order
    speaker: seq<int>,          // every sample handed to playback
    origin: seq<Option<nat>>,   // the arrived sample behind it; None is silence
    requested: nat)             // sizes of the finished callbacks

  function Init(): State {
    State([], Reading, Idle, [], [], [], 0)
  }

  datatype Event =
    | Arrive(pcm: seq<int>)
    | DropOldest
    | Send
    | Start(size: nat)
    | Take
    | Underrun
    | Return

  predicate Enabled(s: State, e: Event) {
    match e
    case Arrive(_) => s.producer.Reading?
    case DropOldest => s.producer.Dropping?
    case Send => s.producer.Resending? && |s.queue| < CAPACITY
    case Start(_) => s.callback.Idle?
    case Take => s.callback.Filling? && s.callback.n < s.callback.size && s.queue != []
    case Underrun => s.callback.Filling? && s.callback.n < s.callback.size && s.queue == []
    case Return => s.callback.Filling? && s.callback.n >= s.callback.size
  }

  function Silence(n: nat): seq<int> {
    seq(n, _ => 0)
  }

  function Positions(start: nat, n: nat): seq<Option<nat>> {
    seq(n, i requires 0 <= i < n => Some(start + i))
  }

  /** The first select: send if there is room. */
  function DoArrive(s: State, pcm: seq<int>): State {
    var f := Frame(|s.arrived|, pcm);
    var s' := s.(arrived := s.arrived + pcm);
    if |s.queue| < CAPACITY then s'.(queue := s.queue + [f]) else s'.(producer := Dropping(f))
  }

  /** One frame into the output; what does not fit is lost. */
  function DoTake(s: State): State
    requires Enabled(s, Take)
  {
    var f := s.queue[0];
    var k := Min(|f.samples|, s.callback.size - s.callback.n);
    s.(queue := s.queue[1..], callback := s.callback.(n := s.callback.n + k),
       speaker := s.speaker + f.samples[..k], origin := s.origin + Positions(f.start, k))
  }

  function DoUnderrun(s: State): State
    requires Enabled(s, Underrun)
  {
    var k := s.callback.size - s.callback.n;
    s.(callback := s.callback.(n := s.callback.size),
       speaker := s.speaker + Silence(k), origin := s.origin + seq(k, _ => None))
  }

  function Step(s: State, e: Event): State
    requires Enabled(s, e)
  {
    match e
    case Arrive(pcm) => DoArrive(s, pcm)
    case DropOldest =>
      s.(queue := if s.queue == [] then [] else s.queue[1..], producer := Resending(s.producer.held))
    case Send => s.(queue := s.queue + [s.producer.held], producer := Reading)
    case Start(size) => s.(callback := Filling(size, 0))
    case Take => DoTake(s)
    case Underrun => DoUnderrun(s)
    case Return => s.(callback := Idle, requested := s.requested + s.callback.size)
  }

  ghost predicate IsRun(s: State, es: seq<Event>)
    decreases |es|, 0
  {
    es == [] || (IsRun(s, es[..|es| - 1]) && Enabled(Exec(s, es[..|es| - 1]), es[|es| - 1]))
  }

  ghost function Exec(s: State, es: seq<Event>): State
    requires IsRun(s, es)
    decreases |es|, 1
  {
    if es == [] then s else Step(Exec(s, es[..|es| - 1]), es[|es| - 1])
  }

  // ---------- what every run keeps ----------

  predicate IsPiece(arrived: seq<int>, f: Frame) {
    f.End() <= |arrived| && arrived[f.start..f.End()] == f.samples
  }

  /** Frames not yet played, oldest first. */
  function Waiting(s: State): seq<Frame> {
    if s.producer.Reading? then s.queue else s.queue + [s.producer.held]
  }

  /** The channel has room for the frame the producer still holds. */
  predicate RoomInv(s: State) {
    |s.queue| <= CAPACITY && (s.producer.Resending? ==> |s.queue| < CAPACITY)
  }

  /** Output is written up to n and no further. */
  predicate FillInv(s: State) {
    && (s.callback.Filling? ==> s.callback.n <= s.callback.size)
    && |s.speaker| == s.requested + (if s.callback.Filling? then s.callback.n else 0)
  }

  /** Waiting frames are disjoint pieces of the arrived stream, in order. */
  predicate FramesInv(s: State) {
    var w := Waiting(s);
    && (forall k :: 0 <= k < |w| ==> IsPiece(s.arrived, w[k]))
    && (forall k, l :: 0 <= k < l < |w| ==> w[k].End() <= w[l].start)
  }

  /** Each played sample is silence or an arrived sample, the latter in arrival
      order and none twice. */
  ghost predicate IsPlayback(speaker: seq<int>, origin: seq<Option<nat>>, arrived: seq<int>) {
    && |origin| == |speaker|
    && (forall i :: 0 <= i < |origin| ==>
          if origin[i].None? then speaker[i] == 0
          else origin[i].value < |arrived| && speaker[i] == arrived[origin[i].value])
    && (forall i, j :: 0 <= i < j < |origin| && origin[i].Some? && origin[j].Some? ==>
          origin[i].value < origin[j].value)
  }

  /** Nothing waiting is older than what was played. */
  ghost predicate PlayedBefore(s: State) {
    forall i, k :: 0 <= i < |s.origin| && s.origin[i].Some? && 0 <= k < |Waiting(s)| ==>
      s.origin[i].value < Waiting(s)[k].start
  }

  ghost predicate Inv(s: State) {
    RoomInv(s) && FillInv(s) && FramesInv(s) && IsPlayback(s.speaker, s.origin, s.arrived) && PlayedBefore(s)
  }

  lemma PieceStays(arrived: seq<int>, pcm: seq<int>, f: Frame)
    requires IsPiece(arrived, f)
    ensures IsPiece(arrived + pcm, f)
  {
    assert (arrived + pcm)[f.start..f.End()] == arrived[f.start..f.End()];
  }

  lemma NewPiece(arrived: seq<int>, pcm: seq<int>)
    ensures IsPiece(arrived + pcm, Frame(|arrived|, pcm))
  {}

  lemma ArriveKeepsInv(s: State, pcm: seq<int>)
    requires Inv(s) && s.producer.Reading?
    ensures Inv(DoArrive(s, pcm))
  {
    var s' := DoArrive(s, pcm);
    assert Waiting(s') == Waiting(s) + [Frame(|s.arrived|, pcm)];
    forall k | 0 <= k < |Waiting(s')|
      ensures IsPiece(s'.arrived, Waiting(s')[k])
    {
      if k < |Waiting(s)| {
        PieceStays(s.arrived, pcm, Waiting(s)[k]);
      } else {
        NewPiece(s.arrived, pcm);
      }
    }
  }

  lemma ProducerKeepsInv(s: State, e: Event)
    requires Inv(s) && Enabled(s, e) && (e.DropOldest? || e.Send?)
    ensures Inv(Step(s, e))
  {
    var w, w' := Waiting(s), Waiting(Step(s, e));
    if e.Send? || s.queue == [] {
      assert w' == w;
    } else {
      assert w' == w[1..];
    }
  }

  /** Take plays the oldest frame, a piece of the stream. */
  lemma TakeIsOldest(s: State)
    requires FramesInv(s) && Enabled(s, Take)
    ensures Waiting(DoTake(s)) == Waiting(s)[1..] && s.queue[0] == Waiting(s)[0] && IsPiece(s.arrived, s.queue[0])
  {}

  /** The samples Take plays are those of the oldest frame. */
  lemma TakenSamples(s: State)
    requires Enabled(s, Take) && IsPiece(s.arrived, s.queue[0]) && s.callback.n <= s.callback.size
    requires |s.origin| == |s.speaker|
    ensures var s', f := DoTake(s), s.queue[0];
            && |s'.origin| == |s'.speaker|
            && forall i :: |s.origin| <= i < |s'.origin| ==>
                 && s'.origin[i] == Some(f.start + i - |s.origin|) && s'.origin[i].value < f.End() <= |s.arrived|
                 && s'.speaker[i] == s.arrived[f.start + i - |s.origin|]
  {
    var f := s.queue[0];
    PieceWritten(s.speaker, s.origin, s.arrived, f, Min(|f.samples|, s.callback.size - s.callback.n));
  }

  lemma PieceWritten(speaker: seq<int>, origin: seq<Option<nat>>, arrived: seq<int>, f: Frame, k: nat)
    requires IsPiece(arrived, f) && k <= |f.samples| && |origin| == |speaker|
    ensures var speaker', origin' := speaker + f.samples[..k], origin + Positions(f.start, k);
            && |origin'| == |speaker'|
            && forall i :: |origin| <= i < |origin'| ==>
                 && origin'[i] == Some(f.start + i - |origin|) && origin'[i].value < f.End() <= |arrived|
                 && speaker'[i] == arrived[f.start + i - |origin|]
  {
    forall i | 0 <= i < k
      ensures f.samples[i] == arrived[f.start + i]
    {
      assert f.samples[i] == arrived[f.start..f.End()][i];
    }
  }

  lemma TakeKeepsPlayback(s: State)
    requires Inv(s) && Enabled(s, Take)
    ensures IsPlayback(DoTake(s).speaker, DoTake(s).origin, s.arrived)
  {
    TakeIsOldest(s);
    TakenSamples(s);
    var s' := DoTake(s);
    forall i, j | 0 <= i < j < |s'.origin| && |s.origin| <= j && s'.origin[i].Some?
      ensures s'.origin[i].value < s'.origin[j].value
    {
      if i < |s.origin| {
        assert s'.origin[i] == s.origin[i] && s.origin[i].value < Waiting(s)[0].start;
      }
    }
    PlaybackExtended(s.speaker, s.origin, s.arrived, s'.speaker, s'.origin);
  }

  lemma TakeKeepsPlayedBefore(s: State)
    requires Inv(s) && Enabled(s, Take)
    ensures PlayedBefore(DoTake(s))
  {
    TakeIsOldest(s);
    TakenSamples(s);
    var s', w := DoTake(s), Waiting(s);
    forall i, k | 0 <= i < |s'.origin| && s'.origin[i].Some? && 0 <= k < |Waiting(s')|
      ensures s'.origin[i].value < Waiting(s')[k].start
    {
      assert Waiting(s')[k] == w[k + 1] && w[0].End() <= w[k + 1].start;
    }
  }

  lemma TakeKeepsInv(s: State)
    requires Inv(s) && Enabled(s, Take)
    ensures Inv(DoTake(s))
  {
    TakeIsOldest(s);
    TakenSamples(s);
    TakeKeepsPlayback(s);
    TakeKeepsPlayedBefore(s);
  }

  lemma PlaybackExtended(speaker: seq<int>, origin: seq<Option<nat>>, arrived: seq<int>,
                         speaker': seq<int>, origin': seq<Option<nat>>)
    requires IsPlayback(speaker, origin, arrived) && speaker <= speaker' && origin <= origin' && |origin'| == |speaker'|
    requires forall i :: |origin| <= i < |origin'| ==>
               if origin'[i].None? then speaker'[i] == 0
               else origin'[i].value < |arrived| && speaker'[i] == arrived[origin'[i].value]
    requires forall i, j :: 0 <= i < j < |origin'| && |origin| <= j && origin'[i].Some? && origin'[j].Some? ==>
               origin'[i].value < origin'[j].value
    ensures IsPlayback(speaker', origin', arrived)
  {}

  lemma CallbackKeepsInv(s: State, e: Event)
    requires Inv(s) && Enabled(s, e) && (e.Start? || e.Underrun? || e.Return?)
    ensures Inv(Step(s, e))
  {
    var s' := Step(s, e);
    assert Waiting(s') == Waiting(s);
    if e.Underrun? {
      PlaybackExtended(s.speaker, s.origin, s.arrived, s'.speaker, s'.origin);
    }
  }

  lemma {:induction false} EveryRunKeepsInv(es: seq<Event>)
    requires IsRun(Init(), es)
    ensures Inv(Exec(Init(), es))
  {
    if es != [] {
      var before, e := es[..|es| - 1], es[|es| - 1];
      EveryRunKeepsInv(before);
      var s := Exec(Init(), before);
      match e
      case Arrive(pcm) => ArriveKeepsInv(s, pcm);
      case Take => TakeKeepsInv(s);
      case DropOldest => ProducerKeepsInv(s, e);
      case Send => ProducerKeepsInv(s, e);
      case _ => CallbackKeepsInv(s, e);
    }
  }

  /** Under any interleaving: at most ten frames wait, the producer is never
      blocked, and neither is the callback. */
  lemma NeverBlocks(es: seq<Event>)
    requires IsRun(Init(), es)
    ensures var s := Exec(Init(), es);
            && |s.queue| <= 10
            && (s.producer.Resending? ==> Enabled(s, Send))
            && (s.callback.Filling? ==> Enabled(s, Take) || Enabled(s, Underrun) || Enabled(s, Return))
  {
    EveryRunKeepsInv(es);
  }

  /** A callback that returns has written exactly as many samples as it was
      asked for. */
  lemma CallbackFillsOutput(es: seq<Event>)
    requires IsRun(Init(), es) && Enabled(Exec(Init(), es), Return)
    ensures Exec(Init(), es).callback.n == Exec(Init(), es).callback.size
    ensures |Exec(Init(), es).speaker| == Step(Exec(Init(), es), Return).requested
  {
    EveryRunKeepsInv(es);
  }

  /** What was played, silence left out, is a subsequence of the samples in
      arrival order. */
  lemma PlaysArrivalOrder(es: seq<Event>)
    requires IsRun(Init(), es)
    ensures var s := Exec(Init(), es); IsPlayback(s.speaker, s.origin, s.arrived)
  {
    EveryRunKeepsInv(es);
  }

  // ---------- where every sample goes ----------

  /** Samples in these frames. */
  function Total(frames: seq<Frame>): nat {
    if frames == [] then 0 else |frames[0].samples| + Total(frames[1..])
  }

  /** Positions of the output that hold an arrived sample. */
  function Played(origin: seq<Option<nat>>): nat {
    if origin == [] then 0 else Played(origin[..|origin| - 1]) + if origin[|origin| - 1].Some? then 1 else 0
  }

  /** Samples a step loses: the oldest frame, to make room for a new one, or what
      of the oldest frame no longer fits into the output. */
  function LostBy(s: State, e: Event): nat
    requires Enabled(s, e) && FillInv(s)
  {
    match e
    case DropOldest => if s.queue == [] then 0 else |s.queue[0].samples|
    case Take =>
      var room := s.callback.size - s.callback.n;
      if |s.queue[0].samples| > room then |s.queue[0].samples| - room else 0
    case _ => 0
  }

  ghost function Lost(es: seq<Event>): nat
    requires IsRun(Init(), es)
  {
    if es == [] then 0
    else
      var before := es[..|es| - 1];
      EveryRunKeepsInv(before);
      Lost(before) + LostBy(Exec(Init(), before), es[|es| - 1])
  }

  /** Silence the underruns of a run have filled in. */
  ghost function Silenced(es: seq<Event>): nat
    requires IsRun(Init(), es)
  {
    if es == [] then 0
    else
      var before, e := es[..|es| - 1], es[|es| - 1];
      EveryRunKeepsInv(before);
      var s := Exec(Init(), before);
      Silenced(before) + if e.Underrun? then s.callback.size - s.callback.n else 0
  }

  lemma {:induction false} TotalAppend(a: seq<Frame>, b: seq<Frame>)
    ensures Total(a + b) == Total(a) + Total(b)
  {
    if a == [] {
      assert a + b == b;
    } else {
      assert (a + b)[1..] == a[1..] + b;
      TotalAppend(a[1..], b);
    }
  }

  lemma TotalOne(f: Frame)
    ensures Total([f]) == |f.samples|
  {}

  lemma {:induction false} PlayedAppend(a: seq<Option<nat>>, b: seq<Option<nat>>)
    ensures Played(a + b) == Played(a) + Played(b)
  {
    if b == [] {
      assert a + b == a;
    } else {
      assert (a + b)[..|a + b| - 1] == a + b[..|b| - 1];
      PlayedAppend(a, b[..|b| - 1]);
    }
  }

  lemma {:induction false} AllPlayed(b: seq<Option<nat>>, some: bool)
    requires forall i :: 0 <= i < |b| ==> b[i].Some? == some
    ensures Played(b) == if some then |b| else 0
  {
    if b != [] {
      AllPlayed(b[..|b| - 1], some);
    }
  }

  /** Arrived samples are played, waiting or lost. */
  ghost predicate Conserved(s: State, lost: nat, silenced: nat) {
    && |s.arrived| == Played(s.origin) + Total(Waiting(s)) + lost
    && |s.origin| == Played(s.origin) + silenced
  }

  lemma ArriveConserves(s: State, pcm: seq<int>, lost: nat, silenced: nat)
    requires Conserved(s, lost, silenced) && s.producer.Reading?
    ensures Conserved(DoArrive(s, pcm), lost, silenced)
  {
    var f := Frame(|s.arrived|, pcm);
    assert Waiting(DoArrive(s, pcm)) == Waiting(s) + [f];
    TotalAppend(Waiting(s), [f]);
    TotalOne(f);
  }

  lemma ProducerConserves(s: State, e: Event, lost: nat, silenced: nat)
    requires Conserved(s, lost, silenced) && Enabled(s, e) && (e.DropOldest? || e.Send?) && FillInv(s)
    ensures Conserved(Step(s, e), lost + LostBy(s, e), silenced)
  {
    if e.Send? || s.queue == [] {
      assert Waiting(Step(s, e)) == Waiting(s);
    } else {
      assert Waiting(Step(s, e)) == Waiting(s)[1..] && Waiting(s)[0] == s.queue[0];
    }
  }

  lemma TakeConserves(s: State, lost: nat, silenced: nat)
    requires Conserved(s, lost, silenced) && Enabled(s, Take) && FillInv(s) && FramesInv(s)
    ensures Conserved(DoTake(s), lost + LostBy(s, Take), silenced)
    ensures FillInv(DoTake(s))
  {
    TakeIsOldest(s);
    var k := Min(|s.queue[0].samples|, s.callback.size - s.callback.n);
    PlayedAppend(s.origin, Positions(s.queue[0].start, k));
    AllPlayed(Positions(s.queue[0].start, k), true);
  }

  lemma UnderrunConserves(s: State, lost: nat, silenced: nat)
    requires Conserved(s, lost, silenced) && Enabled(s, Underrun)
    ensures Conserved(DoUnderrun(s), lost, silenced + (s.callback.size - s.callback.n))
  {
    var k := s.callback.size - s.callback.n;
    assert Waiting(DoUnderrun(s)) == Waiting(s);
    PlayedAppend(s.origin, seq(k, _ => None));
    AllPlayed(seq(k, _ => None), false);
  }

  /** Over all interleavings every arrived sample has been played, is waiting, or
      was lost with a dropped frame or beyond the end of an output; and the rest
      of the output is the silence of underruns. */
  lemma {:induction false} EverySampleAccounted(es: seq<Event>)
    requires IsRun(Init(), es)
    ensures Conserved(Exec(Init(), es), Lost(es), Silenced(es))
  {
    if es != [] {
      var before, e := es[..|es| - 1], es[|es| - 1];
      EverySampleAccounted(before);
      EveryRunKeepsInv(before);
      var s := Exec(Init(), before);
      match e
      case Arrive(pcm) => ArriveConserves(s, pcm, Lost(before), Silenced(before));
      case Take => TakeConserves(s, Lost(before), Silenced(before));
      case DropOldest => ProducerConserves(s, e, Lost(before), Silenced(before));
      case Send => ProducerConserves(s, e, Lost(before), Silenced(before));
      case Underrun => UnderrunConserves(s, Lost(before), Silenced(before));
      case _ => assert Waiting(Step(s, e)) == Waiting(s);
    }
  }

  // ---------- the code between interleavings ----------

  lemma Extend(s: State, es: seq<Event>, e: Event)
    requires IsRun(s, es) && Enabled(Exec(s, es), e)
    ensures IsRun(s, es + [e]) && Exec(s, es + [e]) == Step(Exec(s, es), e)
  {
    assert (es + [e])[..|es|] == es;
  }

  /** The samples of the frames, one frame after the other. */
  function Joined(frames: seq<seq<int>>): seq<int> {
    if frames == [] then [] else Joined(frames[..|frames| - 1]) + frames[|frames| - 1]
  }

  lemma JoinedOneMore(frames: seq<seq<int>>, k: nat)
    requires k < |frames|
    ensures Joined(frames[..k + 1]) == Joined(frames[..k]) + frames[k]
  {
    assert frames[..k + 1][..k] == frames[..k];
  }

  /** The first k frames, and no fewer, fill the output; or there are only k, and
      silence follows them. */
  ghost predicate FilledFrom(frames: seq<seq<int>>, k: nat, output: seq<int>) {
    && k <= |frames|
    && output == (Joined(frames[..k]) + Silence(|output|))[..|output|]
    && (k < |frames| ==> |Joined(frames[..k])| >= |output|)
    && (k > 0 ==> |Joined(frames[..k - 1])| < |output|)
  }

  /** The loop of the callback after k frames and n samples. */
  ghost predicate FillingFrom(frames: seq<seq<int>>, k: nat, written: seq<int>, size: nat) {
    && k <= |frames| && |written| <= size
    && (if |written| < size then written == Joined(frames[..k]) else FilledFrom(frames, k, written))
  }

  lemma TakesOne(frames: seq<seq<int>>, k: nat, written: seq<int>, size: nat, more: seq<int>)
    requires FillingFrom(frames, k, written, size) && |written| < size && k < |frames|
    requires more == written + frames[k][..Min(|frames[k]|, size - |written|)]
    ensures FillingFrom(frames, k + 1, more, size)
  {
    JoinedOneMore(frames, k);
    assert frames[..k + 1 - 1] == frames[..k];
    if |more| == size {
      assert more == (Joined(frames[..k + 1]) + Silence(size))[..size];
    }
  }

  lemma EndsInSilence(frames: seq<seq<int>>, k: nat, written: seq<int>, size: nat, more: seq<int>)
    requires FillingFrom(frames, k, written, size) && |written| < size && k == |frames|
    requires more == written + Silence(size - |written|)
    ensures FillingFrom(frames, k, more, size)
  {
    assert more == (Joined(frames[..k]) + Silence(size))[..size];
    if k > 0 {
      JoinedOneMore(frames, k - 1);
    }
  }

  /** One round of the loop, from `left` to `left'` waiting frames. */
  ghost predicate IsRound(left: seq<seq<int>>, left': seq<seq<int>>, written: seq<int>, more: seq<int>, size: nat)
    requires |written| < size
  {
    if left == [] then left' == [] && more == written + Silence(size - |written|)
    else left' == left[1..] && more == written + left[0][..Min(|left[0]|, size - |written|)]
  }

  lemma RoundFills(frames: seq<seq<int>>, k: nat, left: seq<seq<int>>, left': seq<seq<int>>,
                   written: seq<int>, more: seq<int>, size: nat)
    returns (k': nat)
    requires FillingFrom(frames, k, written, size) && |written| < size && left == frames[k..]
    requires IsRound(left, left', written, more, size)
    ensures FillingFrom(frames, k', more, size) && left' == frames[k'..]
  {
    if left == [] {
      EndsInSilence(frames, k, written, size, more);
      k' := k;
    } else {
      TakesOne(frames, k, written, size, more);
      k' := k + 1;
    }
  }

  lemma SpokenSoFar(speaker: seq<int>, written: seq<int>, piece: seq<int>, more: seq<int>)
    requires |more| == |written| + |piece| && more[..|written|] == written && more[|written|..] == piece
    ensures more == written + piece && speaker + written + piece == speaker + more
  {}

  class Playback {
    var jitter: seq<seq<int>>

    ghost predicate Matches(s: State)
      reads this
    {
      |jitter| == |s.queue| && forall k :: 0 <= k < |jitter| ==> jitter[k] == s.queue[k].samples
    }

    constructor ()
      ensures Matches(Init())
    {
      jitter := [];
    }

    /** The body of the reading loop: its select statements are machine steps. */
    method Push(pcm: seq<int>, ghost s: State) returns (ghost es: seq<Event>)
      requires Matches(s) && s.producer.Reading? && RoomInv(s)
      modifies this
      ensures IsRun(s, es) && Matches(Exec(s, es)) && Exec(s, es).producer.Reading?
      ensures Exec(s, es).arrived == s.arrived + pcm
      ensures jitter == (if |old(jitter)| < 10 then old(jitter) else old(jitter)[1..]) + [pcm]
    {
      es := [Arrive(pcm)];
      Extend(s, [], Arrive(pcm));
      assert [] + [Arrive(pcm)] == es;
      if |jitter| < CAPACITY {
        jitter := jitter + [pcm];
      } else {
        Extend(s, es, DropOldest);
        es := es + [DropOldest];
        if |jitter| > 0 {
          jitter := jitter[1..];
        }
        Extend(s, es, Send);
        es := es + [Send];
        jitter := jitter + [pcm];
      }
    }

    /** One round of the callback's loop. */
    method FillSome(out: array<int>, n: nat, ghost s: State) returns (n': nat, ghost e: Event)
      requires Matches(s) && n < out.Length && s.callback == Filling(out.Length, n)
      modifies this, out
      ensures Enabled(s, e) && Matches(Step(s, e)) && Step(s, e).requested == s.requested
      ensures n <= n' <= out.Length && Step(s, e).callback == Filling(out.Length, n')
      ensures out[..n] == old(out[..n]) && Step(s, e).speaker == s.speaker + out[n..n']
      ensures IsRound(old(jitter), jitter, old(out[..n]), out[..n'], out.Length)
    {
      if jitter != [] {
        e := Take;
        var frame := jitter[0];
        jitter := jitter[1..];
        CopyInto(out, n, frame[..Min(|frame|, out.Length - n)]);
        n' := n + |frame|;
        if n' > out.Length {
          n' := out.Length;
        }
        assert out[..n'] == out[..n] + out[n..n'];
      } else {
        e := Underrun;
        CopyInto(out, n, Silence(out.Length - n));
        n' := out.Length;
        assert out[..n'] == out[..n] + out[n..n'];
      }
    }

    /** The callback. Undisturbed it takes frames until they fill the output, and
        then silence; its receives are machine steps, and the speaker gets the
        whole output. */
    method Fill(out: array<int>, ghost s: State) returns (ghost es: seq<Event>, ghost k: nat)
      requires Matches(s) && s.callback.Idle?
      modifies this, out
      ensures IsRun(s, es) && Matches(Exec(s, es)) && Exec(s, es).callback.Idle?
      ensures Exec(s, es).speaker == s.speaker + out[..]
      ensures Exec(s, es).requested == s.requested + out.Length
      ensures FilledFrom(old(jitter), k, out[..]) && jitter == old(jitter)[k..]
    {
      es := [Start(out.Length)];
      Extend(s, [], Start(out.Length));
      assert [] + [Start(out.Length)] == es;
      ghost var t := Step(s, Start(out.Length));
      es, t, k := FillAll(out, s, es, t);
      Extend(s, es, Return);
      es := es + [Return];
    }

    /** The callback's loop. */
    method FillAll(out: array<int>, ghost s: State, ghost es0: seq<Event>, ghost t0: State)
      returns (ghost es: seq<Event>, ghost t: State, ghost k: nat)
      requires IsRun(s, es0) && t0 == Exec(s, es0) && Matches(t0) && t0.callback == Filling(out.Length, 0)
      modifies this, out
      ensures IsRun(s, es) && t == Exec(s, es) && Matches(t) && t.requested == t0.requested
      ensures t.callback == Filling(out.Length, out.Length) && t.speaker == t0.speaker + out[..]
      ensures FilledFrom(old(jitter), k, out[..]) && jitter == old(jitter)[k..]
    {
      es, t, k := es0, t0, 0;
      var n := 0;
      ghost var frames := jitter;
      while n < out.Length
        invariant 0 <= n <= out.Length
        invariant FillingFrom(frames, k, out[..n], out.Length) && jitter == frames[k..]
        invariant IsRun(s, es) && t == Exec(s, es)
        invariant Matches(t) && t.callback == Filling(out.Length, n) && t.requested == t0.requested
        invariant t.speaker == t0.speaker + out[..n]
        decreases out.Length - n, |jitter|
      {
        ghost var n0, e, written, left := n, Take, out[..n], jitter;
        n, e := FillSome(out, n, t);
        k := RoundFills(frames, k, left, jitter, written, out[..n], out.Length);
        SpokenSoFar(t0.speaker, written, out[n0..n], out[..n]);
        Extend(s, es, e);
        es, t := es + [e], Step(t, e);
      }
      assert out[..n] == out[..];
    }
  }

  method CopyInto(out: array<int>, n: nat, samples: seq<int>)
    requires n + |samples| <= out.Length
    modifies out
    ensures out[..n] == old(out[..n]) && out[n..n + |samples|] == samples
    ensures out[n + |samples|..] == old(out[n + |samples|..])
  {
    for i := 0 to |samples|
      invariant out[..n] == old(out[..n]) && out[n..n + i] == samples[..i]
      invariant out[n + |samples|..] == old(out[n + |samples|..])
    {
      out[n + i] := samples[i];
    }
  }
}
