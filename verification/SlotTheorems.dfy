/** What holds in every state of every run of the protocol.

    A send is one step in these runs.  Flow control, the ring, conservation and progress do not depend on
    that: they follow from Core, which SlotSends and LockedRing keep however sends interleave.  The echo and
    the sequence numbers do: they carry over as long as sends stay apart on each slot
    (SlotSends.MatchesRun), and not without that (SendWitness.SendsRace). */
module SlotTheorems {
  import opened Bitmap
  import opened Codec
  import opened SlotRing
  import opened SlotInvariants

  lemma {:induction false} InvAlways(c: Config, r: Run, i: nat)
    requires IsRun(c, r) && i < |r.states|
    ensures Inv(c, r.states[i])
    decreases i
  {
    hide Inv, Next, Init;
    if i == 0 {
      InvInit(c);
    } else {
      InvAlways(c, r, i - 1);
      InvKept(c, r.states[i - 1], r.steps[i - 1], r.states[i]);
    }
  }

  // ---------------------------------------------------------------- flow control

  function InHand(s: State): nat {
    if s.handler.Idle? then 0 else 1
  }

  /** Unfinished requests never outnumber the set bits, hence never the buffers; and requests whose
      response has yet to land never outnumber the receives posted or about to be posted again. */
  lemma FlowControl(c: Config, r: Run, i: nat)
    requires IsRun(c, r) && i < |r.states|
    ensures var s := r.states[i];
      && Unfinished(s) <= SetCount(s.bits) <= c.n
      && Unanswered(s) <= |s.posted| + (if s.handler.Idle? then 0 else 1)
      && (s.handler.Polled? ==> Unanswered(s) <= |s.posted|)
  {
    InvAlways(c, r, i);
    CoreOf(c, r.states[i]);
    CoreBounds(c, r.states[i]);
  }

  /** The bounds need no more than the core of the invariant. */
  lemma CoreBounds(c: Config, s: State)
    requires Core(c, s)
    ensures Unfinished(s) <= SetCount(s.bits) <= c.n
    ensures Unanswered(s) <= |s.posted| + InHand(s)
    ensures s.handler.Polled? ==> Unanswered(s) <= |s.posted|
    ensures Ring(s) == Rotation(c.n, Reposts(s))
  {
    hide ReadHeader;
    assert |Ring(s)| == c.n;
  }

  /** The ring is a rotation of all buffers, and the k-th handled response is in buffer k mod n. */
  lemma RingRotation(c: Config, r: Run, i: nat, k: nat)
    requires IsRun(c, r) && i < |r.states|
    ensures var s := r.states[i]; Reposts(s) >= 0 && Ring(s) == Rotation(c.n, Reposts(s))
    ensures forall a, b :: 0 <= a < b < |Ring(r.states[i])| ==> Ring(r.states[i])[a] != Ring(r.states[i])[b]
    ensures k < |r.states[i].log| ==> r.states[i].log[k].buf == k % c.n
  {
    InvAlways(c, r, i);
    RotationDistinct(c.n, Reposts(r.states[i]));
  }

  lemma {:induction false} TraceAlways(c: Config, r: Run, i: nat)
    requires IsRun(c, r) && i < |r.states|
    ensures TraceInv(r.states[i])
    decreases i
  {
    if i > 0 {
      TraceAlways(c, r, i - 1);
      InvAlways(c, r, i - 1);
      TraceKept(c, r.states[i - 1], r.steps[i - 1], r.states[i]);
    }
  }

  /** Every request is unfinished, lost to a failed send, or finished; the finished ones are those
      dispatched, each of them once, and the three kinds add up. */
  lemma Conservation(c: Config, r: Run, i: nat)
    requires IsRun(c, r) && i < |r.states|
    ensures var s := r.states[i];
      && (forall k :: 0 <= k < |s.at| ==> (s.at[k].Done? <==> InLog(s, k)))
      && (forall j :: 0 <= j < |s.log| ==> s.log[j].req < |s.at|)
      && (forall j, j' :: 0 <= j < j' < |s.log| ==> s.log[j].req != s.log[j'].req)
      && |s.at| == Unfinished(s) + |s.log| + LostSends(s)
  {
    hide ReadHeader, RingInv, FlowInv, SeqnInv;
    InvAlways(c, r, i);
    TraceAlways(c, r, i);
  }

  // ---------------------------------------------------------------- where the set bits go

  /** A response handled although its buffer's bit was already clear: its own slot's bit stays set. */
  predicate WastedFree(s: State, t: Step) {
    t.Handle? && s.handler.Polled? && s.handler.buf < |s.bits| && !s.bits[s.handler.buf]
  }

  /** How often that happened before state `i`. */
  function Wasted(r: Run, i: nat): nat
    requires i < |r.states| == |r.steps| + 1
  {
    if i == 0 then 0 else Wasted(r, i - 1) + if WastedFree(r.states[i - 1], r.steps[i - 1]) then 1 else 0
  }

  lemma BitsStep(c: Config, s: State, t: Step, s': State)
    requires Inv(c, s) && Next(c, s, t, s')
    ensures SetCount(s'.bits) == SetCount(s.bits)
      + (if t.Alloc? then 1 else if t.Handle? && !WastedFree(s, t) then -1 else 0)
  {
    hide ReadField, Wire, RingInv, SeqnInv, CountInv, FlowInv;
    match t
    case Alloc =>
      SetCountUpdate(s.bits, FirstClear(s.bits), true);
    case Handle =>
      assert s'.bits == s.bits[s.handler.buf := false];
      SetCountUpdate(s.bits, s.handler.buf, false);
    case _ =>
  }

  /** Every set bit is accounted for, in every state of every run: by an unfinished request, a lost
      send, or a response that found its buffer's bit already clear. */
  lemma {:induction false} BitsAccounted(c: Config, r: Run, i: nat)
    requires IsRun(c, r) && i < |r.states|
    ensures var s := r.states[i]; SetCount(s.bits) == Unfinished(s) + LostSends(s) + Wasted(r, i)
    decreases i
  {
    hide Inv, Next, Init, WastedFree, Tally, SetCount;
    if i == 0 {
      NothingTaken(c);
    } else {
      InvAlways(c, r, i - 1);
      BitsAccounted(c, r, i - 1);
      BitsStep(c, r.states[i - 1], r.steps[i - 1], r.states[i]);
      CountsStep(c, r.states[i - 1], r.steps[i - 1], r.states[i]);
    }
  }

  lemma NothingTaken(c: Config)
    requires Ok(c)
    ensures SetCount(Init(c).bits) == 0 && Unfinished(Init(c)) == 0 && LostSends(Init(c)) == 0
  {
    NoneSet(Init(c).bits);
  }

  /** TallyStep where only the invariant is known. */
  lemma CountsStep(c: Config, s: State, t: Step, s': State)
    requires Inv(c, s) && Next(c, s, t, s')
    ensures Unfinished(s') == Unfinished(s) + (if t.Alloc? then 1 else if t.SendFails? || t.Handle? then -1 else 0)
    ensures LostSends(s') == LostSends(s) + (if t.SendFails? then 1 else 0)
    ensures !t.Handle? ==> !WastedFree(s, t)
  {
    TallyStep(c, s, t, s');
  }

  // ---------------------------------------------------------------- no stall

  /** A step that takes a request nearer to being finished. */
  predicate Progress(t: Step) {
    !t.Alloc? && !t.Spin? && !t.SendFails?
  }

  const RANK: Loc -> nat := (l: Loc) =>
    match l
    case Taken => 6
    case AtServer(_) => 5
    case Answered(_) => 4
    case Queued(_) => 3
    case InHandler => 2
    case _ => 0

  /** How many progress steps are left. */
  function Rank(s: State): nat {
    Tally(s.at, RANK) + (if s.handler.Freed? then 1 else 0)
  }

  lemma {:induction false} RankBound(at: seq<Loc>)
    ensures Tally(at, UNFINISHED) * 2 <= Tally(at, RANK) <= Tally(at, UNFINISHED) * 6
  {
    if at != [] {
      RankBound(at[..|at| - 1]);
    }
  }

  lemma RankStep(c: Config, s: State, t: Step, s': State)
    requires Core(c, s) && Next(c, s, t, s') && Progress(t)
    ensures Rank(s') == Rank(s) - 1
  {
    hide ReadHeader, Wire, ClearAll, FirstClear, FlowInv, ChannelInv, RingInv, CountInv;
    match t
    case Send(r, _, _) => TallyUpdate(s.at, r, s'.at[r], RANK);
    case Answer(r, _, _, _) => TallyUpdate(s.at, r, s'.at[r], RANK);
    case Deliver(r) => TallyUpdate(s.at, r, s'.at[r], RANK);
    case Poll => TallyUpdate(s.at, s.cq[0].req, InHandler, RANK);
    case Handle => TallyUpdate(s.at, s.handler.req, Done, RANK);
    case Repost =>
  }

  /** A step that is possible whenever something is left to do. */
  lemma ProgressPossible(c: Config, s: State) returns (t: Step)
    requires Core(c, s) && Rank(s) > 0
    ensures Progress(t) && Enabled(c, s, t)
  {
    hide ReadHeader, Wire, ChannelInv;
    if s.handler.Polled? {
      return Handle;
    } else if s.handler.Freed? {
      return Repost;
    } else if s.cq != [] {
      return Poll;
    }
    assert |s.posted| == c.n by {
      assert |Ring(s)| == c.n;
    }
    RankBound(s.at);
    var k := TallyWitness(s.at, UNANSWERED);
    var blank: seq<byte> := seq(c.size, _ => 0);
    t := match s.at[k]
      case Taken => Send(k, 0, blank)
      case AtServer(_) => Answer(k, Little, 1, blank)
      case _ => Deliver(k);
  }

  /** While sends succeed, a full bitmap always has an unfinished request behind it; and while any
      request is unfinished a step other than a retry is possible, whatever slots were freed. */
  lemma NoStall(c: Config, r: Run, i: nat) returns (t: Step)
    requires IsRun(c, r) && i < |r.states|
    ensures var s := r.states[i];
      && (LostSends(s) == 0 && FirstClear(s.bits) == c.n ==> Unfinished(s) > 0)
      && Shape(c, s)
      && (Unfinished(s) > 0 ==> Progress(t) && Enabled(c, s, t))
  {
    var s := r.states[i];
    InvAlways(c, r, i);
    RankBound(s.at);
    if Rank(s) > 0 {
      CoreOf(c, s);
      t := ProgressPossible(c, s);
    } else {
      t := Spin;
    }
  }

  /** Exactly when a run is stuck, able only to retry for ever: nothing is unfinished or about to be
      posted again, and lost sends and wasted frees together are as many as the buffers. */
  lemma StuckExactly(c: Config, r: Run, i: nat)
    requires IsRun(c, r) && i < |r.states|
    ensures var s := r.states[i];
      && Shape(c, s)
      && ((forall t :: Enabled(c, s, t) <==> t.Spin?) <==>
          Unfinished(s) == 0 && !s.handler.Freed? && LostSends(s) + Wasted(r, i) == c.n)
      && (Unfinished(s) == 0 ==> (FirstClear(s.bits) == c.n <==> LostSends(s) + Wasted(r, i) == c.n))
  {
    var s := r.states[i];
    InvAlways(c, r, i);
    BitsAccounted(c, r, i);
    FullCount(s.bits);
    hide IsRun, RingInv, EchoInv, FlowInv, SeqnInv, FirstClear, SetCount, ReadHeader, Wasted;
    RankBound(s.at);
    if Unfinished(s) == 0 && !s.handler.Freed? {
      RestingSteps(c, s);
    } else {
      CoreOf(c, s);
      var t := ProgressPossible(c, s);
      assert !t.Spin?;
    }
  }

  /** With no progress left to make, only the requesters can move. */
  lemma RestingSteps(c: Config, s: State)
    requires Inv(c, s) && Unfinished(s) == 0 && !s.handler.Freed?
    ensures forall t :: Enabled(c, s, t) ==> t.Alloc? || t.Spin?
    ensures Enabled(c, s, Spin) <==> FirstClear(s.bits) == c.n
    ensures Enabled(c, s, Alloc) <==> FirstClear(s.bits) < c.n
  {
    hide RingInv, EchoInv, FlowInv, SeqnInv, ReadHeader;
    forall k | 0 <= k < |s.at|
      ensures s.at[k].Lost? || s.at[k].Done?
    {
      TallyAtLeast(s.at, k, UNFINISHED);
    }
  }

  /** How many of the steps from state `i` to state `j` are not retries. */
  function Moves(r: Run, i: nat, j: nat): nat
    requires i <= j <= |r.steps|
  {
    if i == j then 0 else Moves(r, i, j - 1) + if r.steps[j - 1].Spin? then 0 else 1
  }

  /** Without new requests, whatever else happens, failed sends included: at most six steps per
      unfinished request and one re-post, retries aside. */
  lemma {:induction false} ProgressIsBounded(c: Config, r: Run, i: nat, j: nat)
    requires IsRun(c, r) && i <= j < |r.states|
    requires forall k :: i <= k < j ==> !r.steps[k].Alloc?
    ensures Moves(r, i, j) <= 6 * Unfinished(r.states[i]) + 1 <= 6 * c.n + 1
  {
    RankFalls(c, r, i, j);
    RankBound(r.states[i].at);
    FlowControl(c, r, i);
  }

  lemma {:induction false} RankFalls(c: Config, r: Run, i: nat, j: nat)
    requires IsRun(c, r) && i <= j < |r.states|
    requires forall k :: i <= k < j ==> !r.steps[k].Alloc?
    ensures Rank(r.states[j]) + Moves(r, i, j) <= Rank(r.states[i])
    decreases j
  {
    hide Inv, Core, Next, Rank;
    if i < j {
      RankFalls(c, r, i, j - 1);
      InvAlways(c, r, j - 1);
      CoreOf(c, r.states[j - 1]);
      RankStepBound(c, r.states[j - 1], r.steps[j - 1], r.states[j]);
    }
  }

  lemma RankStepBound(c: Config, s: State, t: Step, s': State)
    requires Core(c, s) && Next(c, s, t, s') && !t.Alloc?
    ensures Rank(s') + (if t.Spin? then 0 else 1) <= Rank(s)
  {
    hide ReadHeader, Wire, FlowInv, ChannelInv, RingInv;
    match t
    case Spin =>
    case SendFails(q, _) => TallyUpdate(s.at, q, Lost, RANK);
    case _ => RankStep(c, s, t, s');
  }

  function Last(r: Run): State
    requires r.states != []
  {
    r.states[|r.states| - 1]
  }

  /** The run with one more step. */
  lemma Extend(c: Config, r: Run, t: Step) returns (r': Run)
    requires IsRun(c, r) && Shape(c, Last(r)) && Enabled(c, Last(r), t)
    ensures IsRun(c, r') && r'.steps == r.steps + [t]
    ensures r'.states == r.states + [Apply(c, Last(r), t)] && Last(r') == Apply(c, Last(r), t)
    ensures Next(c, Last(r), t, Last(r'))
  {
    hide Apply, Enabled, Shape, Init;
    r' := Run(r.states + [Apply(c, Last(r), t)], r.steps + [t]);
    forall i | 0 <= i < |r'.steps|
      ensures Next(c, r'.states[i], r'.steps[i], r'.states[i + 1])
    {
      if i < |r.steps| {
        assert Next(c, r.states[i], r.steps[i], r.states[i + 1]);
      }
    }
  }

  lemma FlowAtRest(c: Config, s: State)
    requires Core(c, s)
    ensures LostSends(s) == 0 && Unfinished(s) == 0 ==> FirstClear(s.bits) < c.n
  {
  }

  lemma OneStep(c: Config, s: State, t: Step, s': State)
    requires Core(c, s) && Next(c, s, t, s') && Progress(t)
    ensures Rank(s') == Rank(s) - 1 && LostSends(s') == LostSends(s)
  {
    RankStep(c, s, t, s');
    TallyStep(c, s, t, s');
  }

  /** Every run can be brought to rest within a bounded number of progress steps; then no request
      is unfinished and, unless a send was lost, the next requester finds a clear bit. */
  lemma {:induction false} Drains(c: Config, r: Run) returns (r': Run)
    requires IsRun(c, r)
    ensures IsRun(c, r') && r.steps <= r'.steps
    ensures |r'.steps| == |r.steps| + Rank(Last(r)) <= |r.steps| + 6 * c.n + 1
    ensures forall k :: |r.steps| <= k < |r'.steps| ==>
      var t := r'.steps[k]; !t.Alloc? && !t.Spin? && !t.SendFails?
    ensures Unfinished(Last(r')) == 0 && LostSends(Last(r')) == LostSends(Last(r))
    ensures LostSends(Last(r)) == 0 ==> FirstClear(Last(r').bits) < c.n
    decreases Rank(Last(r))
  {
    hide Apply, Enabled, Shape, Inv, Core, Next, Init;
    var s := Last(r);
    InvAlways(c, r, |r.steps|);
    CoreOf(c, s);
    RankBound(s.at);
    FlowAtRest(c, s);
    FlowControl(c, r, |r.steps|);
    if Rank(s) == 0 {
      r' := r;
    } else {
      var t := ProgressPossible(c, s);
      var r1 := Extend(c, r, t);
      OneStep(c, s, t, Last(r1));
      r' := Drains(c, r1);
      assert r1.steps[|r.steps|] == t;
    }
  }

  // ---------------------------------------------------------------- the echo

  /** Every dispatch carries the channel and wait queue of a different, already finished request of
      this channel, and its sequence number too unless that number was 0.  A send is one step here. */
  lemma EndToEndEcho(c: Config, r: Run, i: nat, k: nat)
    requires IsRun(c, r) && i < |r.states| && k < |r.states[i].log|
    ensures var s := r.states[i]; var d := s.log[k];
      && |s.at| == |s.hdr| && d.req < |s.at| && s.at[d.req].Done?
      && d.hdr.ch == c.ch && d.hdr.sem == s.hdr[d.req].sem
      && (s.hdr[d.req].seqn != 0 ==> d.hdr == s.hdr[d.req])
      && (forall j :: 0 <= j < |s.log| && j != k ==> s.log[j].req != d.req)
  {
    InvAlways(c, r, i);
  }

  // ---------------------------------------------------------------- sequence numbers

  /** The k-th send on a slot carries k+1 modulo 2^64, counting from 1, and is the number in the
      header its request was sent with.  A send is one step here. */
  lemma SequenceNumbers(c: Config, r: Run, i: nat, j: nat)
    requires IsRun(c, r) && i < |r.states| && j < |r.states[i].sends|
    ensures var s := r.states[i]; var m := s.sends[j];
      && m.seqn == (SendsOn(s.sends[..j + 1], m.slot) + 1) % TWO_TO_THE_64
      && |s.hdr| == |s.slotOf| && m.req < |s.hdr|
      && m.slot == s.slotOf[m.req] && m.seqn == s.hdr[m.req].seqn
  {
    InvAlways(c, r, i);
    var sends := r.states[i].sends;
    assert sends[..j + 1][..j] == sends[..j];
  }

  lemma {:induction false} SendsOnMonotone(sends: seq<Numbered>, b: nat, i: nat, j: nat)
    requires i <= j <= |sends|
    ensures SendsOn(sends[..i], b) <= SendsOn(sends[..j], b)
    decreases j - i
  {
    if i < j {
      SendsOnMonotone(sends, b, i, j - 1);
      assert sends[..j][..j - 1] == sends[..j - 1];
    }
  }

  lemma LastIsOn(sends: seq<Numbered>, j: nat)
    requires j < |sends|
    ensures SendsOn(sends[..j + 1], sends[j].slot) == SendsOn(sends[..j], sends[j].slot) + 1
  {
    assert sends[..j + 1][..j] == sends[..j];
  }

  /** For the first 2^64 - 2 sends on a slot, each one step, the numbers are nonzero and strictly increase. */
  lemma NumbersIncrease(c: Config, r: Run, i: nat, a: nat, b: nat)
    requires IsRun(c, r) && i < |r.states| && a < b < |r.states[i].sends|
    requires var s := r.states[i].sends; s[a].slot == s[b].slot && SendsOn(s[..b], s[b].slot) < TWO_TO_THE_64 - 2
    ensures 0 < r.states[i].sends[a].seqn < r.states[i].sends[b].seqn
  {
    hide IsRun, SendsOn;
    var s := r.states[i].sends;
    SequenceNumbers(c, r, i, a);
    SequenceNumbers(c, r, i, b);
    SendsOnMonotone(s, s[a].slot, a + 1, b);
    LastIsOn(s, a);
    LastIsOn(s, b);
  }

  /** No header is changed on the way as long as its slot has made fewer than 2^64 - 1 sends: number 0,
      the one a server replaces, is drawn by every 2^64-th send on a slot, from the (2^64-1)-th on.  A
      send is one step here. */
  lemma WholeHeaderEcho(c: Config, r: Run, i: nat, k: nat)
    requires IsRun(c, r) && i < |r.states| && k < |r.states[i].log|
    ensures var s := r.states[i]; var d := s.log[k];
      && |s.at| == |s.hdr| == |s.slotOf| && d.req < |s.at|
      && InSends(s, d.req)
      && forall j :: 0 <= j < |s.sends| && s.sends[j].req == d.req ==>
        var th := SendsOn(s.sends[..j + 1], s.slotOf[d.req]);
        && (s.hdr[d.req].seqn == 0 <==> (th + 1) % TWO_TO_THE_64 == 0)
        && (d.hdr == s.hdr[d.req] || (th + 1) % TWO_TO_THE_64 == 0)
    ensures var s := r.states[i]; var d := s.log[k];
      SendsOn(s.sends, s.slotOf[d.req]) < TWO_TO_THE_64 - 1 ==> d.hdr == s.hdr[d.req]
  {
    hide SendsOn, Wrap, InSends;
    var s := r.states[i];
    var d := s.log[k];
    EndToEndEcho(c, r, i, k);
    TraceAlways(c, r, i);
    SlotsOf(c, r, i);
    assert InSends(s, d.req);
    forall j | 0 <= j < |s.sends| && s.sends[j].req == d.req
      ensures var th := SendsOn(s.sends[..j + 1], s.slotOf[d.req]);
        && (s.hdr[d.req].seqn == 0 <==> (th + 1) % TWO_TO_THE_64 == 0)
        && 0 < th <= SendsOn(s.sends, s.slotOf[d.req])
    {
      SequenceNumbers(c, r, i, j);
      SendsOnMonotone(s.sends, s.slotOf[d.req], j + 1, |s.sends|);
      assert s.sends[..|s.sends|] == s.sends;
      LastIsOn(s.sends, j);
    }
    SomeSend(s, d.req);
  }

  lemma SomeSend(s: State, k: nat)
    requires InSends(s, k)
    ensures exists j :: 0 <= j < |s.sends| && s.sends[j].req == k
  {
  }

  lemma SlotsOf(c: Config, r: Run, i: nat)
    requires IsRun(c, r) && i < |r.states|
    ensures Shape(c, r.states[i])
  {
    InvAlways(c, r, i);
  }

  /** The sum of `counter - 1` over the slots. */
  function Counters(seqn: seq<u64>): int {
    if seqn == [] then 0 else seqn[|seqn| - 1] - 1 + Counters(seqn[..|seqn| - 1])
  }

  function SendsBelow(sends: seq<Numbered>, n: nat): nat {
    if n == 0 then 0 else SendsOn(sends, n - 1) + SendsBelow(sends, n - 1)
  }

  lemma {:induction false} SendsBelowPush(sends: seq<Numbered>, m: Numbered, n: nat)
    ensures SendsBelow(sends + [m], n) == SendsBelow(sends, n) + (if m.slot < n then 1 else 0)
  {
    if n > 0 {
      assert (sends + [m])[..|sends|] == sends;
      SendsBelowPush(sends, m, n - 1);
    }
  }

  lemma {:induction false} SendsBelowAll(sends: seq<Numbered>, n: nat)
    requires forall j :: 0 <= j < |sends| ==> sends[j].slot < n
    ensures SendsBelow(sends, n) == |sends|
  {
    if sends == [] {
      NoSends(n);
    } else {
      var most, m := sends[..|sends| - 1], sends[|sends| - 1];
      SendsBelowAll(most, n);
      SendsBelowPush(most, m, n);
      assert sends == most + [m];
    }
  }

  lemma {:induction false} NoSends(n: nat)
    ensures SendsBelow([], n) == 0
  {
    if n > 0 {
      NoSends(n - 1);
    }
  }

  lemma {:induction false} CountersAreSends(seqn: seq<u64>, sends: seq<Numbered>, n: nat)
    requires n <= |seqn| && |sends| < TWO_TO_THE_64 - 1
    requires forall b :: 0 <= b < |seqn| ==> seqn[b] == Wrap(1 + SendsOn(sends, b))
    ensures Counters(seqn[..n]) == SendsBelow(sends, n)
  {
    if n > 0 {
      assert seqn[..n][..n - 1] == seqn[..n - 1];
      CountersAreSends(seqn, sends, n - 1);
    }
  }

  /** Before any counter can wrap, the counters account for every send made, and only for those, each send
      being one step. */
  lemma CountersBalance(c: Config, r: Run, i: nat)
    requires IsRun(c, r) && i < |r.states| && |r.states[i].sends| < TWO_TO_THE_64 - 1
    ensures Counters(r.states[i].seqn) == |r.states[i].sends|
  {
    var s := r.states[i];
    InvAlways(c, r, i);
    CountersAreSends(s.seqn, s.sends, c.n);
    SendsBelowAll(s.sends, c.n);
    assert s.seqn[..c.n] == s.seqn;
  }

  /** The send on which a slot's count reaches `m`. */
  lemma {:induction false} Reaches(sends: seq<Numbered>, b: nat, m: nat) returns (j: nat)
    requires 0 < m <= SendsOn(sends, b)
    ensures j < |sends| && sends[j].slot == b && SendsOn(sends[..j + 1], b) == m
  {
    j := |sends| - 1;
    var most := sends[..j];
    if SendsOn(most, b) >= m {
      j := Reaches(most, b, m);
      assert most[..j + 1] == sends[..j + 1];
    } else {
      assert sends[..j + 1] == sends;
    }
  }

  lemma {:induction false} FewOnEach(sends: seq<Numbered>, n: nat, m: nat)
    requires forall b :: 0 <= b < n ==> SendsOn(sends, b) <= m
    ensures SendsBelow(sends, n) <= n * m
  {
    if n > 0 {
      FewOnEach(sends, n - 1, m);
      assert n * m == (n - 1) * m + m;
    }
  }

  /** Numbers do run out: among any n * (2^64 - 2) + 1 sends, each one step, some request was given
      number 0. */
  lemma NumbersRunOut(c: Config, r: Run, i: nat) returns (j: nat)
    requires IsRun(c, r) && i < |r.states| && |r.states[i].sends| > c.n * (TWO_TO_THE_64 - 2)
    ensures j < |r.states[i].sends| && r.states[i].sends[j].seqn == 0
  {
    hide IsRun, SendsOn, SendsBelow;
    var sends := r.states[i].sends;
    SlotsInRange(c, r, i);
    SendsBelowAll(sends, c.n);
    if forall b :: 0 <= b < c.n ==> SendsOn(sends, b) <= TWO_TO_THE_64 - 2 {
      FewOnEach(sends, c.n, TWO_TO_THE_64 - 2);
      assert false;
    } else {
      var b :| 0 <= b < c.n && SendsOn(sends, b) > TWO_TO_THE_64 - 2;
      j := Reaches(sends, b, TWO_TO_THE_64 - 1);
      SequenceNumbers(c, r, i, j);
    }
  }

  lemma SlotsInRange(c: Config, r: Run, i: nat)
    requires IsRun(c, r) && i < |r.states|
    ensures forall j :: 0 <= j < |r.states[i].sends| ==> r.states[i].sends[j].slot < c.n
  {
    InvAlways(c, r, i);
  }
}
