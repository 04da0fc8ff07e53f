/** Runs that show what goes wrong, for every number of buffers, and the run that one call of the
    completion handler is. */
module SlotWitness {
  import opened Bitmap
  import opened Codec
  import opened SlotRing
  import opened SlotInvariants
  import opened SlotTheorems
  import opened SlotReuse

  /** The parts of a state these runs are about. */
  ghost predicate Looks(s: State, bits: seq<bool>, at: seq<Loc>, slotOf: seq<nat>, handled: nat) {
    && s.bits == bits && s.at == at && s.slotOf == slotOf && |s.log| == handled
    && s.handler.Idle? && s.cq == []
  }

  ghost predicate Clear(s: State, n: nat) {
    |s.bits| == n && s.handler.Idle? && s.cq == [] && FirstClear(s.bits) < n
  }

  /** One more request was numbered, from slot `b`, and its header carries the number. */
  ghost predicate Sent(s: State, s': State, b: nat) {
    && |s.at| == |s.hdr| && |s'.hdr| == |s.hdr| + 1
    && |s'.sends| == |s.sends| + 1 && s.sends <= s'.sends
    && s'.sends[|s.sends|].seqn == s'.hdr[|s.hdr|].seqn
  }

  /** Request `k` was dispatched with what a server holding number 1 sends back for it. */
  ghost predicate Echoed(s: State, s': State, k: nat) {
    && k < |s.hdr| && s'.hdr == s.hdr && s'.sends == s.sends
    && |s'.log| == |s.log| + 1 && s'.log[|s.log|].req == k && s'.log[|s.log|].hdr == EchoHeader(s.hdr[k], 1)
  }

  function Blank(c: Config): seq<byte> {
    seq(c.size, _ => 0)
  }

  /** A requester takes a slot and sends. */
  lemma Request(c: Config, r: Run) returns (r': Run, l: Loc)
    requires IsRun(c, r) && Clear(Last(r), c.n)
    ensures IsRun(c, r') && r'.steps == r.steps + [Alloc, Send(|Last(r).at|, 0, Blank(c))]
    ensures r.states <= r'.states
    ensures l.AtServer?
    ensures var s := Last(r); var b := FirstClear(s.bits);
      Looks(Last(r'), s.bits[b := true], s.at + [l], s.slotOf + [b], |s.log|) && Sent(s, Last(r'), b)
  {
    hide ReadHeader, Wire, ClearAll, Counted, SeqnInv, RingInv, Inv;
    InvAlways(c, r, |r.steps|);
    ShapeOf(c, Last(r));
    var r1 := Extend(c, r, Alloc);
    ShapeKept(c, Last(r), Alloc);
    r' := Extend(c, r1, Send(|Last(r).at|, 0, Blank(c)));
    l := Last(r').at[|Last(r).at|];
    assert Last(r').at == Last(r).at + [l];
  }

  /** A requester takes a slot and has yet to send. */
  lemma JustAlloc(c: Config, r: Run) returns (r': Run)
    requires IsRun(c, r) && Clear(Last(r), c.n)
    ensures IsRun(c, r') && r'.steps == r.steps + [Alloc] && r.states <= r'.states
    ensures var s := Last(r); var b := FirstClear(s.bits);
      Looks(Last(r'), s.bits[b := true], s.at + [Taken], s.slotOf + [b], |s.log|)
  {
    hide ReadHeader, Wire, ClearAll, Counted, SeqnInv, RingInv, Inv;
    InvAlways(c, r, |r.steps|);
    ShapeOf(c, Last(r));
    r' := Extend(c, r, Alloc);
  }

  lemma ShapeOf(c: Config, s: State)
    requires Inv(c, s)
    ensures Shape(c, s)
  {
  }

  /** The server answers request `k` and the handler deals with the response. */
  lemma Serve(c: Config, r: Run, k: nat) returns (r': Run)
    requires IsRun(c, r) && Last(r).handler.Idle? && Last(r).cq == []
    requires k < |Last(r).at| && Last(r).at[k].AtServer?
    ensures IsRun(c, r') && r.steps <= r'.steps && r.states <= r'.states
    ensures forall i :: |r.steps| <= i < |r'.steps| ==> Progress(r'.steps[i])
    ensures var s := Last(r);
      Looks(Last(r'), ClearAll(s.bits, [|s.log| % c.n]), s.at[k := Done], s.slotOf, |s.log| + 1)
      && Echoed(s, Last(r'), k)
  {
    hide ReadHeader, Wire, ClearAll, Counted, SeqnInv, RingInv, Inv;
    var s := Last(r);
    InvAlways(c, r, |r.steps|);
    ShapeOf(c, s);
    AllPosted(c, s);
    HeaderAtServer(c, s, k);
    ReadWire(c.client, EchoHeader(s.hdr[k], 1), Blank(c));
    var r1 := Extend(c, r, Answer(k, Little, 1, Blank(c)));
    ShapeKept(c, s, Answer(k, Little, 1, Blank(c)));
    var r2 := Extend(c, r1, Deliver(k));
    r' := HandleOne(c, r2);
    assert Last(r').at == s.at[k := Done];
  }

  lemma HeaderAtServer(c: Config, s: State, k: nat)
    requires Inv(c, s) && k < |s.at| && s.at[k].AtServer?
    ensures |s.hdr| == |s.at| && |s.at[k].msg| >= HEADER_SIZE && ReadHeader(Little, s.at[k].msg) == s.hdr[k]
  {
    hide ReadHeader;
  }

  lemma AllPosted(c: Config, s: State)
    requires Inv(c, s) && s.handler.Idle? && s.cq == []
    ensures s.posted != []
  {
    assert |Ring(s)| == c.n;
  }

  /** What handling the first queued completion and posting its buffer again changes. */
  ghost predicate HandledOne(c: Config, s: State, s': State) {
    && Ok(c) && s.cq != [] && s.cq[0].req < |s.at|
    && var Completion(b, q) := s.cq[0];
      && b == |s.log| % c.n && b < |s.recvBuf| && |s.recvBuf[b]| >= HEADER_SIZE
      && s'.bits == ClearAll(s.bits, [b])
      && s'.at == s.at[q := Done] && s'.slotOf == s.slotOf
      && s'.posted == s.posted + [b] && s'.cq == s.cq[1..] && s'.handler.Idle?
      && s'.recvBuf == s.recvBuf && s'.hdr == s.hdr && s'.sends == s.sends && s'.seqn == s.seqn
      && s'.log == s.log + [Dispatch(b, q, ReadHeader(c.client, s.recvBuf[b]))]
  }

  /** Poll, handle and re-post: what the handler does with one receive completion. */
  lemma HandleOne(c: Config, r: Run) returns (r': Run)
    requires IsRun(c, r) && Last(r).handler.Idle? && Last(r).cq != []
    ensures IsRun(c, r') && r'.steps == r.steps + [Poll, Handle, Repost] && r.states <= r'.states
    ensures HandledOne(c, Last(r), Last(r'))
  {
    hide Apply, Shape, Inv, HandledOne, Next;
    var s := Last(r);
    InvAlways(c, r, |r.steps|);
    PolledOk(c, s);
    var r1 := Extend(c, r, Poll);
    InvAlways(c, r1, |r1.steps|);
    PollEffect(c, s);
    PolledOk(c, Last(r1));
    var r2 := Extend(c, r1, Handle);
    InvAlways(c, r2, |r2.steps|);
    HandleEffect(c, Last(r1));
    PolledOk(c, Last(r2));
    r' := Extend(c, r2, Repost);
    ThreeSteps(c, s, Last(r1), Last(r2), Last(r'));
  }

  lemma PollEffect(c: Config, s: State)
    requires Ok(c) && Shape(c, s) && Enabled(c, s, Poll)
    ensures Apply(c, s, Poll).handler == Polled(s.cq[0].buf, s.cq[0].req)
  {
  }

  lemma HandleEffect(c: Config, s: State)
    requires Ok(c) && Shape(c, s) && Enabled(c, s, Handle)
    ensures Apply(c, s, Handle).handler.Freed?
  {
  }

  lemma ThreeSteps(c: Config, s: State, s1: State, s2: State, s3: State)
    requires Ok(c) && Shape(c, s) && Shape(c, s1) && Shape(c, s2) && s.handler.Idle? && s.cq != []
    requires s1 == Apply(c, s, Poll)
    requires s1.handler.Polled? && s1.handler.buf == |s1.log| % c.n && HeaderOurs(c, s1)
    requires s2 == Apply(c, s1, Handle) && s2.handler.Freed? && s3 == Apply(c, s2, Repost)
    ensures HandledOne(c, s, s3)
  {
    hide ReadHeader, ClearAll, Wire;
    assert s.at[s.cq[0].req := InHandler][s.cq[0].req := Done] == s.at[s.cq[0].req := Done];
  }

  ghost predicate HeaderOurs(c: Config, s: State)
    requires Shape(c, s) && s.handler.Polled?
  {
    ReadHeader(c.client, s.recvBuf[s.handler.buf]).ch == c.ch
  }

  lemma PolledOk(c: Config, s: State)
    requires Inv(c, s)
    ensures Shape(c, s)
    ensures s.handler.Polled? ==> s.handler.buf == |s.log| % c.n && HeaderOurs(c, s)
  {
    hide ReadHeader;
    if s.handler.Polled? {
      RingHead(c, s);
    }
  }

  // ---------------------------------------------------------------- one call of the handler

  /** The dispatches the queue will lead to. */
  function Pending(e: Endian, cq: seq<Completion>, recvBuf: seq<seq<byte>>): (d: seq<Dispatch>)
    requires forall i :: 0 <= i < |cq| ==> cq[i].buf < |recvBuf| && |recvBuf[cq[i].buf]| >= HEADER_SIZE
    ensures |d| == |cq|
  {
    seq(|cq|, i requires 0 <= i < |cq| => Dispatch(cq[i].buf, cq[i].req, ReadHeader(e, recvBuf[cq[i].buf])))
  }

  ghost predicate Whole(s: State) {
    forall i :: 0 <= i < |s.cq| ==> s.cq[i].buf < |s.recvBuf| && |s.recvBuf[s.cq[i].buf]| >= HEADER_SIZE
  }

  /** Everything queued in `s` has been handled in `s'`: the queued buffers' bits are cleared and the
      same buffers posted, in the order they were queued. */
  ghost predicate Drained(e: Endian, s: State, s': State)
    requires Whole(s)
  {
    && s'.cq == [] && s'.handler.Idle?
    && s'.bits == ClearAll(s.bits, Bufs(s.cq))
    && s'.posted == s.posted + Bufs(s.cq)
    && s'.seqn == s.seqn
    && s'.log == s.log + Pending(e, s.cq, s.recvBuf)
  }

  lemma DrainedStep(c: Config, s: State, s1: State, s': State)
    requires Whole(s) && HandledOne(c, s, s1) && Whole(s1) && Drained(c.client, s1, s')
    ensures Drained(c.client, s, s')
  {
    hide Bufs, ClearAll, ReadHeader;
    var first, rest := [s.cq[0].buf], Bufs(s1.cq);
    BufsCons(s.cq);
    PendingCons(c.client, s.cq, s.recvBuf);
    hide Pending;
    ClearTwice(s.bits, first, rest);
    Regroup(s.posted, first, rest);
    Regroup(s.log, [Dispatch(s.cq[0].buf, s.cq[0].req, ReadHeader(c.client, s.recvBuf[s.cq[0].buf]))],
            Pending(c.client, s1.cq, s.recvBuf));
  }

  lemma PendingCons(e: Endian, cq: seq<Completion>, recvBuf: seq<seq<byte>>)
    requires cq != []
    requires forall i :: 0 <= i < |cq| ==> cq[i].buf < |recvBuf| && |recvBuf[cq[i].buf]| >= HEADER_SIZE
    ensures Pending(e, cq, recvBuf) ==
      [Dispatch(cq[0].buf, cq[0].req, ReadHeader(e, recvBuf[cq[0].buf]))] + Pending(e, cq[1..], recvBuf)
  {
    hide ReadHeader;
  }

  lemma BufsCons(cq: seq<Completion>)
    requires cq != []
    ensures Bufs(cq) == [cq[0].buf] + Bufs(cq[1..])
  {
  }

  lemma Regroup<T>(a: seq<T>, b: seq<T>, c: seq<T>)
    ensures (a + b) + c == a + (b + c)
  {
  }

  /** Draining the completion queue is a run of the protocol, and this is its effect; RdmaProtocol
      shows that a call of the completion handler has the same effect. */
  lemma {:induction false} DrainQueue(c: Config, r: Run) returns (r': Run)
    requires IsRun(c, r) && Last(r).handler.Idle?
    ensures IsRun(c, r') && r.steps <= r'.steps && |r'.steps| == |r.steps| + 3 * |Last(r).cq|
    ensures Whole(Last(r)) && Drained(c.client, Last(r), Last(r'))
    decreases |Last(r).cq|
  {
    hide Apply, Enabled, Shape, Next, Init, ClearAll, Inv;
    WholeAlways(c, r);
    if Last(r).cq == [] {
      r' := r;
      assert Bufs([]) == [] && Pending(c.client, [], Last(r).recvBuf) == [];
      NothingCleared(Last(r).bits);
    } else {
      var r1 := HandleOne(c, r);
      r' := DrainQueue(c, r1);
      WholeAlways(c, r1);
      DrainedStep(c, Last(r), Last(r1), Last(r'));
    }
  }

  lemma WholeAlways(c: Config, r: Run)
    requires IsRun(c, r)
    ensures Whole(Last(r))
  {
    InvAlways(c, r, |r.steps|);
  }

  lemma NothingCleared(bits: seq<bool>)
    ensures ClearAll(bits, []) == bits
  {
  }

  // ---------------------------------------------------------------- a lost send

  lemma StillOneAtATime(r0: Run, r1: Run, r: Run)
    requires |r0.states| == |r0.steps| + 1 && |r1.states| == |r1.steps| + 1 && |r.states| == |r.steps| + 1
    requires OneAtATime(r0) && Unfinished(Last(r0)) == 0
    requires r0.states <= r1.states <= r.states && r1.steps <= r.steps
    requires |r1.steps| == |r0.steps| + 2 && r0.steps + [Alloc] <= r1.steps && r1.steps[|r0.steps| + 1].Send?
    requires forall i :: |r1.steps| <= i < |r.steps| ==> Progress(r.steps[i])
    ensures OneAtATime(r)
  {
    assert forall i :: 0 <= i < |r1.steps| ==> r.states[i] == r1.states[i] && r.steps[i] == r1.steps[i];
    assert forall i :: 0 <= i < |r0.steps| ==> r1.states[i] == r0.states[i] && r1.steps[i] == r0.steps[i];
    assert r1.states[|r0.steps|] == Last(r0) && r1.steps[|r0.steps|] == Alloc;
  }

  /** `k` requests, one at a time. */
  lemma {:induction false} Rounds(c: Config, k: nat) returns (r: Run)
    requires Ok(c)
    ensures IsRun(c, r) && OneAtATime(r)
    ensures Resting(Last(r), k)
  {
    if k == 0 {
      r := Run([Init(c)], []);
    } else {
      var r0 := Rounds(c, k - 1);
      r := OneRound(c, r0, k - 1);
    }
  }

  lemma OneRound(c: Config, r0: Run, k: nat) returns (r: Run)
    requires IsRun(c, r0) && OneAtATime(r0) && Resting(Last(r0), k)
    ensures IsRun(c, r) && OneAtATime(r) && Resting(Last(r), k + 1)
    ensures var s, s' := Last(r0), Last(r);
      && s'.log != [] && s'.log[|s'.log| - 1].req == k == |s.hdr| < |s'.hdr|
      && s'.log[|s'.log| - 1].hdr == EchoHeader(s'.hdr[k], 1)
      && |s'.sends| == |s.sends| + 1 && s.sends <= s'.sends && s'.sends[|s.sends|].seqn == s'.hdr[k].seqn
  {
    hide Apply, Enabled, Shape, Next, Init, ClearAll, OneAtATime, Tally, Progress;
    OneAtATimeClient(c, r0, |r0.steps|);
    var r1, l := Request(c, r0);
    r := Serve(c, r1, k);
    assert Last(r).at == Last(r0).at + [Done];
    TallyPush(Last(r0).at, Done, UNFINISHED);
    StillOneAtATime(r0, r1, r);
  }

  ghost predicate Resting(s: State, k: nat) {
    |s.log| == |s.at| == k && s.handler.Idle? && s.cq == [] && Unfinished(s) == 0
  }

  /** `send_rpc_msg_to_server` ignores a failed `ib_post_send`, so the slot is never given back.
      A single such failure can leave every bit set with no request unfinished, and then nothing
      but the retry loop can ever run: the premise of NoStall cannot be dropped. */
  lemma OneLostSendStalls(c: Config) returns (r: Run)
    requires Ok(c)
    ensures IsRun(c, r) && |r.steps| > 0 && r.steps[|r.steps| - 1].SendFails?
    ensures forall i :: 0 <= i < |r.steps| - 1 ==> !r.steps[i].SendFails?
    ensures var s := Last(r);
      && Unfinished(s) == 0 && FirstClear(s.bits) == c.n && Shape(c, s)
      && forall t :: Enabled(c, s, t) <==> t.Spin?
  {
    hide ReadHeader, Wire, Counted, SeqnInv, RingInv, Inv;
    var r0 := Rounds(c, c.n);
    var s := Last(r0);
    OneAtATimeClient(c, r0, |r0.steps|);
    InvAlways(c, r0, |r0.steps|);
    ShapeOf(c, s);
    FirstClearIsLeast(s.bits, c.n - 1);
    var r1 := Extend(c, r0, Alloc);
    ShapeKept(c, s, Alloc);
    r := Extend(c, r1, SendFails(|s.at|, 0));
    ShapeKept(c, Last(r1), SendFails(|s.at|, 0));
    AtRest(c, s, Last(r));
  }

  lemma AtRest(c: Config, s: State, s': State)
    requires Ok(c) && Shape(c, s) && Shape(c, s') && Unfinished(s) == 0 && s.handler.Idle? && s.cq == []
    requires s'.handler.Idle? && s'.cq == [] && s'.at == s.at + [Taken][0 := Lost]
    requires forall j :: 0 <= j < c.n ==> s'.bits[j]
    ensures Unfinished(s') == 0 && FirstClear(s'.bits) == c.n
    ensures forall t :: Enabled(c, s', t) <==> t.Spin?
  {
    TallyPush(s.at, Lost, UNFINISHED);
    assert s'.at == s.at + [Lost];
    forall k | 0 <= k < |s'.at|
      ensures s'.at[k].Lost? || s'.at[k].Done?
    {
      TallyAtLeast(s'.at, k, UNFINISHED);
    }
  }

  // ---------------------------------------------------------------- a shared slot

  /** Request 1 waits with slot 0, at the server or not even sent, while `m` later requests come and go. */
  ghost predicate Waiting(c: Config, s: State, m: nat, sent: bool) {
    && |s.bits| == c.n && |s.log| == m + 1 && |s.at| == |s.slotOf| == m + 2
    && (if sent then s.at[1].AtServer? else s.at[1].Taken?) && s.slotOf[1] == 0
    && s.handler.Idle? && s.cq == []
    && forall j :: 0 <= j < c.n ==> (s.bits[j] <==> j == 0 || (j < m < c.n))
  }

  lemma {:induction false} Overtaken(c: Config, m: nat, sent: bool) returns (r: Run)
    requires Ok(c) && m < c.n
    ensures IsRun(c, r) && Waiting(c, Last(r), m, sent)
    ensures forall i :: 0 <= i < |r.steps| ==> !r.steps[i].SendFails?
  {
    if m == 0 {
      var r0 := Rounds(c, 1);
      OneAtATimeClient(c, r0, |r0.steps|);
      FirstClearIsLeast(Last(r0).bits, 0);
      if sent {
        var l;
        r, l := Request(c, r0);
      } else {
        r := JustAlloc(c, r0);
      }
      OneAtATimeClient(c, r0, |r0.steps|);
    } else {
      var r0 := Overtaken(c, m - 1, sent);
      r := OneMore(c, r0, m - 1, sent);
    }
  }

  /** A newer request is asked and answered while request 1 waits. */
  lemma OneMore(c: Config, r0: Run, m: nat, sent: bool) returns (r: Run)
    requires IsRun(c, r0) && m + 1 < c.n && Waiting(c, Last(r0), m, sent)
    requires forall i :: 0 <= i < |r0.steps| ==> !r0.steps[i].SendFails?
    ensures IsRun(c, r) && Waiting(c, Last(r), m + 1, sent)
    ensures forall i :: 0 <= i < |r.steps| ==> !r.steps[i].SendFails?
  {
    var b := if m == 0 then 1 else m;
    FirstClearIsLeast(Last(r0).bits, b);
    var r1, l := Request(c, r0);
    r := Serve(c, r1, m + 2);
    SmallMod(m + 1, c.n);
  }

  /** The last response of a round frees slot 0 under request 1. */
  lemma FreedUnder(c: Config, sent: bool) returns (r: Run)
    requires Ok(c) && c.n >= 2
    ensures IsRun(c, r) && forall i :: 0 <= i < |r.steps| ==> !r.steps[i].SendFails?
    ensures var s := Last(r);
      && |s.at| == |s.slotOf| == c.n + 2 && s.handler.Idle? && s.cq == []
      && (if sent then s.at[1].AtServer? else s.at[1].Taken?) && s.slotOf[1] == 0
      && |s.bits| == c.n && FirstClear(s.bits) == 0
  {
    var n := c.n;
    var r0 := Overtaken(c, n - 1, sent);
    FirstClearIsLeast(Last(r0).bits, n - 1);
    var r1, l1 := Request(c, r0);
    r := Serve(c, r1, n + 1);
    ModAddSelf(0, n);
    assert !Last(r).bits[0];
    FirstClearIsLeast(Last(r).bits, 0);
  }

  /** With two buffers or more, and every send succeeding, two unfinished requests can hold the same
      slot: a response to another request freed it under the first. */
  lemma SlotShared(c: Config) returns (r: Run, k: nat)
    requires Ok(c) && c.n >= 2
    ensures IsRun(c, r) && forall i :: 0 <= i < |r.steps| ==> !r.steps[i].SendFails?
    ensures var s := Last(r);
      && 1 < k < |s.at| == |s.slotOf|
      && s.at[1].AtServer? && s.at[k].AtServer? && s.slotOf[1] == s.slotOf[k]
  {
    var r0 := FreedUnder(c, true);
    var l;
    r, l := Request(c, r0);
    k := c.n + 2;
  }

  /** Two requests hold one slot and neither has been sent. */
  ghost predicate Collide(s: State, k: nat, k': nat) {
    && k < k' < |s.at| == |s.slotOf|
    && s.at[k].Taken? && s.at[k'].Taken? && s.slotOf[k] == s.slotOf[k']
  }

  /** In the same way two threads can both be about to send from one slot, or be sending. */
  lemma SendsCollide(c: Config) returns (r: Run, k: nat)
    requires Ok(c) && c.n >= 2
    ensures IsRun(c, r) && forall i :: 0 <= i < |r.steps| ==> !r.steps[i].SendFails?
    ensures Collide(Last(r), 1, k) && Last(r).handler.Idle? && Last(r).cq == []
  {
    var r0 := FreedUnder(c, false);
    r := JustAlloc(c, r0);
    k := c.n + 2;
  }

  ghost predicate NeverCollide(r: Run) {
    forall i, k, k' :: 0 <= i < |r.states| && 0 <= k < k' ==> !Collide(r.states[i], k, k')
  }

  /** "Only one thread accesses it", as rdma.h:77 has it, in every run exactly when there is one buffer. */
  lemma NeverCollideIffOneBuffer(c: Config)
    requires Ok(c)
    ensures (forall r :: IsRun(c, r) ==> NeverCollide(r)) <==> c.n == 1
  {
    hide IsRun;
    if c.n == 1 {
      forall r | IsRun(c, r)
        ensures NeverCollide(r)
      {
        forall i, k, k' | 0 <= i < |r.states| && 0 <= k < k'
          ensures !Collide(r.states[i], k, k')
        {
          FlowControl(c, r, i);
          if Collide(r.states[i], k, k') {
            TwoTaken(r.states[i].at, k, k');
          }
        }
      }
    } else {
      var r, k := SendsCollide(c);
      StatesExist(c, r);
      assert Collide(r.states[|r.states| - 1], 1, k);
    }
  }

  /** The intent of rdma.c:805 is kept in every run exactly when there is a single message buffer. */
  lemma ExclusiveIffOneBuffer(c: Config)
    requires Ok(c)
    ensures (forall r :: IsRun(c, r) ==> AlwaysExclusive(r)) <==> c.n == 1
  {
    hide IsRun;
    if c.n == 1 {
      forall r | IsRun(c, r)
        ensures AlwaysExclusive(r)
      {
        OneBufferMatches(c, r);
        SlotExclusivity(c, r);
      }
    } else {
      var r, k := SlotShared(c);
      assert r.states != [] by { StatesExist(c, r); }
      assert !Exclusive(r.states[|r.states| - 1]);
    }
  }

  lemma StatesExist(c: Config, r: Run)
    requires IsRun(c, r)
    ensures |r.states| == |r.steps| + 1
  {
  }

  lemma OneBufferMatches(c: Config, r: Run)
    requires IsRun(c, r) && c.n == 1
    ensures AllMatched(r)
  {
    hide Inv, Apply;
    forall i | 0 <= i < |r.steps|
      ensures Matched(r.states[i], r.steps[i])
    {
      InvAlways(c, r, i);
      assert Next(c, r.states[i], r.steps[i], r.states[i + 1]);
    }
  }

  // ---------------------------------------------------------------- a number that wraps

  /** The last request dispatched was sent with number 0 and came back with another. */
  ghost predicate NumberLost(s: State) {
    && s.log != []
    && var d := s.log[|s.log| - 1];
      d.req < |s.hdr| && s.hdr[d.req].seqn == 0 && d.hdr.seqn != 0
  }

  ghost predicate NoneZero(s: State, k: nat) {
    |s.sends| == k && forall j :: 0 <= j < k ==> s.sends[j].seqn != 0
  }

  /** At most `k` requests, one at a time, stopping once one drew number 0. */
  lemma {:induction false} UntilZero(c: Config, k: nat) returns (r: Run, found: bool)
    requires Ok(c)
    ensures IsRun(c, r) && OneAtATime(r)
    ensures if found then NumberLost(Last(r)) else NoneZero(Last(r), k)
    ensures !found ==> Resting(Last(r), k)
  {
    if k == 0 {
      r, found := Run([Init(c)], []), false;
    } else {
      var r0;
      r0, found := UntilZero(c, k - 1);
      if found {
        r := r0;
      } else {
        r := OneRound(c, r0, k - 1);
        found := Last(r).hdr[k - 1].seqn == 0;
      }
    }
  }

  /** For every number of buffers, some run of one request at a time, with no failure, ends with a
      request whose response carries a different number: the one drawn when its counter wrapped. */
  lemma WrapLosesNumber(c: Config) returns (r: Run)
    requires Ok(c)
    ensures IsRun(c, r) && OneAtATime(r) && NumberLost(Last(r))
  {
    hide IsRun, OneAtATime, NumberLost, Resting;
    var found;
    r, found := UntilZero(c, c.n * (TWO_TO_THE_64 - 2) + 1);
    if !found {
      StatesExist(c, r);
      var j := NumbersRunOut(c, r, |r.steps|);
      assert false;
    }
  }
}
