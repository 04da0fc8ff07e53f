/** What every step of the protocol keeps, one concern at a time, and what that gives for every
    state of every run. */
module SlotInvariants {
  import opened Bitmap
  import opened Codec
  import opened SlotRing

  // ---------------------------------------------------------------- the receive ring

  /** Buffers are never lost, repeated or reordered: the ring is 0..n-1 rotated once per re-post,
      and handled buffers come round in order. */
  ghost predicate RingInv(c: Config, s: State)
    requires Ok(c)
  {
    && Reposts(s) >= 0
    && Ring(s) == Rotation(c.n, Reposts(s))
    && (forall i :: 0 <= i < |s.log| ==> s.log[i].buf == i % c.n)
    && (s.handler.Freed? ==> s.handler.buf == Reposts(s) % c.n)
  }

  /** Delivery and polling move a buffer along the ring without changing its place in it. */
  lemma RingUnmoved(c: Config, s: State, t: Step, s': State)
    requires Ok(c) && Next(c, s, t, s') && !t.Repost?
    ensures Ring(s') == Ring(s)
  {
    hide ReadHeader, Wire, ClearAll;
    match t
    case Deliver(r) =>
      assert Bufs(s'.cq) == Bufs(s.cq) + [s.posted[0]];
      assert s.posted == [s.posted[0]] + s'.posted;
    case Poll =>
      assert Bufs(s.cq) == [s.cq[0].buf] + Bufs(s'.cq);
    case _ =>
  }

  lemma RingMoved(c: Config, s: State, s': State)
    requires Ok(c) && Next(c, s, Repost, s')
    ensures |Ring(s)| > 0 && Ring(s') == Ring(s)[1..] + [Ring(s)[0]]
  {
  }

  lemma RingKept(c: Config, s: State, t: Step, s': State)
    requires Ok(c) && RingInv(c, s) && Next(c, s, t, s')
    ensures RingInv(c, s')
  {
    hide ReadHeader, Wire, ClearAll, Ring, Rotation;
    if t.Repost? {
      RotationNext(c.n, Reposts(s));
      RingMoved(c, s, s');
    } else {
      RingUnmoved(c, s, t, s');
      if t.Handle? {
        RingHead(c, s);
      }
    }
  }

  /** The handler has the buffer whose turn it is. */
  lemma RingHead(c: Config, s: State)
    requires Ok(c) && RingInv(c, s) && !s.handler.Idle?
    ensures s.handler.buf == Reposts(s) % c.n
  {
    assert Ring(s)[0] == s.handler.buf;
  }

  // ---------------------------------------------------------------- where requests are

  /** The completion queue and the handler hold exactly the requests said to be there. */
  ghost predicate QueueInv(c: Config, s: State) {
    && (forall i :: 0 <= i < |s.cq| ==> s.cq[i].req < |s.at| && s.at[s.cq[i].req] == Queued(s.cq[i].buf))
    && (s.handler.Polled? ==> s.handler.req < |s.at| && s.at[s.handler.req] == InHandler)
  }

  /** Every request is unfinished, lost or dispatched, and an unfinished one is unanswered, queued
      or in the handler. */
  ghost predicate CountInv(s: State) {
    && Unfinished(s) == Unanswered(s) + |s.cq| + (if s.handler.Polled? then 1 else 0)
    && |s.at| == Unfinished(s) + LostSends(s) + |s.log|
  }

  lemma RingDistinct(c: Config, s: State)
    requires Ok(c) && RingInv(c, s)
    ensures forall i, j :: 0 <= i < j < |Ring(s)| ==> Ring(s)[i] != Ring(s)[j]
  {
    RotationDistinct(c.n, Reposts(s));
  }

  /** Where in the ring each buffer is. */
  lemma RingAt(s: State)
    ensures var h := if s.handler.Idle? then 0 else 1;
      && |Ring(s)| == h + |s.cq| + |s.posted|
      && (!s.handler.Idle? ==> Ring(s)[0] == s.handler.buf)
      && (forall i :: 0 <= i < |s.cq| ==> s.cq[i].buf == Ring(s)[h + i])
      && (forall j :: 0 <= j < |s.posted| ==> s.posted[j] == Ring(s)[h + |s.cq| + j])
  {
  }

  lemma DistinctBufs(c: Config, s: State)
    requires Ok(c) && RingInv(c, s)
    ensures forall i, j :: 0 <= i < j < |s.cq| ==> s.cq[i].buf != s.cq[j].buf
    ensures forall i, j :: 0 <= i < |s.cq| && 0 <= j < |s.posted| ==> s.cq[i].buf != s.posted[j]
    ensures !s.handler.Idle? ==> forall i :: 0 <= i < |s.cq| ==> s.cq[i].buf != s.handler.buf
    ensures !s.handler.Idle? ==> forall i :: 0 <= i < |s.posted| ==> s.posted[i] != s.handler.buf
  {
    hide RingInv, Ring;
    RingDistinct(c, s);
    RingAt(s);
  }

  /** Moving request `k` changes each tally by the difference of the weights. */
  lemma Moved(s: State, s': State, k: nat, l: Loc)
    requires k < |s.at| && s'.at == s.at[k := l]
    ensures Unfinished(s') + UNFINISHED(s.at[k]) == Unfinished(s) + UNFINISHED(l)
    ensures Unanswered(s') + UNANSWERED(s.at[k]) == Unanswered(s) + UNANSWERED(l)
    ensures LostSends(s') + LOST(s.at[k]) == LostSends(s) + LOST(l)
  {
    TallyUpdate(s.at, k, l, UNFINISHED);
    TallyUpdate(s.at, k, l, UNANSWERED);
    TallyUpdate(s.at, k, l, LOST);
  }

  /** How the tallies change in each step. */
  lemma TallyStep(c: Config, s: State, t: Step, s': State)
    requires Ok(c) && Next(c, s, t, s') && QueueInv(c, s)
    ensures Unfinished(s') == Unfinished(s)
              + (if t.Alloc? then 1 else if t.SendFails? || t.Handle? then -1 else 0)
    ensures Unanswered(s') == Unanswered(s)
              + (if t.Alloc? then 1 else if t.SendFails? || t.Deliver? then -1 else 0)
    ensures LostSends(s') == LostSends(s) + (if t.SendFails? then 1 else 0)
  {
    hide ReadHeader, Wire;
    match t
    case Alloc =>
      TallyPush(s.at, Taken, UNFINISHED);
      TallyPush(s.at, Taken, UNANSWERED);
      TallyPush(s.at, Taken, LOST);
    case Spin =>
    case Send(r, _, _) => Moved(s, s', r, s'.at[r]);
    case SendFails(r, _) => Moved(s, s', r, Lost);
    case Answer(r, _, _, _) => Moved(s, s', r, s'.at[r]);
    case Deliver(r) => Moved(s, s', r, s'.at[r]);
    case Poll => Moved(s, s', s.cq[0].req, InHandler);
    case Handle => Moved(s, s', s.handler.req, Done);
    case Repost =>
  }

  lemma CountKept(c: Config, s: State, t: Step, s': State)
    requires Ok(c) && QueueInv(c, s) && CountInv(s) && Next(c, s, t, s')
    ensures CountInv(s')
  {
    TallyStep(c, s, t, s');
  }

  lemma QueueKept(c: Config, s: State, t: Step, s': State)
    requires Ok(c) && RingInv(c, s) && QueueInv(c, s) && Next(c, s, t, s')
    ensures QueueInv(c, s')
  {
    match t
    case Deliver(r) => DistinctBufs(c, s);
    case Poll => DistinctBufs(c, s);
    case _ =>
  }

  // ---------------------------------------------------------------- the echo

  /** `h'` is a server's echo of `h`; number 0 is the one number a server does not send back. */
  ghost predicate EchoOf(h: Header, h': Header) {
    h'.ch == h.ch && h'.sem == h.sem && (h.seqn != 0 ==> h'.seqn == h.seqn)
  }

  /** Messages carry the header of the request they belong to, at every place they can be, and
      each dispatch was for a different request. */
  ghost predicate EchoInv(c: Config, s: State)
    requires Shape(c, s)
  {
    && (forall k :: 0 <= k < |s.at| && !s.at[k].Taken? ==> s.hdr[k].ch == c.ch)
    && (forall k, e :: 0 <= k < |s.at| && s.at[k].AtServer? ==> ReadHeader(e, s.at[k].msg) == s.hdr[k])
    && (forall k :: 0 <= k < |s.at| && s.at[k].Answered? ==>
      EchoOf(s.hdr[k], ReadHeader(c.client, s.at[k].msg)))
    && (forall i :: 0 <= i < |s.cq| ==>
      EchoOf(s.hdr[s.cq[i].req], ReadHeader(c.client, s.recvBuf[s.cq[i].buf])))
    && (s.handler.Polled? ==> EchoOf(s.hdr[s.handler.req], ReadHeader(c.client, s.recvBuf[s.handler.buf])))
    && (forall i :: 0 <= i < |s.log| ==> s.log[i].req < |s.at| && s.at[s.log[i].req].Done?)
    && (forall i :: 0 <= i < |s.log| ==> EchoOf(s.hdr[s.log[i].req], s.log[i].hdr))
    && (forall i, j :: 0 <= i < j < |s.log| ==> s.log[i].req != s.log[j].req)
  }

  lemma EchoKeptBySend(c: Config, s: State, r: nat, sem: u64, data: seq<byte>, s': State)
    requires Ok(c) && QueueInv(c, s) && Next(c, s, Send(r, sem, data), s') && EchoInv(c, s)
    ensures Shape(c, s') && EchoInv(c, s')
  {
    hide ReadField, Wire;
    ShapeKept(c, s, Send(r, sem, data));
    forall e: Endian
      ensures ReadHeader(e, s'.at[r].msg) == s'.hdr[r]
    {
      ReadWire(e, s'.hdr[r], data);
    }
  }

  lemma EchoKeptByAnswer(c: Config, s: State, r: nat, e: Endian, own: u64, data: seq<byte>, s': State)
    requires Ok(c) && QueueInv(c, s) && Next(c, s, Answer(r, e, own, data), s') && EchoInv(c, s)
    ensures Shape(c, s') && EchoInv(c, s')
  {
    hide ReadField, Wire;
    ShapeKept(c, s, Answer(r, e, own, data));
    assert s'.at[r].msg == Wire(EchoHeader(s.hdr[r], own), data);
    ReadWire(c.client, EchoHeader(s.hdr[r], own), data);
  }

  lemma EchoKeptByDeliver(c: Config, s: State, r: nat, s': State)
    requires Ok(c) && RingInv(c, s) && QueueInv(c, s) && Next(c, s, Deliver(r), s') && EchoInv(c, s)
    ensures Shape(c, s') && EchoInv(c, s')
  {
    hide ReadField, Wire;
    ShapeKept(c, s, Deliver(r));
    DistinctBufs(c, s);
  }

  lemma EchoKeptByHandle(c: Config, s: State, s': State)
    requires Ok(c) && QueueInv(c, s) && Next(c, s, Handle, s') && EchoInv(c, s)
    ensures Shape(c, s') && EchoInv(c, s')
  {
    hide ReadField, Wire;
    ShapeKept(c, s, Handle);
  }

  lemma EchoKeptOtherwise(c: Config, s: State, t: Step, s': State)
    requires Ok(c) && QueueInv(c, s) && Next(c, s, t, s') && EchoInv(c, s)
    requires t.Alloc? || t.Spin? || t.SendFails? || t.Poll? || t.Repost?
    ensures Shape(c, s') && EchoInv(c, s')
  {
    hide ReadField, Wire;
    ShapeKept(c, s, t);
  }

  /** With the send one step; SlotSends.MatchesRun says when that is so. */
  lemma EchoKept(c: Config, s: State, t: Step, s': State)
    requires Ok(c) && RingInv(c, s) && QueueInv(c, s) && Next(c, s, t, s') && EchoInv(c, s)
    ensures Shape(c, s') && EchoInv(c, s')
  {
    hide ReadField, Wire;
    match t
    case Send(r, sem, data) => EchoKeptBySend(c, s, r, sem, data, s');
    case Answer(r, e, own, data) => EchoKeptByAnswer(c, s, r, e, own, data, s');
    case Deliver(r) => EchoKeptByDeliver(c, s, r, s');
    case Handle => EchoKeptByHandle(c, s, s');
    case _ => EchoKeptOtherwise(c, s, t, s');
  }

  // ---------------------------------------------------------------- the channel alone

  /** Messages name the client's channel, whatever else they carry: all that flow control needs. */
  ghost predicate ChannelInv(c: Config, s: State)
    requires Shape(c, s)
  {
    && (forall k, e :: 0 <= k < |s.at| && s.at[k].AtServer? ==> ReadHeader(e, s.at[k].msg).ch == c.ch)
    && (forall k :: 0 <= k < |s.at| && s.at[k].Answered? ==> ReadHeader(c.client, s.at[k].msg).ch == c.ch)
    && (forall i :: 0 <= i < |s.cq| ==> ReadHeader(c.client, s.recvBuf[s.cq[i].buf]).ch == c.ch)
    && (s.handler.Polled? ==> ReadHeader(c.client, s.recvBuf[s.handler.buf]).ch == c.ch)
  }

  lemma EchoNamesChannel(c: Config, s: State)
    requires Shape(c, s) && QueueInv(c, s) && EchoInv(c, s)
    ensures ChannelInv(c, s)
  {
    hide ReadHeader;
  }

  /** Every step but a send keeps that; what a send puts on the wire is up to the sender. */
  lemma ChannelKept(c: Config, s: State, t: Step, s': State)
    requires Ok(c) && RingInv(c, s) && QueueInv(c, s) && Next(c, s, t, s') && ChannelInv(c, s) && !t.Send?
    ensures Shape(c, s') && ChannelInv(c, s')
  {
    hide ReadField, Wire;
    ShapeKept(c, s, t);
    match t
    case Answer(r, e, own, data) =>
      var h := ReadHeader(e, s.at[r].msg);
      ReadWire(c.client, EchoHeader(h, own), data);
    case Deliver(r) => DistinctBufs(c, s);
    case _ =>
  }

  // ---------------------------------------------------------------- flow control

  /** Every unfinished request is paid for by a set bit, and if no send was lost the bitmap is
      never full with nothing left to empty it. */
  ghost predicate FlowInv(c: Config, s: State) {
    && Unfinished(s) <= SetCount(s.bits)
    && (LostSends(s) == 0 && Unfinished(s) == 0 ==> FirstClear(s.bits) < c.n)
  }

  lemma FlowKept(c: Config, s: State, t: Step, s': State)
    requires Ok(c) && QueueInv(c, s) && CountInv(s) && Next(c, s, t, s') && ChannelInv(c, s) && FlowInv(c, s)
    ensures FlowInv(c, s')
  {
    hide ReadHeader, Wire;
    TallyStep(c, s, t, s');
    match t
    case Alloc =>
      SetCountUpdate(s.bits, FirstClear(s.bits), true);
    case Handle =>
      assert s'.bits == s.bits[s.handler.buf := false];
      SetCountUpdate(s.bits, s.handler.buf, false);
      FullCount(s'.bits);
      TallyAtLeast(s.at, s.handler.req, UNFINISHED);
    case _ =>
  }

  // ---------------------------------------------------------------- sequence numbers

  /** How many of the numberings were done on slot `b`. */
  function SendsOn(sends: seq<Numbered>, b: nat): (k: nat)
    ensures k <= |sends|
  {
    if sends == [] then 0
    else SendsOn(sends[..|sends| - 1], b) + (if sends[|sends| - 1].slot == b then 1 else 0)
  }

  function Wrap(k: nat): u64 { k % TWO_TO_THE_64 }

  /** A slot's counter is one more than the sends made on it, and each send carries the counter's
      new value, all modulo 2^64. */
  ghost predicate Counted(seqn: seq<u64>, sends: seq<Numbered>) {
    && (forall b :: 0 <= b < |seqn| ==> seqn[b] == Wrap(1 + SendsOn(sends, b)))
    && (forall j :: 0 <= j < |sends| ==> sends[j].seqn == Wrap(2 + SendsOn(sends[..j], sends[j].slot)))
  }

  lemma CountedPush(seqn: seq<u64>, sends: seq<Numbered>, m: Numbered)
    requires Counted(seqn, sends) && m.slot < |seqn| && m.seqn == NextSeqn(seqn[m.slot])
    ensures Counted(seqn[m.slot := m.seqn], sends + [m])
  {
    var sends' := sends + [m];
    var seqn' := seqn[m.slot := m.seqn];
    WrapNext(1 + SendsOn(sends, m.slot));
    assert sends'[..|sends|] == sends;
    forall b | 0 <= b < |seqn'|
      ensures seqn'[b] == Wrap(1 + SendsOn(sends', b))
    {
      assert seqn[b] == Wrap(1 + SendsOn(sends, b));
    }
    hide Wrap, SendsOn, NextSeqn;
    forall j | 0 <= j < |sends'|
      ensures sends'[j].seqn == Wrap(2 + SendsOn(sends'[..j], sends'[j].slot))
    {
      if j < |sends| {
        assert sends'[..j] == sends[..j] && sends'[j] == sends[j];
      }
    }
  }

  lemma WrapNext(k: nat)
    ensures NextSeqn(Wrap(k)) == Wrap(k + 1)
  {
  }

  /** Each request sent was numbered once, from its own slot. */
  ghost predicate SeqnInv(c: Config, s: State)
    requires Shape(c, s)
  {
    && Counted(s.seqn, s.sends)
    && (forall j :: 0 <= j < |s.sends| ==> NumberedFor(s, s.sends[j]))
    && (forall i, j :: 0 <= i < j < |s.sends| ==> s.sends[i].req != s.sends[j].req)
  }

  ghost predicate NumberedFor(s: State, n: Numbered)
    requires |s.at| == |s.slotOf| == |s.hdr|
  {
    && n.req < |s.at| && !s.at[n.req].Taken?
    && n.slot == s.slotOf[n.req] && n.seqn == s.hdr[n.req].seqn
  }

  lemma SeqnKept(c: Config, s: State, t: Step, s': State)
    requires Ok(c) && QueueInv(c, s) && Next(c, s, t, s') && Shape(c, s') && SeqnInv(c, s)
    ensures SeqnInv(c, s')
  {
    hide ReadHeader, Wire, ClearAll, SendsOn, Counted;
    if t.Send? || t.SendFails? {
      CountedPush(s.seqn, s.sends, s'.sends[|s.sends|]);
      assert forall j :: 0 <= j < |s.sends| ==> NumberedFor(s, s.sends[j]) ==> NumberedFor(s', s.sends[j]);
    } else {
      assert forall j :: 0 <= j < |s.sends| ==> NumberedFor(s, s.sends[j]) ==> NumberedFor(s', s.sends[j]);
    }
  }

  // ---------------------------------------------------------------- what the records miss nothing of

  ghost predicate InSends(s: State, k: nat) {
    exists j :: 0 <= j < |s.sends| && s.sends[j].req == k
  }

  ghost predicate InLog(s: State, k: nat) {
    exists j :: 0 <= j < |s.log| && s.log[j].req == k
  }

  /** Every request past its send was numbered, and every finished one was dispatched. */
  ghost predicate TraceInv(s: State) {
    && (forall k :: 0 <= k < |s.at| && !s.at[k].Taken? ==> InSends(s, k))
    && (forall k :: 0 <= k < |s.at| && s.at[k].Done? ==> InLog(s, k))
  }

  /** The records only grow. */
  lemma RecordsGrow(s: State, s': State, k: nat)
    requires s.sends <= s'.sends && s.log <= s'.log
    ensures InSends(s, k) ==> InSends(s', k)
    ensures InLog(s, k) ==> InLog(s', k)
  {
    if j :| 0 <= j < |s.sends| && s.sends[j].req == k {
      assert s'.sends[j].req == k;
    }
    if j :| 0 <= j < |s.log| && s.log[j].req == k {
      assert s'.log[j].req == k;
    }
  }

  /** A request leaves Taken only by being numbered, and becomes Done only by being dispatched. */
  lemma Recorded(c: Config, s: State, t: Step, s': State, k: nat)
    requires Ok(c) && QueueInv(c, s) && Next(c, s, t, s') && k < |s'.at|
    ensures s.sends <= s'.sends && s.log <= s'.log
    ensures k == |s.at| ==> s'.at[k].Taken?
    ensures k < |s.at| && s.at[k].Taken? && !s'.at[k].Taken? ==> |s'.sends| > |s.sends| && s'.sends[|s.sends|].req == k
    ensures k < |s.at| && !s.at[k].Done? && s'.at[k].Done? ==> |s'.log| > |s.log| && s'.log[|s.log|].req == k
    ensures |s.at| <= |s'.at| <= |s.at| + 1
  {
    hide ReadHeader, Wire, ClearAll, FirstClear;
  }

  lemma TraceKept(c: Config, s: State, t: Step, s': State)
    requires Ok(c) && QueueInv(c, s) && Next(c, s, t, s') && TraceInv(s)
    ensures TraceInv(s')
  {
    hide Next, QueueInv;
    forall k | 0 <= k < |s'.at|
      ensures !s'.at[k].Taken? ==> InSends(s', k)
      ensures s'.at[k].Done? ==> InLog(s', k)
    {
      Recorded(c, s, t, s', k);
      RecordsGrow(s, s', k);
    }
  }

  // ---------------------------------------------------------------- all of it, along every run

  ghost predicate Inv(c: Config, s: State) {
    Ok(c) && Shape(c, s) && RingInv(c, s) && QueueInv(c, s) && CountInv(s) && EchoInv(c, s) && FlowInv(c, s)
    && SeqnInv(c, s)
  }

  lemma RingInit(c: Config)
    requires Ok(c)
    ensures RingInv(c, Init(c))
  {
    hide Rotation;
    RotationStart(c.n);
    assert Ring(Init(c)) == Rotation(c.n, 0);
  }

  /** The part of it that does not depend on what a send puts on the wire. */
  ghost predicate Core(c: Config, s: State) {
    Ok(c) && Shape(c, s) && RingInv(c, s) && QueueInv(c, s) && CountInv(s) && ChannelInv(c, s) && FlowInv(c, s)
  }

  lemma CoreOf(c: Config, s: State)
    requires Inv(c, s)
    ensures Core(c, s)
  {
    EchoNamesChannel(c, s);
  }

  lemma CoreKept(c: Config, s: State, t: Step, s': State)
    requires Core(c, s) && Next(c, s, t, s') && !t.Send?
    ensures Core(c, s')
  {
    hide Apply, Enabled, Ring, Tally, ReadHeader;
    ChannelKept(c, s, t, s');
    RingKept(c, s, t, s');
    QueueKept(c, s, t, s');
    CountKept(c, s, t, s');
    FlowKept(c, s, t, s');
  }

  lemma InvInit(c: Config)
    requires Ok(c)
    ensures Inv(c, Init(c))
  {
    hide Shape, RingInv, Ring, Rotation, ReadHeader;
    InitShape(c);
    RingInit(c);
    NoneSet(Init(c).bits);
  }

  lemma InvKept(c: Config, s: State, t: Step, s': State)
    requires Inv(c, s) && Next(c, s, t, s')
    ensures Inv(c, s')
  {
    hide Apply, Enabled, Ring, Tally, ReadHeader;
    EchoKept(c, s, t, s');
    RingKept(c, s, t, s');
    QueueKept(c, s, t, s');
    CountKept(c, s, t, s');
    EchoNamesChannel(c, s);
    FlowKept(c, s, t, s');
    SeqnKept(c, s, t, s');
  }
}
