/** The imperative code of Rdma does what the protocol of SlotRing assumes of it. */
module RdmaProtocol {
  import opened Bitmap
  import opened Codec
  import opened Options
  import RpcCommon
  import SlotRing
  import SlotTheorems
  import SlotWitness
  import opened Rdma

  /** What `receive_msg` makes of a message that `send_rdma_msg` wrote, between hosts of any byte
      order: the same header and data, handed on exactly when the whole message arrived and memory
      sufficed. */
  lemma ReceiveUndoesSend(e: Endian, h: Header, data: seq<byte>, t: Turn)
    requires t.wc.bytes == Wire(h, data) && t.mem0 && t.mem1 && t.mem2
    ensures CallOf(t, e) == Call(t.wc.wrId, h, data)
    ensures ReceiveRet(t, MsgBufSize(|data|)) == 0 <==> t.wc.byteLen == |t.wc.bytes|
    ensures ReceiveRet(t, MsgBufSize(|data|)) == -1 <==> t.wc.byteLen != |t.wc.bytes|
  {
    ReadWire(e, h, data);
  }

  /** A server that answers by `send_rdma_msg` with the number it received echoes the header, unless
      that number is 0: then its own slot's next number goes out instead. */
  lemma ServerEcho(server: Endian, client: Endian, h: Header, own: u64, data: seq<byte>, reply: seq<byte>)
    ensures var got := ReadHeader(server, Wire(h, data));
      var n := if got.seqn == 0 then SlotRing.NextSeqn(own) else got.seqn;
      var back := ReadHeader(client, Wire(Header(n, got.ch, got.sem), reply));
      && back == SlotRing.EchoHeader(h, SlotRing.NextSeqn(own))
      && (back == h <==> h.seqn != 0 || own == TWO_TO_THE_64 - 1)
  {
    ReadWire(server, h, data);
    var got := ReadHeader(server, Wire(h, data));
    var n := if got.seqn == 0 then SlotRing.NextSeqn(own) else got.seqn;
    ReadWire(client, Header(n, got.ch, got.sem), reply);
  }

  /** The receives among these completions, in order. */
  function Receives(turns: seq<Turn>): (rs: seq<Turn>)
    ensures forall i :: 0 <= i < |rs| ==> IsReceive(rs[i]) && rs[i] in turns
    ensures forall i :: 0 <= i < |turns| && IsReceive(turns[i]) ==> turns[i] in rs
  {
    if turns == [] then []
    else
      var t := turns[|turns| - 1];
      assert turns == turns[..|turns| - 1] + [t];
      Receives(turns[..|turns| - 1]) + if IsReceive(t) then [t] else []
  }

  /** The completions polled are the ones queued, whole, with what is in their buffers, and among them any
      flushed ones and successful sends, writes and reads. */
  ghost predicate Polls(turns: seq<Turn>, s: SlotRing.State, size: nat) {
    var rs := Receives(turns);
    && AllGood(turns, size) && |rs| == |s.cq| && SlotWitness.Whole(s)
    && forall i :: 0 <= i < |rs| ==> rs[i].wc.wrId == s.cq[i].buf && rs[i].wc.bytes == s.recvBuf[s.cq[i].buf]
  }

  /** What is not a receive leads to no call. */
  lemma {:induction false} CallsOfOnly(turns: seq<Turn>, e: Endian)
    requires forall i :: 0 <= i < |turns| && IsReceive(turns[i]) ==> |turns[i].wc.bytes| >= HEADER_SIZE
    ensures Calls(turns, e) == Calls(Receives(turns), e)
  {
    hide CallOf;
    if turns != [] {
      var most, t := turns[..|turns| - 1], turns[|turns| - 1];
      CallsOfOnly(most, e);
      if IsReceive(t) {
        assert Receives(turns)[..|Receives(turns)| - 1] == Receives(most);
      } else {
        assert Receives(turns) == Receives(most);
      }
    }
  }

  lemma {:induction false} CallsOfReceives(turns: seq<Turn>, e: Endian)
    requires forall i :: 0 <= i < |turns| ==> IsReceive(turns[i]) && |turns[i].wc.bytes| >= HEADER_SIZE
    ensures |Calls(turns, e)| == |turns|
    ensures forall i :: 0 <= i < |turns| ==> Calls(turns, e)[i] == CallOf(turns[i], e)
  {
    hide CallOf;
    if turns != [] {
      CallsOfReceives(turns[..|turns| - 1], e);
    }
  }

  /** Calls that all name one channel clear their buffers' bits there and touch no other channel. */
  lemma {:induction false} ClearedInOne(bits: map<u64, seq<bool>>, calls: seq<Call>, ch: u64)
    requires ch in bits && forall i :: 0 <= i < |calls| ==> calls[i].hdr.ch == ch
    ensures Cleared(bits, calls) == bits[ch := ClearAll(bits[ch], CallBufs(calls))]
  {
    hide ClearAll;
    if calls == [] {
      SlotWitness.NothingCleared(bits[ch]);
      assert CallBufs([]) == [];
    } else {
      var most, c := calls[..|calls| - 1], calls[|calls| - 1];
      ClearedInOne(bits, most, ch);
      assert CallBufs(calls) == CallBufs(most) + [c.buf];
      ClearTwice(bits[ch], CallBufs(most), [c.buf]);
    }
  }

  /** Every response waiting in the queue names the client's own channel, so the handler's only demand
      of what it receives is met. */
  lemma QueuedOurs(c: SlotRing.Config, r: SlotRing.Run)
    requires SlotRing.IsRun(c, r)
    ensures var s := SlotTheorems.Last(r);
      && |s.bits| == |s.recvBuf| == c.n
      && forall i :: 0 <= i < |s.cq| ==>
        && s.cq[i].buf < c.n && |s.recvBuf[s.cq[i].buf]| == HEADER_SIZE + c.size
        && ReadHeader(c.client, s.recvBuf[s.cq[i].buf]).ch == c.ch
  {
    hide ReadHeader;
    SlotTheorems.InvAlways(c, r, |r.steps|);
  }

  /** One call of `cq_event_handler` over everything queued, with no failure, and with completions of sends
      and flushed ones anywhere among the receives, is a run of the protocol: the same bits end up clear in
      the client's channel and none in any other, the receive queue is what the code has posted last, after
      `older` posts already used up, and the calls are the protocol's dispatches, header for header. */
  lemma HandlerCallIsARun(c: SlotRing.Config, r: SlotRing.Run, turns: seq<Turn>, v: View, older: seq<nat>)
    returns (r': SlotRing.Run)
    requires SlotRing.IsRun(c, r) && SlotTheorems.Last(r).handler.Idle?
    requires Polls(turns, SlotTheorems.Last(r), HEADER_SIZE + c.size)
    requires c.ch in v.bits && v.bits[c.ch] == SlotTheorems.Last(r).bits
    requires v.posted == older + SlotTheorems.Last(r).posted
    ensures SlotRing.IsRun(c, r') && r.steps <= r'.steps
    ensures forall i :: 0 <= i < |turns| && IsReceive(turns[i]) ==> |turns[i].wc.bytes| == HEADER_SIZE + c.size
    ensures FirstFailure(turns, HEADER_SIZE + c.size) == |turns| && Dispatched(turns, HEADER_SIZE + c.size) == turns
    ensures var s := SlotTheorems.Last(r'); var calls := Calls(turns, c.client);
      var w := After(v, calls, calls);
      && s.handler.Idle? && s.cq == [] && s.seqn == SlotTheorems.Last(r).seqn
      && w.bits == v.bits[c.ch := s.bits] && w.posted == older + s.posted
      && SlotTheorems.Last(r).log <= s.log
      && SameCalls(w.calls[|v.calls|..], s.log[|SlotTheorems.Last(r).log|..])
  {
    hide SlotRing.Next, SlotRing.Init, Calls, SlotWitness.Pending, SlotRing.Bufs, CallBufs, ClearAll, Sems, Cleared,
      ReadHeader;
    var s0 := SlotTheorems.Last(r);
    r' := SlotWitness.DrainQueue(c, r);
    QueuedOurs(c, r);
    PolledBytes(turns, s0, HEADER_SIZE + c.size);
    var calls := Calls(turns, c.client);
    PolledCalls(turns, s0, c.client, HEADER_SIZE + c.size);
    OursCalled(turns, s0, c.client, c.ch, HEADER_SIZE + c.size);
    ClearedInOne(v.bits, calls, c.ch);
    GoodGoOn(turns, HEADER_SIZE + c.size);
    var s1 := SlotTheorems.Last(r');
    assert s1.posted == s0.posted + CallBufs(calls);
    SlotWitness.Regroup(older, s0.posted, CallBufs(calls));
    assert After(v, calls, calls).calls[|v.calls|..] == calls;
    assert s1.log[|s0.log|..] == SlotWitness.Pending(c.client, s0.cq, s0.recvBuf);
  }

  lemma PolledBytes(turns: seq<Turn>, s: SlotRing.State, size: nat)
    requires Polls(turns, s, size)
    requires forall i :: 0 <= i < |s.cq| ==> |s.recvBuf[s.cq[i].buf]| == size
    ensures forall i :: 0 <= i < |turns| && IsReceive(turns[i]) ==> |turns[i].wc.bytes| == size
  {
  }

  lemma OursCalled(turns: seq<Turn>, s: SlotRing.State, e: Endian, ch: u64, size: nat)
    requires Polls(turns, s, size)
    requires forall i :: 0 <= i < |turns| && IsReceive(turns[i]) ==> |turns[i].wc.bytes| >= HEADER_SIZE
    requires forall i :: 0 <= i < |s.cq| ==> ReadHeader(e, s.recvBuf[s.cq[i].buf]).ch == ch
    ensures forall i :: 0 <= i < |Calls(turns, e)| ==> Calls(turns, e)[i].hdr.ch == ch
  {
    hide ReadHeader, AllGood;
    CallsOfOnly(turns, e);
    CallsOfReceives(Receives(turns), e);
  }

  /** Polling what is queued leads to the calls the queue was going to lead to. */
  lemma PolledCalls(turns: seq<Turn>, s: SlotRing.State, e: Endian, size: nat)
    requires Polls(turns, s, size)
    requires forall i :: 0 <= i < |turns| && IsReceive(turns[i]) ==> |turns[i].wc.bytes| >= HEADER_SIZE
    ensures CallBufs(Calls(turns, e)) == SlotRing.Bufs(s.cq)
    ensures SameCalls(Calls(turns, e), SlotWitness.Pending(e, s.cq, s.recvBuf))
  {
    hide ReadHeader, AllGood;
    CallsOfOnly(turns, e);
    CallsOfReceives(Receives(turns), e);
  }

  ghost predicate SameCalls(a: seq<Call>, d: seq<SlotRing.Dispatch>) {
    |a| == |d| && forall i :: 0 <= i < |a| ==> a[i].buf == d[i].buf && a[i].hdr == d[i].hdr
  }

  // ---------------------------------------------------------------- the code itself, along a run

  /** The channel's memory is as the state says: the bits of the client's own channel, the counters, the
      receive queue behind `older` posts already used up, and nothing being handled. */
  ghost predicate Mirrors(ch: RdmaChannel, c: SlotRing.Config, s: SlotRing.State, older: seq<nat>)
    reads ch, ch.heap, ch.Chans(), ch.Arrays(), set i | 0 <= i < |ch.ctxs| :: ch.ctxs[i]
  {
    && ch.Valid() && ch.Ready()
    && |ch.ctxs| == c.n && ch.size == HEADER_SIZE + c.size && ch.endian == c.client
    && c.ch in ch.channels && ch.Bitmaps()[c.ch] == s.bits
    && ch.posted == older + s.posted
    && |s.seqn| == c.n && (forall i :: 0 <= i < c.n ==> ch.ctxs[i].seqn == s.seqn[i])
    && s.handler.Idle?
  }

  /** Setting a channel up leaves it as the protocol's initial state has it. */
  method Start(c: SlotRing.Config) returns (ch: RdmaChannel)
    requires SlotRing.Ok(c)
    ensures fresh(ch) && Mirrors(ch, c, SlotRing.Init(c), []) && ch.calls == []
  {
    hide SlotRing.Rotation;
    var rpc := new RpcCommon.RpcChannel(c.n);
    var heap := new Heap();
    ch := new RdmaChannel(c.n, c.size, c.client, map[c.ch := rpc], heap);
    ch.SetupWr();
    var ret := ch.PostReceives(seq(c.n, _ => 0));
    FirstRing(c);
  }

  lemma FirstRing(c: SlotRing.Config)
    requires SlotRing.Ok(c)
    ensures SlotRing.Rotation(c.n, 0) == SlotRing.Init(c).posted
  {
    SlotRing.RotationStart(c.n);
  }

  /** The run with one vain attempt more. */
  lemma Tried(c: SlotRing.Config, r: SlotRing.Run) returns (r': SlotRing.Run)
    requires SlotRing.IsRun(c, r) && FirstClear(SlotTheorems.Last(r).bits) == c.n
    ensures SlotRing.IsRun(c, r') && r'.steps == r.steps + [SlotRing.Spin]
    ensures SlotTheorems.Last(r') == SlotTheorems.Last(r)
  {
    SlotTheorems.InvAlways(c, r, |r.steps|);
    r' := SlotTheorems.Extend(c, r, SlotRing.Spin);
  }

  /** The run with a request more, sent or not. */
  lemma Requested(c: SlotRing.Config, r: SlotRing.Run, data: seq<byte>, sem: u64, post: int) returns (r': SlotRing.Run)
    requires SlotRing.IsRun(c, r) && FirstClear(SlotTheorems.Last(r).bits) < c.n && |data| == c.size
    ensures SlotRing.IsRun(c, r')
    ensures var s, s' := SlotTheorems.Last(r), SlotTheorems.Last(r'); var b := FirstClear(s.bits);
      && |s.bits| == |s.seqn| == c.n
      && var n := SlotRing.NextSeqn(s.seqn[b]);
      && r'.steps == r.steps + [SlotRing.Alloc, if post == 0 then SlotRing.Send(|s.at|, sem, data)
                                                else SlotRing.SendFails(|s.at|, sem)]
      && s'.bits == s.bits[b := true] && s'.seqn == s.seqn[b := n] && s'.slotOf == s.slotOf + [b]
      && s'.posted == s.posted && s'.handler == s.handler
      && s'.at == s.at + [if post == 0 then SlotRing.AtServer(Wire(Header(n, c.ch, sem), data)) else SlotRing.Lost]
  {
    hide ReadHeader, Wire, FirstClear;
    var s := SlotTheorems.Last(r);
    SlotTheorems.InvAlways(c, r, |r.steps|);
    var r1 := SlotTheorems.Extend(c, r, SlotRing.Alloc);
    SlotRing.ShapeKept(c, s, SlotRing.Alloc);
    var t := if post == 0 then SlotRing.Send(|s.at|, sem, data) else SlotRing.SendFails(|s.at|, sem);
    r' := SlotTheorems.Extend(c, r1, t);
  }

  /** A request through the code: if the channel mirrored the protocol before, it mirrors the run with the
      attempt, or the slot taken and the send, after; and the request is where the protocol has it, with
      the very message given to the device. */
  method Request(ch: RdmaChannel, data: seq<byte>, sem: u64, post: int,
                 chAddr: u64, ghost c: SlotRing.Config, ghost r: SlotRing.Run, ghost older: seq<nat>)
    returns (id: Option<nat>, ghost r': SlotRing.Run)
    requires SlotRing.IsRun(c, r) && Mirrors(ch, c, SlotTheorems.Last(r), older)
    requires |data| == ch.size - HEADER_SIZE && chAddr == c.ch
    modifies ch`sent, ch.Chans(), ch.Arrays()
    modifies set i | 0 <= i < |ch.ctxs| :: ch.ctxs[i], set i | 0 <= i < |ch.ctxs| :: ch.ctxs[i].sendBuf
    ensures SlotRing.IsRun(c, r') && Mirrors(ch, c, SlotTheorems.Last(r'), older)
    ensures old(ch.sent) <= ch.sent && ch.calls == old(ch.calls)
    ensures var s, s' := SlotTheorems.Last(r), SlotTheorems.Last(r');
      if id.None? then r'.steps == r.steps + [SlotRing.Spin] && s' == s && ch.sent == old(ch.sent)
      else
        && r'.steps == r.steps + [SlotRing.Alloc, if post == 0 then SlotRing.Send(|s.at|, sem, data)
                                                  else SlotRing.SendFails(|s.at|, sem)]
        && s'.slotOf == s.slotOf + [id.value]
        && |ch.sent| == |old(ch.sent)| + (if post == 0 then 1 else 0)
        && s'.at == s.at + [if post == 0 then SlotRing.AtServer(ch.sent[|old(ch.sent)|]) else SlotRing.Lost]
  {
    hide SlotRing.IsRun, FirstClear, Wire, RdmaChannel.Bitmaps, RdmaChannel.Unlocked;
    BitsThere(ch, c, r, older);
    id := ch.SendRequest(chAddr, data, sem, post);
    assert data[..ch.size - HEADER_SIZE] == data;
    if id.None? {
      r' := Tried(c, r);
    } else {
      r' := Requested(c, r, data, sem, post);
    }
  }

  lemma BitsThere(ch: RdmaChannel, c: SlotRing.Config, r: SlotRing.Run, older: seq<nat>)
    requires SlotRing.IsRun(c, r) && Mirrors(ch, c, SlotTheorems.Last(r), older)
    ensures ch.channels[c.ch].bitmap.Length == |ch.ctxs| && |SlotTheorems.Last(r).bits| == c.n
  {
    SlotTheorems.InvAlways(c, r, |r.steps|);
    assert |ch.Bitmaps()[c.ch]| == ch.channels[c.ch].bitmap.Length;
  }

  /** What the handler needs of each completion holds of everything queued. */
  lemma QueuedFit(ch: RdmaChannel, c: SlotRing.Config, r: SlotRing.Run, turns: seq<Turn>, older: seq<nat>)
    requires SlotRing.IsRun(c, r) && Mirrors(ch, c, SlotTheorems.Last(r), older)
    requires Polls(turns, SlotTheorems.Last(r), HEADER_SIZE + c.size)
    ensures BytesOk(turns, ch.size) && forall i :: 0 <= i < |turns| ==> ch.Fits(turns[i])
  {
    hide SlotRing.Next, SlotRing.Init, ReadHeader;
    var s := SlotTheorems.Last(r);
    QueuedOurs(c, r);
    PolledBytes(turns, s, ch.size);
    forall i | 0 <= i < |turns|
      ensures ch.Fits(turns[i])
    {
      if IsReceive(turns[i]) {
        var j :| 0 <= j < |Receives(turns)| && Receives(turns)[j] == turns[i];
        assert turns[i].wc.wrId == s.cq[j].buf;
      }
    }
  }

  /** The completion handler called on what is queued, nothing failing: if the channel mirrored the
      protocol before, it mirrors the state of a longer run after, and has called the user's handler
      for just that run's new dispatches.  It returns 1 if anything was flushed, else 0; a response moves a
      channel that is not disconnected or in error to WORKING. */
  method ServeQueue(ch: RdmaChannel, turns: seq<Turn>, ghost c: SlotRing.Config, ghost r: SlotRing.Run,
                    ghost older: seq<nat>)
    returns (ret: int, ghost r': SlotRing.Run)
    requires SlotRing.IsRun(c, r) && Mirrors(ch, c, SlotTheorems.Last(r), older)
    requires Polls(turns, SlotTheorems.Last(r), HEADER_SIZE + c.size)
    modifies ch, ch.heap, ch.Chans(), ch.Arrays()
    ensures ret == if exists i :: 0 <= i < |turns| && turns[i].wc.status == 5 then 1 else 0
    ensures SlotRing.IsRun(c, r') && r.steps <= r'.steps
    ensures Mirrors(ch, c, SlotTheorems.Last(r'), older) && SlotTheorems.Last(r').cq == []
    ensures old(ch.calls) <= ch.calls && SlotTheorems.Last(r).log <= SlotTheorems.Last(r').log
    ensures SameCalls(ch.calls[|old(ch.calls)|..], SlotTheorems.Last(r').log[|SlotTheorems.Last(r).log|..])
    ensures ch.heap.live == old(ch.heap.live) && ch.signals == old(ch.signals)
    ensures ch.Bitmaps() == old(ch.Bitmaps())[c.ch := SlotTheorems.Last(r').bits]
    ensures ch.state == if SlotTheorems.Last(r).cq == [] || old(ch.state).DISCONNECTED? || old(ch.state).ERROR?
                        then old(ch.state) else WORKING
  {
    hide SlotRing.Next, SlotRing.Init, Calls, Cleared, ReadHeader, FirstFailure, Dispatched, AllGood, Receives, CallOf,
      RdmaChannel.Fits, RdmaChannel.Unlocked;
    ghost var v := ch.Shows();
    QueuedFit(ch, c, r, turns, older);
    r' := HandlerCallIsARun(c, r, turns, v, older);
    PolledCalls(turns, SlotTheorems.Last(r), c.client, HEADER_SIZE + c.size);
    var polled;
    ret, polled := ch.CqEventHandler(turns, 0);
    DispatchedAt(turns, ch.size);
  }
}
