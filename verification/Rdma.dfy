/** rdma.c, rpc_client.c and the test's callback as imperative code: sending from a slot's buffer,
    receiving into heap objects, the completion loop, and the set-up loops. */
module Rdma {
  import opened Bitmap
  import opened Codec
  import SlotRing
  import opened Options
  import opened RpcCommon

  /** enum rdma_ch_state, in its order. */
  datatype ChState =
    | IDLE | CONNECT_REQUEST | ADDR_RESOLVED | ROUTE_RESOLVED | CONNECTED | WORKING | DISCONNECTED | ERROR

  /** `state <= CONNECTED` in that order. */
  predicate AtMostConnected(s: ChState) {
    !s.WORKING? && !s.DISCONNECTED? && !s.ERROR?
  }

  const ENOMEM: int := 12

  /** kzalloc and kfree: the live blocks, and names never given out twice. */
  class Heap {
    var live: set<nat>
    var next: nat

    ghost predicate Valid()
      reads this
    {
      forall p :: p in live ==> p < next
    }

    constructor ()
      ensures Valid() && live == {}
    {
      live, next := {}, 0;
    }

    method Kzalloc(enough: bool) returns (p: Option<nat>)
      requires Valid()
      modifies this
      ensures Valid()
      ensures p == if enough then Some(old(next)) else None
      ensures live == old(live) + (if enough then {old(next)} else {})
      ensures next == old(next) + (if enough then 1 else 0)
    {
      if enough {
        p := Some(next);
        live := live + {next};
        next := next + 1;
      } else {
        p := None;
      }
    }

    /** Only a live block may be freed, so nothing is freed twice. */
    method Kfree(p: nat)
      requires Valid() && p in live
      modifies this
      ensures Valid() && live == old(live) - {p} && next == old(next)
    {
      live := live - {p};
    }
  }

  /** struct msgbuf_ctx: one slot's sending side, and its receive request's wr_id. */
  class MsgbufCtx {
    var seqn: u64
    var wrId: nat
    const sendBuf: array<byte>

    constructor (size: nat)
      ensures fresh(this) && fresh(sendBuf) && sendBuf.Length == size && seqn == 1
      ensures forall j :: 0 <= j < size ==> sendBuf[j] == 0
    {
      sendBuf := new byte[size](_ => 0);
      seqn := 1;
      wrId := 0;
    }
  }

  method NewCtxs(cnt: nat, size: nat) returns (cs: seq<MsgbufCtx>)
    ensures |cs| == cnt
    ensures forall i :: 0 <= i < cnt ==> fresh(cs[i]) && fresh(cs[i].sendBuf)
    ensures forall i :: 0 <= i < cnt ==> cs[i].sendBuf.Length == size && cs[i].seqn == 1
    ensures forall i, j :: 0 <= i < cnt && 0 <= j < size ==> cs[i].sendBuf[j] == 0
    ensures forall i, j :: 0 <= i < j < cnt ==> cs[i] != cs[j] && cs[i].sendBuf != cs[j].sendBuf
  {
    cs := [];
    for k := 0 to cnt
      invariant |cs| == k
      invariant forall i :: 0 <= i < k ==> fresh(cs[i]) && fresh(cs[i].sendBuf)
      invariant forall i :: 0 <= i < k ==> cs[i].sendBuf.Length == size && cs[i].seqn == 1
      invariant forall i, j :: 0 <= i < k && 0 <= j < size ==> cs[i].sendBuf[j] == 0
      invariant forall i, j :: 0 <= i < j < k ==> cs[i] != cs[j] && cs[i].sendBuf != cs[j].sendBuf
    {
      var c := new MsgbufCtx(size);
      cs := cs + [c];
    }
  }

  // ---------------------------------------------------------------- completions

  datatype Opcode = SEND | RDMA_WRITE | RDMA_READ | RECV | UNKNOWN

  const SUCCESS: int := 0
  const FLUSH_ERR: int := 5

  /** A polled completion; `bytes` is what the receive buffer holds when it is polled. */
  datatype Wc = Wc(status: int, opcode: Opcode, wrId: nat, byteLen: nat, bytes: seq<byte>)

  /** One turn of the loop: the completion, whether each of the three allocations succeeds, and
      what ib_post_recv returns. */
  datatype Turn = Turn(wc: Wc, mem0: bool, mem1: bool, mem2: bool, post: int)

  /** One call of the RPC handler and, through it, of the user's. */
  datatype Call = Call(buf: nat, hdr: Header, data: seq<byte>)

  predicate IsReceive(t: Turn) {
    t.wc.status == SUCCESS && t.wc.opcode.RECV?
  }

  /** What receive_msg returns. */
  function ReceiveRet(t: Turn, size: nat): int {
    if t.wc.byteLen != size then -1
    else if t.mem0 && t.mem1 && t.mem2 then 0 else -ENOMEM
  }

  /** The nonzero result this turn ends the loop with, or 0 if it goes on. */
  function TurnRet(t: Turn, size: nat): int {
    if t.wc.status == FLUSH_ERR then 0
    else if t.wc.status != SUCCESS || t.wc.opcode.UNKNOWN? then -1
    else if !t.wc.opcode.RECV? then 0
    else if ReceiveRet(t, size) != 0 then ReceiveRet(t, size)
    else t.post
  }

  /** The first turn that ends the loop, or their number. */
  function FirstFailure(turns: seq<Turn>, size: nat): (k: nat)
    ensures k <= |turns|
    ensures forall i :: 0 <= i < k ==> TurnRet(turns[i], size) == 0
    ensures k < |turns| ==> TurnRet(turns[k], size) != 0
  {
    if turns == [] || TurnRet(turns[0], size) != 0 then 0 else 1 + FirstFailure(turns[1..], size)
  }

  lemma FirstFailureIs(turns: seq<Turn>, size: nat, k: nat)
    requires k <= |turns| && forall i :: 0 <= i < k ==> TurnRet(turns[i], size) == 0
    requires k < |turns| ==> TurnRet(turns[k], size) != 0
    ensures FirstFailure(turns, size) == k
  {
  }

  /** The call a receive leads to. */
  function CallOf(t: Turn, e: Endian): Call
    requires |t.wc.bytes| >= HEADER_SIZE
  {
    Call(t.wc.wrId, ReadHeader(e, t.wc.bytes), t.wc.bytes[HEADER_SIZE..])
  }

  /** The handler calls for these turns, one per receive, in order. */
  function Calls(turns: seq<Turn>, e: Endian): seq<Call>
    requires forall i :: 0 <= i < |turns| && IsReceive(turns[i]) ==> |turns[i].wc.bytes| >= HEADER_SIZE
  {
    if turns == [] then []
    else
      var t := turns[|turns| - 1];
      Calls(turns[..|turns| - 1], e) +
      (if IsReceive(t) then [CallOf(t, e)] else [])
  }

  function CallBufs(calls: seq<Call>): (r: seq<nat>)
    ensures |r| == |calls|
  {
    seq(|calls|, i requires 0 <= i < |calls| => calls[i].buf)
  }

  /** The turns whose receive reaches the handler: the longest prefix that does not fail, and one
      more if only its re-post fails. */
  function Dispatched(turns: seq<Turn>, size: nat): (d: seq<Turn>)
    ensures d <= turns
  {
    var k := FirstFailure(turns, size);
    if k < |turns| && IsReceive(turns[k]) && ReceiveRet(turns[k], size) == 0 then turns[..k + 1] else turns[..k]
  }

  function Sems(calls: seq<Call>): seq<u64> {
    seq(|calls|, i requires 0 <= i < |calls| => calls[i].hdr.sem)
  }

  /** The bitmaps of the client's channels, by address, once these calls are made: each clears the bit
      of its buffer in the channel its header names. */
  function Cleared(bits: map<u64, seq<bool>>, calls: seq<Call>): (r: map<u64, seq<bool>>)
    ensures r.Keys == bits.Keys
  {
    if calls == [] then bits
    else
      var rest := Cleared(bits, calls[..|calls| - 1]);
      var c := calls[|calls| - 1];
      if c.hdr.ch in rest then rest[c.hdr.ch := ClearAll(rest[c.hdr.ch], [c.buf])] else rest
  }

  /** One of these calls was for buffer `b` and named channel `ch`. */
  ghost predicate Names(calls: seq<Call>, ch: u64, b: nat) {
    exists i :: 0 <= i < |calls| && calls[i].buf == b && calls[i].hdr.ch == ch
  }

  lemma NamesMore(calls: seq<Call>, c: Call, ch: u64, b: nat)
    ensures Names(calls + [c], ch, b) <==> Names(calls, ch, b) || (c.buf == b && c.hdr.ch == ch)
  {
    if i :| 0 <= i < |calls| && calls[i].buf == b && calls[i].hdr.ch == ch {
      assert (calls + [c])[i].buf == b;
    }
    assert (calls + [c])[|calls|] == c;
  }

  /** In each channel exactly the bits of the buffers that came with its address are cleared. */
  lemma {:induction false} ClearedBits(bits: map<u64, seq<bool>>, calls: seq<Call>, ch: u64, b: nat)
    requires ch in bits
    ensures |Cleared(bits, calls)[ch]| == |bits[ch]|
    ensures b < |bits[ch]| ==> (Cleared(bits, calls)[ch][b] <==> bits[ch][b] && !Names(calls, ch, b))
  {
    hide Names;
    if calls == [] {
      assert !Names([], ch, b) by { NamesNone(ch, b); }
    } else {
      var most, c := calls[..|calls| - 1], calls[|calls| - 1];
      ClearedBits(bits, most, ch, b);
      assert most + [c] == calls;
      NamesMore(most, c, ch, b);
    }
  }

  lemma NamesNone(ch: u64, b: nat)
    ensures !Names([], ch, b)
  {
  }

  /** What a channel shows of the responses it has dealt with. */
  datatype View =
    View(calls: seq<Call>, woken: seq<u64>, bits: map<u64, seq<bool>>, posted: seq<nat>, state: ChState)

  /** The view once `got` have been handled and the buffers of `again` posted again. */
  function After(v: View, got: seq<Call>, again: seq<Call>): View {
    View(v.calls + got,
         v.woken + Sems(got),
         Cleared(v.bits, got),
         v.posted + CallBufs(again),
         if got != [] && AtMostConnected(v.state) then WORKING else v.state)
  }

  lemma AfterNothing(v: View)
    ensures After(v, [], []) == v
  {
  }

  lemma AfterOne(v: View, c: Call)
    ensures After(v, [c], []) == View(v.calls + [c], v.woken + [c.hdr.sem], Cleared(v.bits, [c]), v.posted,
                                      if AtMostConnected(v.state) then WORKING else v.state)
  {
    hide Cleared;
    assert Sems([c]) == [c.hdr.sem];
  }

  lemma AfterOneMore(v: View, calls: seq<Call>, c: Call)
    ensures After(After(v, calls, calls), [c], []) == After(v, calls + [c], calls)
    ensures After(After(v, calls, calls), [c], [c]) == After(v, calls + [c], calls + [c])
  {
    assert CallBufs(calls + [c]) == CallBufs(calls) + [c.buf];
    assert Sems(calls + [c]) == Sems(calls) + [c.hdr.sem];
    assert CallBufs([c]) == [c.buf] && Sems([c]) == [c.hdr.sem];
    assert (calls + [c])[..|calls|] == calls;
    assert Cleared(Cleared(v.bits, calls), [c][..0]) == Cleared(v.bits, calls);
  }

  // ---------------------------------------------------------------- the completion loop

  ghost predicate BytesOk(turns: seq<Turn>, size: nat) {
    size >= HEADER_SIZE && forall i :: 0 <= i < |turns| && IsReceive(turns[i]) ==> |turns[i].wc.bytes| == size
  }

  /** What one call of the completion loop comes to.  It takes exactly the turns before the first
      failure, and the one that fails; each successful receive is handled once and its buffer posted
      again once, in order; it ends in ERROR with a nonzero result exactly when a turn or the last
      poll fails, and otherwise says whether anything was flushed. */
  ghost predicate Ended(before: View, after: View, turns: seq<Turn>, last: int, size: nat, e: Endian, ret: int, polled: nat)
    requires BytesOk(turns, size)
  {
    var k := FirstFailure(turns, size);
    var failed := k < |turns| || last != 0;
    var v := After(before, Calls(Dispatched(turns, size), e), Calls(turns[..k], e));
    && polled == k + 1
    && (failed <==> ret != 0 && ret == (if k < |turns| then TurnRet(turns[k], size) else last) && after.state.ERROR?)
    && after == (if failed then v.(state := ERROR) else v)
    && (!failed ==> ret == if AnyFlushed(turns) then 1 else 0)
  }

  /** The loop's state after `k` turns, none of which failed. */
  ghost predicate Gone(before: View, now: View, turns: seq<Turn>, k: nat, e: Endian, size: nat, flushed: int)
    requires BytesOk(turns, size)
  {
    && k <= |turns| && (forall i :: 0 <= i < k ==> TurnRet(turns[i], size) == 0)
    && now == After(before, Calls(turns[..k], e), Calls(turns[..k], e))
    && flushed == if AnyFlushed(turns[..k]) then 1 else 0
  }

  lemma GoneNowhere(before: View, turns: seq<Turn>, e: Endian, size: nat)
    requires BytesOk(turns, size)
    ensures Gone(before, before, turns, 0, e, size, 0)
  {
    NothingYet(turns, e);
    AfterNothing(before);
  }

  /** The view a turn that was not flushed leaves. */
  function Handled(v: View, t: Turn, e: Endian, size: nat): View
    requires IsReceive(t) ==> |t.wc.bytes| >= HEADER_SIZE
  {
    if !IsReceive(t) || ReceiveRet(t, size) != 0 then v
    else After(v, [CallOf(t, e)], if TurnRet(t, size) == 0 then [CallOf(t, e)] else [])
  }

  /** One more turn that does not fail. */
  lemma GoneOn(before: View, now: View, turns: seq<Turn>, k: nat, e: Endian, size: nat, flushed: int)
    requires BytesOk(turns, size) && k < |turns| && Gone(before, now, turns, k, e, size, flushed)
    requires TurnRet(turns[k], size) == 0
    ensures var t := turns[k];
      if t.wc.status == FLUSH_ERR then Gone(before, now, turns, k + 1, e, size, 1)
      else Gone(before, Handled(now, t, e, size), turns, k + 1, e, size, flushed)
  {
    hide Calls, After, AnyFlushed, CallOf, FirstFailure, ReadHeader;
    CallsStep(turns, k, e);
    AnyFlushedStep(turns, k);
    if IsReceive(turns[k]) {
      AfterOneMore(before, Calls(turns[..k], e), CallOf(turns[k], e));
    }
  }

  /** The turn that ends the loop. */
  lemma GoneWrong(before: View, now: View, turns: seq<Turn>, k: nat, last: int, e: Endian, size: nat, flushed: int)
    requires BytesOk(turns, size) && k < |turns| && Gone(before, now, turns, k, e, size, flushed)
    requires TurnRet(turns[k], size) != 0
    ensures FirstFailure(turns, size) == k
    ensures Ended(before, Handled(now, turns[k], e, size).(state := ERROR), turns, last, size, e,
                  TurnRet(turns[k], size), k + 1)
  {
    hide Calls, After, AnyFlushed, CallOf, FirstFailure, ReadHeader;
    CallsStep(turns, k, e);
    if IsReceive(turns[k]) {
      AfterOneMore(before, Calls(turns[..k], e), CallOf(turns[k], e));
    }
    FirstFailureIs(turns, size, k);
    DispatchedAt(turns, size);
    hide Dispatched;
  }

  /** One turn either way. */
  lemma GoneOnOrWrong(before: View, now: View, turns: seq<Turn>, k: nat, last: int, e: Endian, size: nat, flushed: int)
    requires BytesOk(turns, size) && k < |turns| && Gone(before, now, turns, k, e, size, flushed)
    ensures var t := turns[k];
      if t.wc.status == FLUSH_ERR then Gone(before, now, turns, k + 1, e, size, 1)
      else if TurnRet(t, size) == 0 then Gone(before, Handled(now, t, e, size), turns, k + 1, e, size, flushed)
      else FirstFailure(turns, size) == k
           && Ended(before, Handled(now, t, e, size).(state := ERROR), turns, last, size, e, TurnRet(t, size), k + 1)
  {
    hide Gone, Ended, Handled, FirstFailure;
    if TurnRet(turns[k], size) == 0 {
      GoneOn(before, now, turns, k, e, size, flushed);
    } else {
      GoneWrong(before, now, turns, k, last, e, size, flushed);
    }
  }

  lemma DispatchedAt(turns: seq<Turn>, size: nat)
    ensures var k := FirstFailure(turns, size);
      Dispatched(turns, size) ==
        if k < |turns| && IsReceive(turns[k]) && ReceiveRet(turns[k], size) == 0 then turns[..k + 1] else turns[..k]
  {
  }

  lemma GoneThrough(before: View, now: View, turns: seq<Turn>, last: int, e: Endian, size: nat, flushed: int)
    requires BytesOk(turns, size) && Gone(before, now, turns, |turns|, e, size, flushed)
    ensures FirstFailure(turns, size) == |turns|
    ensures if last == 0 then Ended(before, now, turns, last, size, e, flushed, |turns| + 1)
            else Ended(before, now.(state := ERROR), turns, last, size, e, last, |turns| + 1)
  {
    FirstFailureIs(turns, size, |turns|);
    assert turns[..|turns|] == turns;
  }

  /** A completion that is not a receive and does no harm: flushed, or a successful send, write or read. */
  predicate Quiet(t: Turn) {
    || t.wc.status == 5
    || (t.wc.status == 0 && (t.wc.opcode.SEND? || t.wc.opcode.RDMA_WRITE? || t.wc.opcode.RDMA_READ?))
  }

  /** A receive of a whole message for which there is memory, and whose buffer goes back. */
  predicate WholeReceive(t: Turn, size: nat) {
    && t.wc.status == 0 && t.wc.opcode.RECV? && t.wc.byteLen == size
    && t.mem0 && t.mem1 && t.mem2 && t.post == 0
  }

  ghost predicate AllGood(turns: seq<Turn>, size: nat) {
    forall i :: 0 <= i < |turns| ==> Quiet(turns[i]) || WholeReceive(turns[i], size)
  }

  /** A receive of a whole message for which there is memory, whether or not its buffer goes back. */
  predicate HandedOn(t: Turn, size: nat) {
    t.wc.status == 0 && t.wc.opcode.RECV? && t.wc.byteLen == size && t.mem0 && t.mem1 && t.mem2
  }

  /** What each kind of completion makes of the loop. */
  lemma TurnMeans(t: Turn, size: nat)
    ensures TurnRet(t, size) == 0 <==> Quiet(t) || WholeReceive(t, size)
    ensures TurnRet(t, size) ==
      if Quiet(t) then 0
      else if t.wc.status != 0 || t.wc.opcode.UNKNOWN? || t.wc.byteLen != size then -1
      else if t.mem0 && t.mem1 && t.mem2 then t.post else -12
    ensures IsReceive(t) && ReceiveRet(t, size) == 0 <==> HandedOn(t, size)
  {
  }

  /** Good completions, in any order, end no loop. */
  lemma GoodGoOn(turns: seq<Turn>, size: nat)
    requires AllGood(turns, size)
    ensures FirstFailure(turns, size) == |turns| && Dispatched(turns, size) == turns
  {
    GoodBefore(turns, size, |turns|);
    DispatchedAt(turns, size);
    assert turns[..|turns|] == turns;
  }

  lemma GoodBefore(turns: seq<Turn>, size: nat, k: nat)
    requires k <= |turns| && AllGood(turns[..k], size)
    requires k < |turns| ==> !Quiet(turns[k]) && !WholeReceive(turns[k], size)
    ensures FirstFailure(turns, size) == k
  {
    hide TurnRet, Quiet, WholeReceive;
    forall i | 0 <= i < k
      ensures TurnRet(turns[i], size) == 0
    {
      assert turns[..k][i] == turns[i];
      TurnMeans(turns[i], size);
    }
    if k < |turns| {
      TurnMeans(turns[k], size);
    }
    FirstFailureIs(turns, size, k);
  }

  /** What the loop comes to when completion `k` is the first that is not good, by what is wrong with it. */
  lemma LoopFails(before: View, after: View, turns: seq<Turn>, last: int, size: nat, e: Endian,
                  ret: int, polled: nat, k: nat)
    requires BytesOk(turns, size) && Ended(before, after, turns, last, size, e, ret, polled)
    requires k < |turns| && AllGood(turns[..k], size) && !Quiet(turns[k]) && !WholeReceive(turns[k], size)
    ensures var t := turns[k];
      && after.state.ERROR? && polled == k + 1
      && after.posted == before.posted + CallBufs(Calls(turns[..k], e))
      && ret == (if t.wc.status != 0 || t.wc.opcode.UNKNOWN? || t.wc.byteLen != size then -1
                 else if t.mem0 && t.mem1 && t.mem2 then t.post else -12)
      && after.calls == before.calls + Calls(turns[..k], e)
           + (if t.wc.status == 0 && t.wc.opcode.RECV? && t.wc.byteLen == size && t.mem0 && t.mem1 && t.mem2
              then [CallOf(t, e)] else [])
  {
    hide Calls, CallOf, Cleared, CallBufs, Sems, FirstFailure, Dispatched, TurnRet, ReceiveRet, Quiet, WholeReceive,
      AllGood, AnyFlushed;
    GoodBefore(turns, size, k);
    TurnMeans(turns[k], size);
    DispatchedAt(turns, size);
    CallsStep(turns, k, e);
  }

  /** And when all are good and the last poll decides. */
  lemma LoopGoesThrough(before: View, after: View, turns: seq<Turn>, last: int, size: nat, e: Endian, ret: int, polled: nat)
    requires BytesOk(turns, size) && Ended(before, after, turns, last, size, e, ret, polled) && AllGood(turns, size)
    ensures polled == |turns| + 1
    ensures after.calls == before.calls + Calls(turns, e) && after.posted == before.posted + CallBufs(Calls(turns, e))
    ensures last != 0 ==> ret == last && after.state.ERROR?
    ensures last == 0 ==> ret == if exists i :: 0 <= i < |turns| && turns[i].wc.status == 5 then 1 else 0
    ensures last == 0 && Calls(turns, e) == [] ==> after.state == before.state
    ensures last == 0 && Calls(turns, e) != [] ==>
      after.state == if before.state.DISCONNECTED? || before.state.ERROR? then before.state else WORKING
  {
    hide Calls, CallOf, Cleared, CallBufs, Sems, FirstFailure, Dispatched, TurnRet, ReceiveRet, AllGood;
    GoodGoOn(turns, size);
    assert turns[..|turns|] == turns;
  }

  // ---------------------------------------------------------------- the channel

  /** Different addresses hold different channels. */
  ghost predicate Apart(channels: map<u64, RpcChannel>) {
    forall a, b :: a in channels && b in channels && a != b ==>
      channels[a] != channels[b] && channels[a].bitmap != channels[b].bitmap
  }

  class RdmaChannel {
    const size: nat                  // msgbuf_size
    const endian: Endian
    const channels: map<u64, RpcChannel>  // the client's rpc_ch_infos, by address
    const ctxs: seq<MsgbufCtx>
    const heap: Heap
    var state: ChState
    var posted: seq<nat>             // wr_ids given to ib_post_recv
    var sent: seq<seq<byte>>         // messages given to ib_post_send
    var calls: seq<Call>
    var woken: seq<u64>              // wait queues woken by the user's handler
    var signals: nat                 // wake-ups of the channel's own wait queue

    ghost predicate Valid()
      reads this, heap, Chans()
    {
      && size >= HEADER_SIZE
      && (forall i :: 0 <= i < |ctxs| ==> ctxs[i].sendBuf.Length == size)
      && (forall i, j :: 0 <= i < j < |ctxs| ==> ctxs[i] != ctxs[j] && ctxs[i].sendBuf != ctxs[j].sendBuf)
      && heap.Valid() && Unlocked()
    }

    /** Different addresses hold different channels, and nobody is inside a lock. */
    ghost predicate Unlocked()
      reads Chans()
    {
      Apart(channels) && forall a :: a in channels ==> !channels[a].locked
    }

    /** The channels, and where their bitmaps are. */
    ghost function Chans(): set<RpcChannel> {
      set a | a in channels :: channels[a]
    }

    ghost function Arrays(): set<array<bool>> {
      set a | a in channels :: channels[a].bitmap
    }

    /** The channels' bitmaps, by address. */
    function Bitmaps(): map<u64, seq<bool>>
      reads Arrays()
    {
      map a | a in channels :: channels[a].bitmap[..]
    }

    function Shows(): View
      reads this, Arrays()
    {
      View(calls, woken, Bitmaps(), posted, state)
    }

    /** setup_wr has run: every receive request carries its slot's number. */
    ghost predicate Ready()
      reads this, set i | 0 <= i < |ctxs| :: ctxs[i]
    {
      forall i :: 0 <= i < |ctxs| ==> ctxs[i].wrId == i
    }

    /** init_rdma_ch's part before connecting: zeroed buffers, counters at 1, state IDLE. */
    constructor (cnt: nat, dataSize: nat, endian: Endian, channels: map<u64, RpcChannel>, heap: Heap)
      requires heap.Valid() && Apart(channels) && forall a :: a in channels ==> !channels[a].locked
      ensures Valid() && |ctxs| == cnt && size == MsgBufSize(dataSize)
      ensures this.endian == endian && this.channels == channels && this.heap == heap
      ensures state.IDLE? && posted == [] && sent == [] && calls == [] && woken == [] && signals == 0
      ensures forall i :: 0 <= i < cnt ==> fresh(ctxs[i]) && fresh(ctxs[i].sendBuf) && ctxs[i].seqn == 1
      ensures forall i, j :: 0 <= i < cnt && 0 <= j < size ==> ctxs[i].sendBuf[j] == 0
    {
      var cs := NewCtxs(cnt, HEADER_SIZE + dataSize);
      this.size := HEADER_SIZE + dataSize;
      this.endian, this.ctxs, this.channels, this.heap := endian, cs, channels, heap;
      state, posted, sent, calls, woken, signals := IDLE, [], [], [], [], 0;
    }

    // -------------------------------------------------------------- sending

    /** Formats the message in the slot's own buffer and posts it.  A zero `seqn` asks for the
        slot's next number; any other is sent as it is and leaves the counter alone. */
    method SendRdmaMsg(chAddr: u64, data: seq<byte>, sem: u64, id: nat, seqn: u64, post: int) returns (r: int)
      requires Valid() && |data| >= size - HEADER_SIZE
      modifies this`sent
      modifies if id < |ctxs| then {ctxs[id], ctxs[id].sendBuf} else {}
      ensures Valid()
      ensures id >= |ctxs| ==> r == 0 && sent == old(sent)
      ensures id < |ctxs| ==>
        var n := if seqn == 0 then SlotRing.NextSeqn(old(ctxs[id].seqn)) else seqn;
        var w := Wire(Header(n, chAddr, sem), data[..size - HEADER_SIZE]);
        && ctxs[id].seqn == (if seqn == 0 then n else old(ctxs[id].seqn))
        && ctxs[id].wrId == old(ctxs[id].wrId)
        && ctxs[id].sendBuf[..] == w
        && r == (if post == 0 then size else 0)
        && sent == (if post == 0 then old(sent) + [w] else old(sent))
    {
      if id >= |ctxs| {
        return 0;
      }
      var ctx := ctxs[id];
      var n := seqn;
      if seqn == 0 {
        ctx.seqn := SlotRing.NextSeqn(ctx.seqn);
        n := ctx.seqn;
      }
      var msg := ctx.sendBuf;
      Format(msg, endian, Header(n, chAddr, sem), data[..size - HEADER_SIZE]);
      if post != 0 {
        return 0;
      }
      sent := sent + [msg[..]];
      return size;
    }

    /** One attempt of alloc_msgbuf_id on the channel at `a`; the other channels stay as they are. */
    method AllocIn(a: u64) returns (got: bool, b: nat)
      requires a in channels && Unlocked()
      modifies Chans(), Arrays()
      ensures Unlocked() && (got ==> b < channels[a].bitmap.Length)
      ensures var bits := old(Bitmaps())[a];
        && (got <==> FirstClear(bits) < |bits|)
        && (got ==> b == FirstClear(bits) && Bitmaps() == old(Bitmaps())[a := bits[b := true]])
        && (!got ==> Bitmaps() == old(Bitmaps()))
    {
      hide FirstClear;
      got, b := channels[a].TryAlloc(0);
    }

    /** send_rpc_msg_to_server up to its first attempt at a slot; when there is one, the message goes
        out from it with the slot's next number. */
    method SendRequest(a: u64, data: seq<byte>, sem: u64, post: int) returns (id: Option<nat>)
      requires Valid() && a in channels && |data| >= size - HEADER_SIZE
      requires channels[a].bitmap.Length == |ctxs|
      modifies this`sent, Chans(), Arrays()
      modifies set i | 0 <= i < |ctxs| :: ctxs[i], set i | 0 <= i < |ctxs| :: ctxs[i].sendBuf
      ensures Valid() && (old(Ready()) ==> Ready())
      ensures var bits := old(Bitmaps())[a]; var b := FirstClear(bits);
        if id.None? then
          && b == |bits| && sent == old(sent) && Bitmaps() == old(Bitmaps())
          && forall i :: 0 <= i < |ctxs| ==> ctxs[i].seqn == old(ctxs[i].seqn)
        else
          && id.value == b < |ctxs| && Bitmaps() == old(Bitmaps())[a := bits[b := true]]
          && (forall i :: 0 <= i < |ctxs| ==>
            ctxs[i].seqn == if i == b then SlotRing.NextSeqn(old(ctxs[i].seqn)) else old(ctxs[i].seqn))
          && sent == old(sent) + if post == 0 then [Wire(Header(ctxs[b].seqn, a, sem), data[..size - HEADER_SIZE])] else []
    {
      hide Bitmaps, Unlocked, FirstClear, Wire;
      var got, b := AllocIn(a);
      if !got {
        return None;
      }
      var r := SendRdmaMsg(a, data, sem, b, 0, post);
      return Some(b);
    }

    // -------------------------------------------------------------- receiving

    /** client_rdma_msg_handler: wakes the requester and frees the message and its parameter. */
    method UserHandler(sem: u64, msg: nat, param: nat)
      requires heap.Valid() && msg in heap.live && param in heap.live && msg != param
      modifies this`woken, heap
      ensures heap.Valid() && heap.live == old(heap.live) - {msg, param} && woken == old(woken) + [sem]
    {
      woken := woken + [sem];
      heap.Kfree(msg);
      heap.Kfree(param);
    }

    /** client_rpc_rdma_msg_handler: gives the buffer's bit back to the channel the message names,
        calls the user's handler, frees its own parameter. */
    method RpcHandler(call: Call, msg: nat, param: nat, rpcParam: nat)
      requires heap.Valid() && {msg, param, rpcParam} <= heap.live
      requires msg != param && msg != rpcParam && param != rpcParam
      requires call.hdr.ch in channels && Unlocked()
      modifies this`woken, this`calls, heap, Chans(), Arrays()
      ensures heap.Valid() && heap.live == old(heap.live) - {msg, param, rpcParam} && Unlocked()
      ensures calls == old(calls) + [call] && woken == old(woken) + [call.hdr.sem]
      ensures Bitmaps() == Cleared(old(Bitmaps()), [call])
    {
      hide Unlocked, Bitmaps, Cleared;
      calls := calls + [call];
      FreeIn(call);
      UserHandler(call.hdr.sem, msg, param);
      heap.Kfree(rpcParam);
    }

    /** free_msgbuf_id on the channel the message names; the other channels stay as they are. */
    method FreeIn(call: Call)
      requires call.hdr.ch in channels && Unlocked()
      modifies Chans(), Arrays()
      ensures Unlocked() && Bitmaps() == Cleared(old(Bitmaps()), [call])
    {
      hide ClearAll;
      channels[call.hdr.ch].FreeMsgbufId(call.buf);
      assert Cleared(old(Bitmaps()), [call][..0]) == old(Bitmaps());
    }

    /** Copies the message, hands it to the handlers, and leaves the connecting states. */
    method HandOn(t: Turn, msg: nat, param: nat, rpcParam: nat)
      requires Valid() && |t.wc.bytes| == size && {msg, param, rpcParam} <= heap.live
      requires msg != param && msg != rpcParam && param != rpcParam
      requires ReadHeader(endian, t.wc.bytes).ch in channels
      modifies this`state, this`calls, this`woken, heap, Chans(), Arrays()
      ensures Valid() && heap.live == old(heap.live) - {msg, param, rpcParam}
      ensures Shows() == After(old(Shows()), [CallOf(t, endian)], [])
      ensures state == if old(state).DISCONNECTED? || old(state).ERROR? then old(state) else WORKING
    {
      hide Unlocked, Bitmaps, After, Cleared, ReadField;
      var recvBuf := t.wc.bytes;
      var hdr := Header(ReadField(endian, recvBuf, 0), ReadField(endian, recvBuf, 8), ReadField(endian, recvBuf, 16));
      RpcHandler(Call(t.wc.wrId, hdr, recvBuf[HEADER_SIZE..]), msg, param, rpcParam);
      if AtMostConnected(state) {
        state := WORKING;
      }
      AfterOne(old(Shows()), CallOf(t, endian));
    }

    /** Rejects a message of the wrong length, copies the rest to the heap, and hands it on.
        Whatever happens, every block it allocates is freed once. */
    method ReceiveMsg(t: Turn) returns (ret: int)
      requires Valid() && |t.wc.bytes| == size
      requires ReceiveRet(t, size) == 0 ==> ReadHeader(endian, t.wc.bytes).ch in channels
      modifies this`state, this`calls, this`woken, heap, Chans(),
        Arrays()
      ensures Valid() && heap.live == old(heap.live)
      ensures ret == ReceiveRet(t, size)
      ensures Shows() == if ret == 0 then After(old(Shows()), [CallOf(t, endian)], []) else old(Shows())
    {
      hide Unlocked, Bitmaps, Shows, After, CallOf, ReadHeader;
      if t.wc.byteLen != size {
        return -1;
      }
      var rpcParam := heap.Kzalloc(t.mem0);
      if rpcParam.None? {
        return -ENOMEM;
      }
      var param := heap.Kzalloc(t.mem1);
      if param.None? {
        heap.Kfree(rpcParam.value);
        return -ENOMEM;
      }
      var msg := heap.Kzalloc(t.mem2);
      if msg.None? {
        heap.Kfree(param.value);
        heap.Kfree(rpcParam.value);
        return -ENOMEM;
      }
      HandOn(t, msg.value, param.value, rpcParam.value);
      return 0;
    }

    /** A receive names one of the n buffers, and a message that is handed on names a channel there is. */
    predicate Fits(t: Turn) {
      && size >= HEADER_SIZE
      && (IsReceive(t) ==> t.wc.wrId < |ctxs| && |t.wc.bytes| == size)
      && (IsReceive(t) && ReceiveRet(t, size) == 0 ==> ReadHeader(endian, t.wc.bytes).ch in channels)
    }

    /** The body of the loop for a completion that was not flushed. */
    method HandleCompletion(t: Turn) returns (ret: int)
      requires Valid() && Ready() && t.wc.status != FLUSH_ERR && Fits(t)
      modifies this`state, this`posted, this`calls, this`woken, heap, Chans(),
        Arrays()
      ensures Valid() && Ready() && heap.live == old(heap.live)
      ensures ret == TurnRet(t, size)
      ensures Shows() == Handled(old(Shows()), t, endian, size)
      ensures t.wc.status != 0 || t.wc.opcode.UNKNOWN? ==> ret == -1 && Shows() == old(Shows())
      ensures t.wc.status == 0 && (t.wc.opcode.SEND? || t.wc.opcode.RDMA_WRITE? || t.wc.opcode.RDMA_READ?) ==>
        ret == 0 && Shows() == old(Shows())
      ensures t.wc.status == 0 && t.wc.opcode.RECV? && t.wc.byteLen != size ==> ret == -1 && Shows() == old(Shows())
      ensures t.wc.status == 0 && t.wc.opcode.RECV? && t.wc.byteLen == size && !(t.mem0 && t.mem1 && t.mem2) ==>
        ret == -12 && Shows() == old(Shows())
      ensures t.wc.status == 0 && t.wc.opcode.RECV? && t.wc.byteLen == size && t.mem0 && t.mem1 && t.mem2 ==>
        && ret == t.post && calls == old(calls) + [CallOf(t, endian)]
        && posted == old(posted) + (if t.post == 0 then [t.wc.wrId] else [])
        && state == if old(state).DISCONNECTED? || old(state).ERROR? then old(state) else WORKING
    {
      hide Unlocked, Bitmaps, Cleared, ReadField;
      if t.wc.status != SUCCESS {
        return -1;
      }
      if t.wc.opcode.RECV? {
        assert CallBufs([CallOf(t, endian)]) == [t.wc.wrId];
      }
      match t.wc.opcode
      case SEND => ret := 0;
      case RDMA_WRITE => ret := 0;
      case RDMA_READ => ret := 0;
      case RECV =>
        ret := ReceiveMsg(t);
        if ret != 0 {
          return;
        }
        ret := t.post;
        if ret != 0 {
          return;
        }
        posted := posted + [ctxs[t.wc.wrId].wrId];
      case UNKNOWN => ret := -1;
    }

    /** The completion loop over what polling yields: `turns`, then `last`, which ib_poll_cq
        returns when it has no completion to give. */
    method CqEventHandler(turns: seq<Turn>, last: int) returns (ret: int, polled: nat)
      requires Valid() && Ready() && last != 1
      requires BytesOk(turns, size) && forall i :: 0 <= i < |turns| ==> Fits(turns[i])
      modifies this`state, this`posted, this`calls, this`woken, this`signals, heap, Chans(),
        Arrays()
      ensures Valid() && heap.live == old(heap.live)
      ensures Ended(old(Shows()), Shows(), turns, last, size, endian, ret, polled)
      ensures signals == old(signals) + (if FirstFailure(turns, size) < |turns| || last != 0 then 1 else 0)
    {
      ghost var v0 := Shows();
      var flushed := 0;
      ret := 0;
      polled := 0;
      GoneNowhere(v0, turns, endian, size);
      assert size >= HEADER_SIZE;
      hide Valid, Ready, Fits, Shows, Bitmaps, Unlocked, Chans, Arrays, After, Cleared, Calls, CallOf, ReadHeader,
        IsReceive, TurnRet, Handled, Gone, Ended, FirstFailure, AnyFlushed, BytesOk;
      while polled < |turns|
        invariant Valid() && Ready() && heap.live == old(heap.live)
        invariant polled <= |turns|
        invariant Gone(v0, Shows(), turns, polled, endian, size, flushed)
        invariant signals == old(signals)
      {
        var t := turns[polled];
        GoneOnOrWrong(v0, Shows(), turns, polled, last, endian, size, flushed);
        polled := polled + 1;
        if t.wc.status == FLUSH_ERR {
          flushed := 1;
          continue;
        }
        ret := HandleCompletion(t);
        if ret != 0 {
          ret := Error(ret);
          return;
        }
      }
      polled := polled + 1;
      GoneThrough(v0, Shows(), turns, last, endian, size, flushed);
      ret := last;
      if ret != 0 {
        ret := Error(ret);
        return;
      }
      return flushed, polled;
    }

    /** The loop's error exit. */
    method Error(code: int) returns (ret: int)
      requires Valid()
      modifies this`state, this`signals
      ensures Valid() && heap.live == old(heap.live)
      ensures ret == code && state.ERROR? && signals == old(signals) + 1
      ensures Shows() == old(Shows()).(state := ERROR)
    {
      state := ERROR;
      signals := signals + 1;
      return code;
    }

    // -------------------------------------------------------------- set-up

    /** setup_wr numbers the receive requests. */
    method SetupWr()
      requires Valid()
      modifies set i | 0 <= i < |ctxs| :: ctxs[i]
      ensures Valid() && Ready()
      ensures forall i :: 0 <= i < |ctxs| ==> ctxs[i].seqn == old(ctxs[i].seqn)
    {
      for i := 0 to |ctxs|
        invariant forall k :: 0 <= k < i ==> ctxs[k].wrId == k
        invariant forall k :: 0 <= k < |ctxs| ==> ctxs[k].seqn == old(ctxs[k].seqn)
      {
        ctxs[i].wrId := i;
      }
    }

    /** run_client's posting loop: the receives go out in slot order, which is where the ring of
        SlotRing starts; the first refusal ends it. */
    method PostReceives(post: seq<int>) returns (ret: int)
      requires Valid() && Ready() && |post| == |ctxs| >= 1
      modifies this`posted
      ensures ret == 0 <==> forall i :: 0 <= i < |post| ==> post[i] == 0
      ensures ret == 0 ==> posted == old(posted) + SlotRing.Rotation(|ctxs|, 0)
      ensures ret != 0 ==> exists k :: 0 <= k < |post| && post[k] == ret && (forall i :: 0 <= i < k ==> post[i] == 0)
                                       && posted == old(posted) + SlotRing.Rotation(|ctxs|, 0)[..k]
    {
      hide SlotRing.Rotation;
      ghost var all := SlotRing.Rotation(|ctxs|, 0);
      SlotRing.RotationStart(|ctxs|);
      for i := 0 to |ctxs|
        invariant posted == old(posted) + all[..i]
        invariant forall k :: 0 <= k < i ==> post[k] == 0
      {
        if post[i] != 0 {
          return post[i];
        }
        posted := posted + [ctxs[i].wrId];
        assert all[..i + 1] == all[..i] + [i];
      }
      assert all[..|ctxs|] == all;
      return 0;
    }
  }

  ghost predicate AnyFlushed(turns: seq<Turn>) {
    exists i :: 0 <= i < |turns| && turns[i].wc.status == FLUSH_ERR
  }

  lemma AnyFlushedStep(turns: seq<Turn>, k: nat)
    requires k < |turns|
    ensures AnyFlushed(turns[..k + 1]) <==> AnyFlushed(turns[..k]) || turns[k].wc.status == FLUSH_ERR
  {
    assert turns[..k + 1] == turns[..k] + [turns[k]];
    if turns[k].wc.status == FLUSH_ERR {
      assert turns[..k + 1][k].wc.status == FLUSH_ERR;
    }
    if AnyFlushed(turns[..k]) {
      var i :| 0 <= i < k && turns[..k][i].wc.status == FLUSH_ERR;
      assert turns[..k + 1][i].wc.status == FLUSH_ERR;
    }
  }

  lemma NothingYet(turns: seq<Turn>, e: Endian)
    ensures turns[..0] == [] && Calls([], e) == [] && !AnyFlushed([])
  {
  }

  lemma CallsStep(turns: seq<Turn>, k: nat, e: Endian)
    requires k < |turns|
    requires forall i :: 0 <= i < |turns| && IsReceive(turns[i]) ==> |turns[i].wc.bytes| >= HEADER_SIZE
    ensures Calls(turns[..k + 1], e) ==
      if IsReceive(turns[k]) then Calls(turns[..k], e) + [CallOf(turns[k], e)] else Calls(turns[..k], e)
  {
    assert turns[..k + 1][..k] == turns[..k];
    assert turns[..k + 1][k] == turns[k];
  }
}
