/** Sends that do meet: every run of SlotRing is one of SlotSends, and for two buffers or more some run
    puts one request's wait queue into another's message. */
module SendWitness {
  import opened Bitmap
  import opened Codec
  import opened Options
  import opened SlotRing
  import opened SlotInvariants
  import opened SlotTheorems
  import opened SlotReuse
  import opened SlotWitness
  import opened SlotSends

  function LastMem(r: SendRun): Mem
    requires r.states != []
  {
    r.states[|r.states| - 1]
  }

  ghost predicate AllOut(m: Mem) {
    forall k :: 0 <= k < |m.senders| ==> m.senders[k].Out?
  }

  /** Only request `q` has a send under way. */
  ghost predicate Only(m: Mem, q: nat) {
    |m.senders| <= |m.ring.slotOf| && forall k :: 0 <= k < |m.senders| && k != q ==> m.senders[k].Out?
  }

  lemma OnlyIsApart(m: Mem, q: nat)
    requires Only(m, q)
    ensures Apart(m)
  {
  }

  ghost predicate NoRefusal(r: SendRun) {
    forall i :: 0 <= i < |r.acts| && r.acts[i].Post? ==> r.acts[i].ok
  }

  /** The run with one more act. */
  lemma ExtendSend(c: Config, r: SendRun, t: Act) returns (r': SendRun)
    requires IsSendRun(c, r) && MemShape(c, LastMem(r)) && SendEnabled(c, LastMem(r), t)
    ensures IsSendRun(c, r') && r'.acts == r.acts + [t]
    ensures r'.states == r.states + [SendApply(c, LastMem(r), t)] && LastMem(r') == SendApply(c, LastMem(r), t)
    ensures SendNext(c, LastMem(r), t, LastMem(r')) && MemShape(c, LastMem(r'))
    ensures NoRefusal(r) && (t.Post? ==> t.ok) ==> NoRefusal(r')
  {
    hide SendApply, SendEnabled, MemShape, SendInit, MemInv;
    r' := SendRun(r.states + [SendApply(c, LastMem(r), t)], r.acts + [t]);
    forall i | 0 <= i < |r'.acts|
      ensures SendNext(c, r'.states[i], r'.acts[i], r'.states[i + 1])
    {
      if i < |r.acts| {
        assert SendNext(c, r.states[i], r.acts[i], r.states[i + 1]);
      }
    }
    MemAlways(c, r', |r'.acts|);
    ShapeOfMem(c, LastMem(r'));
  }

  lemma LastShape(c: Config, r: SendRun)
    requires IsSendRun(c, r)
    ensures MemShape(c, LastMem(r)) && QueueInv(c, LastMem(r).ring)
  {
    MemAlways(c, r, |r.acts|);
  }

  // ---------------------------------------------------------------- a send that goes through

  /** The number the sender will end up with if nobody touches the counter. */
  function Will(s: Sender, counter: u64): u64
    requires s.Inside?
  {
    match s.phase
    case Loaded(x) => NextSeqn(x)
    case Stored => counter
    case Drew(n) => n
    case HasSeqn(n) => n
    case HasSem(n) => n
    case Copying(n, _) => n
    case Handed(n) => n
  }

  /** Its wait queue is in the buffer if it has written it. */
  ghost predicate SemWritten(s: Sender, w: seq<byte>)
    requires |w| >= HEADER_SIZE
  {
    s.Inside? && (s.phase.HasSem? || s.phase.Copying? || s.phase.Handed?) ==> w[16..24] == Field(s.sem)
  }

  lemma OneGo(c: Config, s: Sender, counter: u64, w: seq<byte>)
    requires s.Inside? && !Full(c, s) && !HandedOver(s) && |s.data| == c.size && |w| == HEADER_SIZE + c.size
    requires (s.phase.Copying? ==> s.phase.i <= c.size) && SemWritten(s, w)
    ensures var s' := GoSender(c, s, counter);
      && s'.Inside? && s'.sem == s.sem && s'.data == s.data && !HandedOver(s')
      && AccessesLeft(c, s') == AccessesLeft(c, s) - 1
      && Will(s', GoCounter(s, counter)) == Will(s, counter)
      && SemWritten(s', GoBuf(c, s, w))
  {
    hide Field;
    match s.phase
    case HasSem(n) => PutElsewhere(w, 8, Field(c.ch), 16, 24);
    case Copying(_, i) => PutElsewhere(w, HEADER_SIZE + i, [s.data[i]], 16, 24);
    case _ =>
  }

  /** What the sender's own accesses leave alone. */
  ghost predicate SameBut(m: Mem, m': Mem, q: nat)
    requires q < |m.senders|
  {
    m'.ring == m.ring && |m'.senders| == |m.senders|
    && forall k :: 0 <= k < |m.senders| && k != q ==> m'.senders[k] == m.senders[k]
  }

  /** A sender goes on until it is ready to post. */
  lemma {:induction false} GoAll(c: Config, r: SendRun, q: nat) returns (r': SendRun)
    requires IsSendRun(c, r) && MemShape(c, LastMem(r)) && q < |LastMem(r).senders|
    requires LastMem(r).senders[q].Inside? && !HandedOver(LastMem(r).senders[q])
    requires SemWritten(LastMem(r).senders[q], LastMem(r).buf[LastMem(r).ring.slotOf[q]])
    ensures IsSendRun(c, r') && r.states <= r'.states && MemShape(c, LastMem(r')) && (NoRefusal(r) ==> NoRefusal(r'))
    ensures forall i :: |r.states| <= i < |r'.states| ==> SameBut(LastMem(r), r'.states[i], q)
    ensures SameBut(LastMem(r), LastMem(r'), q)
    ensures var m, m' := LastMem(r), LastMem(r'); var b := m.ring.slotOf[q]; var s, s' := m.senders[q], m'.senders[q];
      && Full(c, s') && s'.sem == s.sem && s'.data == s.data && s'.phase.n == Will(s, m.counter[b])
      && SemWritten(s', m'.buf[b])
    decreases AccessesLeft(c, LastMem(r).senders[q])
  {
    hide SendNext, SendInit, GoBuf, GoCounter, GoSender, Shape, SemWritten, NextSeqn;
    var m := LastMem(r);
    var b := m.ring.slotOf[q];
    if Full(c, m.senders[q]) {
      r' := r;
    } else {
      var r1 := ExtendSend(c, r, Go(q));
      OneGo(c, m.senders[q], m.counter[b], m.buf[b]);
      r' := GoAll(c, r1, q);
      RunSizes(c, r, r1, r');
    }
  }

  lemma RunSizes(c: Config, r: SendRun, r1: SendRun, r': SendRun)
    requires IsSendRun(c, r) && IsSendRun(c, r1) && IsSendRun(c, r') && r.states <= r1.states <= r'.states
    requires |r1.states| == |r.states| + 1
    ensures |r'.states| >= |r.states| + 1 && r'.states[|r.states|] == LastMem(r1)
  {
  }

  /** One request fills the buffer with nobody else sending. */
  lemma ToFull(c: Config, r: SendRun, q: nat, sem: u64, data: seq<byte>) returns (r': SendRun)
    requires IsSendRun(c, r) && AllOut(LastMem(r)) && ApartBefore(r, |r.states|)
    requires q < |LastMem(r).ring.at| && LastMem(r).ring.at[q].Taken? && |data| == c.size
    ensures IsSendRun(c, r') && ApartBefore(r', |r'.states|) && (NoRefusal(r) ==> NoRefusal(r'))
    ensures var m, m' := LastMem(r), LastMem(r');
      && MemShape(c, m') && q < |m'.senders| && m'.ring == m.ring && Only(m', q)
      && Full(c, m'.senders[q]) && m'.senders[q].sem == sem && m'.senders[q].data == data
  {
    hide SendNext, SendInit, Shape, NoRefusal;
    LastShape(c, r);
    var r1 := ExtendSend(c, r, Begin(q, sem, data));
    OnlyIsApart(LastMem(r1), q);
    r' := GoAll(c, r1, q);
    ApartOn(r1, r', q);
  }

  /** Its whole send, refused or not: the single step of SlotRing. */
  lemma WholeSend(c: Config, r: SendRun, q: nat, sem: u64, data: seq<byte>, ok: bool) returns (r': SendRun)
    requires IsSendRun(c, r) && AllOut(LastMem(r)) && ApartBefore(r, |r.states|)
    requires q < |LastMem(r).ring.at| && LastMem(r).ring.at[q].Taken? && |data| == c.size
    ensures IsSendRun(c, r') && AllOut(LastMem(r')) && ApartBefore(r', |r'.states|)
    ensures Next(c, LastMem(r).ring, if ok then Send(q, sem, data) else SendFails(q, sem), LastMem(r').ring)
    ensures NoRefusal(r) && ok ==> NoRefusal(r')
  {
    hide SendNext, SendInit, Shape, Next, SendInv, MemShape, Apart, NoRefusal;
    var r2 := ToFull(c, r, q, sem, data);
    var r3 := ExtendSend(c, r2, Post(q, ok));
    OnlyIsApart(LastMem(r3), q);
    if ok {
      SendAlways(c, r3, |r3.acts|);
      LeaveMatches(c, LastMem(r3), q, true);
      r' := ExtendSend(c, r3, DeviceReads(q));
      OnlyIsApart(LastMem(r'), q);
    } else {
      SendAlways(c, r2, |r2.acts|);
      LeaveMatches(c, LastMem(r2), q, false);
      r' := r3;
    }
  }

  lemma ApartOn(r: SendRun, r': SendRun, q: nat)
    requires r.states != [] && r.states <= r'.states && ApartBefore(r, |r.states|) && Only(LastMem(r), q)
    requires q < |LastMem(r).senders|
    requires forall i :: |r.states| <= i < |r'.states| ==> SameBut(LastMem(r), r'.states[i], q)
    ensures ApartBefore(r', |r'.states|) && Only(LastMem(r'), q)
  {
    hide Apart;
    forall j | 0 <= j < |r'.states|
      ensures |r'.states[j].senders| <= |r'.states[j].ring.slotOf| && Apart(r'.states[j])
    {
      if j < |r.states| {
        assert r'.states[j] == r.states[j];
      } else {
        assert Only(r'.states[j], q);
        OnlyIsApart(r'.states[j], q);
      }
    }
  }

  /** Every run of SlotRing is one of SlotSends, in which no two sends meet. */
  lemma {:induction false} Lift(c: Config, a: Run) returns (r: SendRun)
    requires IsRun(c, a)
    ensures IsSendRun(c, r) && LastMem(r).ring == Last(a)
    ensures AllOut(LastMem(r)) && ApartBefore(r, |r.states|)
    ensures (forall i :: 0 <= i < |a.steps| ==> !a.steps[i].SendFails?) ==> NoRefusal(r)
    decreases |a.steps|
  {
    hide SendNext, Shape, Enabled, Apply, Init;
    if a.steps == [] {
      r := SendRun([SendInit(c)], []);
    } else {
      var k := |a.steps| - 1;
      var a0 := Run(a.states[..k + 1], a.steps[..k]);
      assert Next(c, a.states[k], a.steps[k], a.states[k + 1]);
      Shorter(c, a, a0);
      var r0 := Lift(c, a0);
      r := LiftStep(c, r0, a.steps[k], a.states[k + 1]);
    }
  }

  lemma Shorter(c: Config, a: Run, a0: Run)
    requires IsRun(c, a) && a.steps != []
    requires a0 == Run(a.states[..|a.steps|], a.steps[..|a.steps| - 1])
    ensures IsRun(c, a0) && Last(a0) == a.states[|a.steps| - 1]
    ensures (forall i :: 0 <= i < |a.steps| ==> !a.steps[i].SendFails?) ==>
      forall i :: 0 <= i < |a0.steps| ==> !a0.steps[i].SendFails?
  {
    hide Next, Init;
    forall i | 0 <= i < |a0.steps|
      ensures Next(c, a0.states[i], a0.steps[i], a0.states[i + 1])
    {
      assert Next(c, a.states[i], a.steps[i], a.states[i + 1]);
    }
  }

  lemma LiftStep(c: Config, r: SendRun, t: Step, s': State) returns (r': SendRun)
    requires IsSendRun(c, r) && AllOut(LastMem(r)) && ApartBefore(r, |r.states|)
    requires Next(c, LastMem(r).ring, t, s')
    ensures IsSendRun(c, r') && LastMem(r').ring == s'
    ensures AllOut(LastMem(r')) && ApartBefore(r', |r'.states|)
    ensures NoRefusal(r) && !t.SendFails? ==> NoRefusal(r')
  {
    hide SendNext, SendInit, Shape, Apply, Init, Apart;
    match t
    case Send(q, sem, data) => r' := WholeSend(c, r, q, sem, data, true);
    case SendFails(q, sem) => r' := WholeSend(c, r, q, sem, seq(c.size, _ => 0), false);
    case _ =>
      LastShape(c, r);
      r' := ExtendSend(c, r, Other(t));
      OnlyIsApart(LastMem(r'), 0);
  }

  // ---------------------------------------------------------------- two sends on one slot

  /** Requests 1 and `k` are about to send from one slot, and nobody else is sending. */
  ghost predicate Facing(m: Mem, k: nat) {
    && AllOut(m) && Collide(m.ring, 1, k)
    && m.ring.handler.Idle? && m.ring.cq == []
  }

  /** Both have written the buffer, request `k` last, with one number between them. */
  ghost predicate Crossed(c: Config, m: Mem, k: nat) {
    && MemShape(c, m) && Collide(m.ring, 1, k)
    && Full(c, m.senders[1]) && Full(c, m.senders[k])
    && m.senders[1].sem == 1 && m.senders[k].sem == 2
    && m.senders[1].phase.n == m.senders[k].phase.n
    && m.buf[m.ring.slotOf[1]][16..24] == Field(2)
    && m.ring.handler.Idle? && m.ring.cq == []
  }

  lemma Cross(c: Config, r: SendRun, k: nat) returns (r': SendRun)
    requires IsSendRun(c, r) && Facing(LastMem(r), k) && NoRefusal(r)
    ensures IsSendRun(c, r') && NoRefusal(r') && Crossed(c, LastMem(r'), k)
  {
    hide SendNext, SendInit, Shape, NoRefusal;
    LastShape(c, r);
    var r1 := ExtendSend(c, r, Begin(1, 1, Blank(c)));
    var r2 := ExtendSend(c, r1, Begin(k, 2, Blank(c)));
    var r3 := GoAll(c, r2, 1);
    r' := GoAll(c, r3, k);
  }

  /** One of them is posted and read: its message is whatever is in the buffer. */
  lemma Depart(c: Config, r: SendRun, q: nat) returns (r': SendRun)
    requires IsSendRun(c, r) && NoRefusal(r) && MemShape(c, LastMem(r))
    requires q < |LastMem(r).senders| && Full(c, LastMem(r).senders[q])
    ensures IsSendRun(c, r') && NoRefusal(r') && MemShape(c, LastMem(r'))
    ensures |r'.acts| == |r.acts| + 2 && r.acts <= r'.acts && r.states <= r'.states
    ensures r'.acts[|r.acts| + 1] == DeviceReads(q)
    ensures var m, m' := LastMem(r), LastMem(r'); var s := m.senders[q]; var w := m.buf[m.ring.slotOf[q]];
      && m' == Mem(Departed(c, m.ring, q, s.phase.n, s.sem, AtServer(w)), m.counter, m.buf, m.senders[q := Out])
      && r'.states[|r.acts| + 1] == m.(senders := m.senders[q := s.(phase := Handed(s.phase.n))])
  {
    hide SendNext, SendInit, Shape, NoRefusal, Departed, Wire;
    var m := LastMem(r);
    var s := m.senders[q];
    var r1 := ExtendSend(c, r, Post(q, true));
    r' := ExtendSend(c, r1, DeviceReads(q));
    assert m.senders[q := s.(phase := Handed(s.phase.n))][q := Out] == m.senders[q := Out];
  }

  lemma NotOwn(c: Config, m: Mem, q: nat, sem: u64)
    requires MemShape(c, m) && q < |m.senders| && HandedOver(m.senders[q])
    requires m.buf[m.ring.slotOf[q]][16..24] == Field(sem) && m.senders[q].sem != sem
    ensures !OwnMessage(c, m, DeviceReads(q))
  {
    hide ReadField, Wire;
    var s := m.senders[q];
    SemRead(Little, m.buf[m.ring.slotOf[q]], sem);
    ReadWire(Little, Header(s.phase.n, c.ch, s.sem), s.data);
  }

  /** Requests 1 and `k` have one slot and one number, and request 1's message has the other's wait queue. */
  ghost predicate Swapped(c: Config, s: State, k: nat) {
    && 1 < k < |s.at| == |s.hdr| == |s.slotOf| && s.slotOf[1] == s.slotOf[k]
    && s.at[1].AtServer? && |s.at[1].msg| == HEADER_SIZE + c.size
    && (forall e :: ReadHeader(e, s.at[1].msg).sem == 2)
    && s.hdr[1].sem == 1 && s.hdr[k].sem == 2 && s.hdr[1].seqn == s.hdr[k].seqn
    && s.handler.Idle? && s.cq == []
  }

  lemma CrossedSwaps(c: Config, m: Mem, k: nat)
    requires Crossed(c, m, k)
    ensures var w := m.buf[m.ring.slotOf[1]]; var n := m.senders[1].phase.n;
      var s1 := Departed(c, m.ring, 1, n, 1, AtServer(w));
      |s1.at| == |s1.hdr| == |s1.slotOf| && k < |s1.at| && s1.slotOf[k] < |s1.seqn|
      && Swapped(c, Departed(c, s1, k, n, 2, AtServer(w)), k)
  {
    hide ReadHeader, Shape;
    var w := m.buf[m.ring.slotOf[1]];
    forall e: Endian
      ensures ReadHeader(e, w).sem == 2
    {
      SemRead(e, w, 2);
    }
  }

  /** Both are posted and read. */
  lemma BothLeave(c: Config, r: SendRun, k: nat) returns (r': SendRun, j: nat)
    requires IsSendRun(c, r) && NoRefusal(r) && Crossed(c, LastMem(r), k)
    ensures IsSendRun(c, r') && NoRefusal(r')
    ensures j < |r'.acts| && !OwnMessage(c, r'.states[j], r'.acts[j])
    ensures Swapped(c, LastMem(r').ring, k)
  {
    hide SendNext, SendInit, Shape, NoRefusal, Wire, OwnMessage, Departed, Swapped;
    var m := LastMem(r);
    CrossedSwaps(c, m, k);
    var r1 := Depart(c, r, 1);
    j := |r.acts| + 1;
    StateIsShaped(c, r1, j);
    NotOwn(c, r1.states[j], 1, 2);
    DepartSlots(c, m, 1);
    r' := Depart(c, r1, k);
    assert r'.states[j] == r1.states[j] && r'.acts[j] == r1.acts[j];
  }

  lemma DepartSlots(c: Config, m: Mem, q: nat)
    requires MemShape(c, m) && q < |m.senders| && Full(c, m.senders[q])
    ensures var s := m.senders[q];
      Departed(c, m.ring, q, s.phase.n, s.sem, AtServer(m.buf[m.ring.slotOf[q]])).slotOf == m.ring.slotOf
  {
  }

  lemma StateIsShaped(c: Config, r: SendRun, i: nat)
    requires IsSendRun(c, r) && i <= |r.acts|
    ensures i < |r.states| && MemShape(c, r.states[i])
  {
    MemAlways(c, r, i);
    ShapeOfMem(c, r.states[i]);
  }

  lemma SemRead(e: Endian, w: seq<byte>, sem: u64)
    requires |w| >= HEADER_SIZE && w[16..24] == Field(sem)
    ensures ReadHeader(e, w).sem == sem
  {
    LoadConverted(e, sem);
  }

  /** The server answers request 1, and the response is queued. */
  lemma AnswerOne(c: Config, r: SendRun, x: u64) returns (r': SendRun)
    requires IsSendRun(c, r) && NoRefusal(r)
    requires var s := LastMem(r).ring;
      && 1 < |s.at| && s.at[1].AtServer? && |s.at[1].msg| == HEADER_SIZE + c.size
      && (forall e :: ReadHeader(e, s.at[1].msg).sem == x)
      && s.handler.Idle? && s.cq == []
    ensures IsSendRun(c, r') && NoRefusal(r') && r.acts <= r'.acts && r.states <= r'.states
    ensures Shape(c, LastMem(r').ring)
    ensures var s, s' := LastMem(r).ring, LastMem(r').ring;
      && s'.hdr == s.hdr && s'.slotOf == s.slotOf && s'.log == s.log && s'.handler.Idle?
      && |s'.cq| == 1 && s'.cq[0].req == 1
      && ReadHeader(c.client, s'.recvBuf[s'.cq[0].buf]).sem == x
  {
    hide SendNext, SendInit, NoRefusal, ReadHeader, Wire, ClearAll, MemShape, Core;
    var s := LastMem(r).ring;
    FlowHowever(c, r, |r.acts|);
    PostedNow(c, s);
    var data: seq<byte> := seq(c.size, _ => 0);
    var r1 := ExtendOther(c, r, Answer(1, Little, 1, data));
    ReadWire(c.client, EchoHeader(ReadHeader(Little, s.at[1].msg), 1), data);
    r' := ExtendOther(c, r1, Deliver(1));
  }

  /** The handler deals with it. */
  lemma HandleIt(c: Config, r: SendRun) returns (r': SendRun)
    requires IsSendRun(c, r) && NoRefusal(r)
    requires Shape(c, LastMem(r).ring) && LastMem(r).ring.handler.Idle? && LastMem(r).ring.cq != []
    ensures IsSendRun(c, r') && NoRefusal(r') && r.acts <= r'.acts && r.states <= r'.states
    ensures var s, s' := LastMem(r).ring, LastMem(r').ring; var x := s.cq[0];
      && s'.hdr == s.hdr && s'.slotOf == s.slotOf
      && s'.log == s.log + [Dispatch(x.buf, x.req, ReadHeader(c.client, s.recvBuf[x.buf]))]
  {
    hide SendNext, SendInit, NoRefusal, ReadHeader, Wire, ClearAll, MemShape;
    var r1 := ExtendOther(c, r, Poll);
    r' := ExtendOther(c, r1, Handle);
  }

  lemma PostedNow(c: Config, s: State)
    requires Core(c, s) && s.handler.Idle? && s.cq == []
    ensures Shape(c, s) && s.posted != []
  {
    assert |Ring(s)| == c.n;
  }

  lemma ExtendOther(c: Config, r: SendRun, t: Step) returns (r': SendRun)
    requires IsSendRun(c, r) && Shape(c, LastMem(r).ring) && Enabled(c, LastMem(r).ring, t) && !t.Send? && !t.SendFails?
    ensures IsSendRun(c, r') && r'.acts == r.acts + [Other(t)] && r.states <= r'.states
    ensures LastMem(r').ring == Apply(c, LastMem(r).ring, t) && Shape(c, LastMem(r').ring)
    ensures NoRefusal(r) ==> NoRefusal(r')
  {
    hide SendNext, SendInit, NoRefusal, Apply, Enabled, Shape;
    LastShape(c, r);
    r' := ExtendSend(c, r, Other(t));
  }

  /** With two buffers or more, and nothing refused, the drift lets two threads into one slot, and
      then both requests can go out with one number between them and request 1 with the other's wait
      queue: its response wakes the other, and the lemmas on echo and numbers fail. */
  lemma SendsRace(c: Config) returns (r: SendRun, k: nat, j: nat)
    requires Ok(c) && c.n >= 2
    ensures IsSendRun(c, r) && NoRefusal(r)
    ensures j < |r.acts| && !OwnMessage(c, r.states[j], r.acts[j])
    ensures var s := LastMem(r).ring;
      && 1 < k < |s.hdr| == |s.slotOf| && s.slotOf[1] == s.slotOf[k] && s.log != []
      && s.hdr[1].seqn == s.hdr[k].seqn
      && var d := s.log[|s.log| - 1];
        d.req == 1 && d.hdr.sem == s.hdr[k].sem != s.hdr[1].sem
  {
    hide SendNext, SendInit, NoRefusal, OwnMessage, IsRun, Shape, Crossed, ApartBefore;
    var a;
    a, k := SendsCollide(c);
    var r0 := Lift(c, a);
    var r1 := Cross(c, r0, k);
    var r2;
    r2, j := BothLeave(c, r1, k);
    var r3 := AnswerOne(c, r2, 2);
    r := HandleIt(c, r3);
    assert r.states[j] == r2.states[j] && r.acts[j] == r2.acts[j];
  }

  /** Every message of every run is its own request's exactly when there is one message buffer. */
  lemma OwnMessageIffOneBuffer(c: Config)
    requires Ok(c)
    ensures (forall r :: IsSendRun(c, r) ==> |r.states| == |r.acts| + 1 && AllOwn(c, r)) <==> c.n == 1
  {
    hide SendNext, OwnMessage;
    if c.n == 1 {
      forall r | IsSendRun(c, r)
        ensures |r.states| == |r.acts| + 1 && AllOwn(c, r)
      {
        var a := OwnWhenSlotsHold(c, r);
      }
    } else {
      var r, k, j := SendsRace(c);
      assert !AllOwn(c, r);
    }
  }
}
