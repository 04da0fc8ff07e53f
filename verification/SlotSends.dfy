/** `send_rdma_msg` as it is written: no lock, one memory access at a time on the slot's counter and
    its one send buffer, then the post (rdma.c:743-795); and the device reads the buffer when it gets
    to it, which may be after the sender has returned.

    Taking and clearing a bit are still single steps here.  SlotRing has the whole send as one step;
    this module shows what of its results holds however sends interleave, and that all of it does as
    long as no two requests have an unfinished send on one slot. */
module SlotSends {
  import opened Bitmap
  import opened Codec
  import opened Options
  import opened SlotRing
  import opened SlotInvariants
  import opened SlotTheorems
  import opened SlotReuse

  /** How far a send has got. */
  datatype Phase =
    | Loaded(x: u64)           // has read the slot's counter
    | Stored                   // has written it back, one higher
    | Drew(n: u64)             // has read it again: its number
    | HasSeqn(n: u64)          // has written the first field
    | HasSem(n: u64)           // and the wait queue
    | Copying(n: u64, i: nat)  // and the channel, and i bytes of the data
    | Handed(n: u64)           // has posted; the device has yet to read the buffer

  datatype Sender = Out | Inside(sem: u64, data: seq<byte>, phase: Phase)

  /** The counters and send buffers in memory, and whose send is under way.  `ring.seqn` is the number
      last posted from each slot. */
  datatype Mem = Mem(ring: State, counter: seq<u64>, buf: seq<seq<byte>>, senders: seq<Sender>)

  datatype Act =
    | Begin(req: nat, sem: u64, data: seq<byte>)
    | Go(req: nat)              // the sender's next memory access
    | Post(req: nat, ok: bool)
    | DeviceReads(req: nat)
    | Other(step: Step)

  ghost predicate MemShape(c: Config, m: Mem) {
    && Ok(c) && Shape(c, m.ring)
    && |m.counter| == |m.buf| == |m.ring.seqn| == c.n
    && |m.senders| == |m.ring.at| == |m.ring.slotOf| == |m.ring.hdr|
    && (forall r :: 0 <= r < |m.senders| ==> m.ring.slotOf[r] < c.n)
    && (forall b :: 0 <= b < c.n ==> |m.buf[b]| == HEADER_SIZE + c.size)
    && (forall r :: 0 <= r < |m.senders| && m.senders[r].Inside? ==>
      && m.ring.at[r].Taken? && |m.senders[r].data| == c.size
      && (m.senders[r].phase.Copying? ==> m.senders[r].phase.i <= c.size))
  }

  predicate Full(c: Config, s: Sender) {
    s.Inside? && s.phase.Copying? && s.phase.i == c.size
  }

  predicate HandedOver(s: Sender) {
    s.Inside? && s.phase.Handed?
  }

  predicate SendEnabled(c: Config, m: Mem, t: Act)
    requires MemShape(c, m)
  {
    match t
    case Begin(r, _, data) => r < |m.senders| && m.ring.at[r].Taken? && m.senders[r].Out? && |data| == c.size
    case Go(r) => r < |m.senders| && m.senders[r].Inside? && !Full(c, m.senders[r]) && !HandedOver(m.senders[r])
    case Post(r, _) => r < |m.senders| && Full(c, m.senders[r])
    case DeviceReads(r) => r < |m.senders| && HandedOver(m.senders[r])
    case Other(s) => !s.Send? && !s.SendFails? && Enabled(c, m.ring, s)
  }

  function Put(w: seq<byte>, off: nat, x: seq<byte>): (w': seq<byte>)
    requires off + |x| <= |w|
    ensures |w'| == |w| && w'[off..off + |x|] == x
  {
    w[..off] + x + w[off + |x|..]
  }

  /** Bytes elsewhere stay. */
  lemma PutElsewhere(w: seq<byte>, off: nat, x: seq<byte>, i: nat, j: nat)
    requires off + |x| <= |w| && i <= j <= |w| && (j <= off || off + |x| <= i)
    ensures Put(w, off, x)[i..j] == w[i..j]
  {
    var w' := Put(w, off, x);
    forall k | i <= k < j
      ensures w'[k] == w[k]
    {
      assert k >= off + |x| ==> w'[k] == w[off + |x|..][k - off - |x|];
    }
    assert forall k :: 0 <= k < j - i ==> w'[i..j][k] == w'[i + k] == w[i + k] == w[i..j][k];
  }

  /** How many accesses the sender has to make, its post included. */
  function AccessesLeft(c: Config, s: Sender): nat {
    if s.Out? then c.size + 7
    else
      match s.phase
      case Loaded(_) => c.size + 6
      case Stored => c.size + 5
      case Drew(_) => c.size + 4
      case HasSeqn(_) => c.size + 3
      case HasSem(_) => c.size + 2
      case Copying(_, i) => if i <= c.size then c.size - i + 1 else 1
      case Handed(_) => 0
  }

  /** The sender after its next access; `counter` is what it finds in the slot's counter. */
  function GoSender(c: Config, s: Sender, counter: u64): Sender
    requires s.Inside?
  {
    match s.phase
    case Loaded(_) => s.(phase := Stored)
    case Stored => s.(phase := Drew(counter))
    case Drew(n) => s.(phase := HasSeqn(n))
    case HasSeqn(n) => s.(phase := HasSem(n))
    case HasSem(n) => s.(phase := Copying(n, 0))
    case Copying(n, i) => s.(phase := Copying(n, i + 1))
    case Handed(_) => s
  }

  function GoCounter(s: Sender, counter: u64): u64
    requires s.Inside?
  {
    if s.phase.Loaded? then NextSeqn(s.phase.x) else counter
  }

  function GoBuf(c: Config, s: Sender, w: seq<byte>): (w': seq<byte>)
    requires s.Inside? && |s.data| == c.size && |w| == HEADER_SIZE + c.size
    requires s.phase.Copying? ==> s.phase.i < c.size
    ensures |w'| == |w|
  {
    match s.phase
    case Drew(n) => Put(w, 0, Field(n))
    case HasSeqn(_) => Put(w, 16, Field(s.sem))
    case HasSem(_) => Put(w, 8, Field(c.ch))
    case Copying(_, i) => Put(w, HEADER_SIZE + i, [s.data[i]])
    case _ => w
  }

  /** The protocol's state once request `r` is on its way, or refused. */
  function Departed(c: Config, s: State, r: nat, n: u64, sem: u64, l: Loc): State
    requires r < |s.at| == |s.slotOf| == |s.hdr| && s.slotOf[r] < |s.seqn|
  {
    Number(s, r, n).(at := s.at[r := l], hdr := s.hdr[r := Header(n, c.ch, sem)])
  }

  predicate Whole(c: Config, s: Sender) {
    Full(c, s) || HandedOver(s)
  }

  /** The send of request `r` is over. */
  function Leave(c: Config, m: Mem, r: nat, l: Loc): Mem
    requires r < |m.senders| == |m.ring.at| == |m.ring.slotOf| == |m.ring.hdr|
    requires m.ring.slotOf[r] < |m.ring.seqn| && Whole(c, m.senders[r])
  {
    var s := m.senders[r];
    m.(ring := Departed(c, m.ring, r, s.phase.n, s.sem, l), senders := m.senders[r := Out])
  }

  function SendApply(c: Config, m: Mem, t: Act): Mem
    requires MemShape(c, m) && SendEnabled(c, m, t)
  {
    match t
    case Begin(r, sem, data) =>
      m.(senders := m.senders[r := Inside(sem, data, Loaded(m.counter[m.ring.slotOf[r]]))])
    case Go(r) =>
      var b, s := m.ring.slotOf[r], m.senders[r];
      m.(counter := m.counter[b := GoCounter(s, m.counter[b])],
         buf := m.buf[b := GoBuf(c, s, m.buf[b])],
         senders := m.senders[r := GoSender(c, s, m.counter[b])])
    case Post(r, ok) =>
      var s := m.senders[r];
      if ok then m.(senders := m.senders[r := s.(phase := Handed(s.phase.n))])
      else Leave(c, m, r, Lost)
    case DeviceReads(r) =>
      // whoever wrote it
      Leave(c, m, r, AtServer(m.buf[m.ring.slotOf[r]]))
    case Other(s) =>
      m.(ring := Apply(c, m.ring, s), senders := if s.Alloc? then m.senders + [Out] else m.senders)
  }

  ghost predicate SendNext(c: Config, m: Mem, t: Act, m': Mem) {
    MemShape(c, m) && SendEnabled(c, m, t) && m' == SendApply(c, m, t)
  }

  function SendInit(c: Config): Mem {
    Mem(Init(c), seq(c.n, _ => 1), seq(c.n, _ => seq(HEADER_SIZE + c.size, _ => 0)), [])
  }

  datatype SendRun = SendRun(states: seq<Mem>, acts: seq<Act>)

  ghost predicate IsSendRun(c: Config, r: SendRun) {
    && Ok(c)
    && |r.states| == |r.acts| + 1
    && r.states[0] == SendInit(c)
    && forall i :: 0 <= i < |r.acts| ==> SendNext(c, r.states[i], r.acts[i], r.states[i + 1])
  }

  lemma SendShapeInit(c: Config)
    requires Ok(c)
    ensures MemShape(c, SendInit(c))
  {
    InitShape(c);
  }

  /** Only a request's own send takes it out of Taken. */
  lemma TakenStays(c: Config, s: State, t: Step)
    requires Ok(c) && Shape(c, s) && QueueInv(c, s) && Enabled(c, s, t) && !t.Send? && !t.SendFails?
    ensures var s' := Apply(c, s, t);
      && |s'.at| == |s.at| + (if t.Alloc? then 1 else 0) && |s'.slotOf| == |s'.hdr| == |s'.at|
      && (forall k :: 0 <= k < |s'.at| ==> s'.slotOf[k] < c.n)
      && (forall k :: 0 <= k < |s.at| ==> (s'.at[k].Taken? <==> s.at[k].Taken?) && s'.slotOf[k] == s.slotOf[k])
      && (t.Alloc? ==> s'.at[|s.at|].Taken?)
      && s'.seqn == s.seqn
  {
    hide ReadHeader, Wire, ClearAll, FirstClear;
  }

  lemma MemShapeKept(c: Config, m: Mem, t: Act, m': Mem)
    requires SendNext(c, m, t, m') && QueueInv(c, m.ring)
    ensures MemShape(c, m')
  {
    hide Field, Put, NextSeqn, Apply, Enabled, Shape;
    match t
    case Other(s) =>
      ShapeKept(c, m.ring, s);
      TakenStays(c, m.ring, s);
    case Post(r, ok) =>
      LeaveShape(c, m, r, Lost);
    case DeviceReads(r) =>
      LeaveShape(c, m, r, AtServer(m.buf[m.ring.slotOf[r]]));
    case _ =>
  }

  lemma LeaveShape(c: Config, m: Mem, r: nat, l: Loc)
    requires MemShape(c, m) && QueueInv(c, m.ring) && r < |m.senders| && Whole(c, m.senders[r])
    requires l.Lost? || (l.AtServer? && |l.msg| == HEADER_SIZE + c.size)
    ensures Shape(c, Leave(c, m, r, l).ring)
  {
    hide Enabled;
  }

  // ---------------------------------------------------------------- however sends interleave

  predicate PutChannel(s: Sender) {
    s.Inside? && (s.phase.Copying? || s.phase.Handed?)
  }

  /** A sender that has written the channel finds it there: whoever writes these bytes writes the same. */
  ghost predicate ChannelWritten(c: Config, m: Mem)
    requires MemShape(c, m)
  {
    forall r :: 0 <= r < |m.senders| && PutChannel(m.senders[r]) ==> m.buf[m.ring.slotOf[r]][8..16] == Field(c.ch)
  }

  ghost predicate MemInv(c: Config, m: Mem) {
    MemShape(c, m) && Core(c, m.ring) && ChannelWritten(c, m)
  }

  /** One access leaves the channel in place, or puts it there. */
  lemma GoChannel(c: Config, s: Sender, w: seq<byte>)
    requires s.Inside? && |s.data| == c.size && |w| == HEADER_SIZE + c.size
    requires s.phase.Copying? ==> s.phase.i < c.size
    ensures w[8..16] == Field(c.ch) || s.phase.HasSem? ==> GoBuf(c, s, w)[8..16] == Field(c.ch)
  {
    hide Field;
    match s.phase
    case Drew(n) => PutElsewhere(w, 0, Field(n), 8, 16);
    case HasSeqn(_) => PutElsewhere(w, 16, Field(s.sem), 8, 16);
    case Copying(_, i) => PutElsewhere(w, HEADER_SIZE + i, [s.data[i]], 8, 16);
    case _ =>
  }

  lemma ChannelWrittenKept(c: Config, m: Mem, t: Act, m': Mem)
    requires MemInv(c, m) && SendNext(c, m, t, m') && MemShape(c, m')
    ensures ChannelWritten(c, m')
  {
    hide Field, GoBuf, Apply, Enabled, Shape, RingInv, CountInv, FlowInv, ChannelInv;
    match t
    case Go(r) => GoChannel(c, m.senders[r], m.buf[m.ring.slotOf[r]]);
    case Other(s) => TakenStays(c, m.ring, s);
    case _ =>
  }

  lemma ChannelRead(e: Endian, w: seq<byte>, ch: u64)
    requires |w| >= HEADER_SIZE && w[8..16] == Field(ch)
    ensures ReadHeader(e, w).ch == ch
  {
    LoadConverted(e, ch);
  }

  /** Leaving keeps all that does not depend on what the message says. */
  lemma LeaveCore(c: Config, s: State, r: nat, n: u64, sem: u64, l: Loc)
    requires Core(c, s) && r < |s.at| && s.at[r].Taken? && (l.Lost? || l.AtServer?)
    requires Shape(c, Departed(c, s, r, n, sem, l))
    requires l.AtServer? ==> |l.msg| >= HEADER_SIZE && forall e :: ReadHeader(e, l.msg).ch == c.ch
    ensures Core(c, Departed(c, s, r, n, sem, l))
  {
    hide ReadHeader, Rotation, SetCount, FirstClear;
    var s' := Departed(c, s, r, n, sem, l);
    Moved(s, s', r, l);
    assert Ring(s') == Ring(s);
  }

  lemma MemKept(c: Config, m: Mem, t: Act, m': Mem)
    requires MemInv(c, m) && SendNext(c, m, t, m')
    ensures MemInv(c, m')
  {
    hide Field, GoBuf, GoSender, GoCounter, Apply, Enabled, Shape, RingInv, CountInv, FlowInv, ChannelInv, ReadHeader;
    MemShapeKept(c, m, t, m');
    ChannelWrittenKept(c, m, t, m');
    match t
    case Post(r, ok) =>
      var s := m.senders[r];
      if !ok {
        LeaveCore(c, m.ring, r, s.phase.n, s.sem, Lost);
      }
    case DeviceReads(r) =>
      var s := m.senders[r];
      var w := m.buf[m.ring.slotOf[r]];
      forall e: Endian
        ensures ReadHeader(e, w).ch == c.ch
      {
        ChannelRead(e, w, c.ch);
      }
      LeaveCore(c, m.ring, r, s.phase.n, s.sem, AtServer(w));
    case Other(s) => CoreKept(c, m.ring, s, m'.ring);
    case _ =>
  }

  lemma MemInit(c: Config)
    requires Ok(c)
    ensures MemInv(c, SendInit(c))
  {
    SendShapeInit(c);
    InvInit(c);
    CoreOf(c, Init(c));
  }

  lemma {:induction false} MemAlways(c: Config, r: SendRun, i: nat)
    requires IsSendRun(c, r) && i < |r.states|
    ensures MemInv(c, r.states[i])
    decreases i
  {
    hide MemInv, SendInit;
    if i == 0 {
      MemInit(c);
    } else {
      MemAlways(c, r, i - 1);
      MemKept(c, r.states[i - 1], r.acts[i - 1], r.states[i]);
    }
  }

  /** However sends interleave on shared slots: requests never outnumber the set bits, the ring never
      loses a buffer, and every message names the client's channel. */
  lemma FlowHowever(c: Config, r: SendRun, i: nat)
    requires IsSendRun(c, r) && i < |r.states|
    ensures var s := r.states[i].ring;
      && Core(c, s)
      && Unfinished(s) <= SetCount(s.bits) <= c.n
      && Unanswered(s) <= |s.posted| + InHand(s)
      && Ring(s) == Rotation(c.n, Reposts(s))
  {
    hide IsSendRun;
    MemAlways(c, r, i);
    CoreBounds(c, r.states[i].ring);
  }

  // ---------------------------------------------------------------- one sender a slot

  /** No two requests have a send under way on one slot. */
  ghost predicate Apart(m: Mem)
    requires |m.senders| <= |m.ring.slotOf|
  {
    forall r, r' :: 0 <= r < r' < |m.senders| && m.senders[r].Inside? && m.senders[r'].Inside? ==>
      m.ring.slotOf[r] != m.ring.slotOf[r']
  }

  ghost predicate Busy(m: Mem, b: nat)
    requires |m.senders| <= |m.ring.slotOf|
  {
    exists r :: 0 <= r < |m.senders| && m.senders[r].Inside? && m.ring.slotOf[r] == b
  }

  /** What a send that nobody disturbs has done so far: `last` is the number last posted from the
      slot, `counter` and `w` its memory. */
  ghost predicate Undisturbed(c: Config, s: Sender, last: u64, counter: u64, w: seq<byte>)
    requires |w| == HEADER_SIZE + c.size
  {
    s.Inside? ==>
      && |s.data| == c.size
      && match s.phase
         case Loaded(x) => x == counter == last
         case Stored => counter == NextSeqn(last)
         case Drew(n) => n == counter == NextSeqn(last)
         case HasSeqn(n) => n == counter == NextSeqn(last) && w[0..8] == Field(n)
         case HasSem(n) => n == counter == NextSeqn(last) && w[0..8] == Field(n) && w[16..24] == Field(s.sem)
         case Copying(n, i) =>
           && n == counter == NextSeqn(last) && w[0..8] == Field(n) && w[16..24] == Field(s.sem)
           && w[8..16] == Field(c.ch) && i <= c.size && w[HEADER_SIZE..HEADER_SIZE + i] == s.data[..i]
         case Handed(n) => n == counter == NextSeqn(last) && w == Wire(Header(n, c.ch, s.sem), s.data)
  }

  ghost predicate SendInv(c: Config, m: Mem) {
    && MemShape(c, m)
    && (forall b :: 0 <= b < c.n && !Busy(m, b) ==> m.counter[b] == m.ring.seqn[b])
    && (forall r :: 0 <= r < |m.senders| ==> SoFar(c, m, r))
  }

  ghost predicate SoFar(c: Config, m: Mem, r: nat)
    requires MemShape(c, m) && r < |m.senders|
  {
    var b := m.ring.slotOf[r];
    Undisturbed(c, m.senders[r], m.ring.seqn[b], m.counter[b], m.buf[b])
  }

  lemma GoUndisturbed(c: Config, s: Sender, last: u64, counter: u64, w: seq<byte>)
    requires s.Inside? && |w| == HEADER_SIZE + c.size && Undisturbed(c, s, last, counter, w) && !Full(c, s) && !HandedOver(s)
    ensures Undisturbed(c, GoSender(c, s, counter), last, GoCounter(s, counter), GoBuf(c, s, w))
  {
    hide Field, Put, NextSeqn, Wire;
    match s.phase
    case HasSeqn(n) => PutElsewhere(w, 16, Field(s.sem), 0, 8);
    case HasSem(n) =>
      PutElsewhere(w, 8, Field(c.ch), 0, 8);
      PutElsewhere(w, 8, Field(c.ch), 16, 24);
    case Copying(n, i) =>
      PutElsewhere(w, HEADER_SIZE + i, [s.data[i]], 0, 8);
      PutElsewhere(w, HEADER_SIZE + i, [s.data[i]], 8, 16);
      PutElsewhere(w, HEADER_SIZE + i, [s.data[i]], 16, 24);
      PutElsewhere(w, HEADER_SIZE + i, [s.data[i]], HEADER_SIZE, HEADER_SIZE + i);
      var w' := Put(w, HEADER_SIZE + i, [s.data[i]]);
      assert w'[HEADER_SIZE..HEADER_SIZE + i + 1]
          == w'[HEADER_SIZE..HEADER_SIZE + i] + w'[HEADER_SIZE + i..HEADER_SIZE + i + 1];
    case _ =>
  }

  /** A send left undisturbed has its own message in the buffer when it is about to post. */
  lemma FullIsWhole(c: Config, s: Sender, last: u64, counter: u64, w: seq<byte>)
    requires |w| == HEADER_SIZE + c.size && Undisturbed(c, s, last, counter, w) && Whole(c, s)
    ensures w == Wire(Header(s.phase.n, c.ch, s.sem), s.data) && s.phase.n == counter == NextSeqn(last)
  {
    hide Field;
    if Full(c, s) {
      assert w == w[0..8] + w[8..16] + w[16..24] + w[24..];
      assert w[HEADER_SIZE..HEADER_SIZE + c.size] == w[24..];
    }
  }

  lemma BusyStays(m: Mem, m': Mem, b: nat)
    requires |m.senders| <= |m.ring.slotOf| && |m'.senders| <= |m'.ring.slotOf|
    requires |m.senders| <= |m'.senders| && m.ring.slotOf <= m'.ring.slotOf
    requires forall r :: 0 <= r < |m.senders| && m.ring.slotOf[r] == b && m.senders[r].Inside? ==> m'.senders[r].Inside?
    ensures Busy(m, b) ==> Busy(m', b)
  {
  }

  lemma BeginKept(c: Config, m: Mem, r: nat, sem: u64, data: seq<byte>, m': Mem)
    requires SendInv(c, m) && SendNext(c, m, Begin(r, sem, data), m') && MemShape(c, m') && Apart(m')
    ensures SendInv(c, m')
  {
    hide Field, Shape, Enabled, NextSeqn;
    var b := m.ring.slotOf[r];
    assert !Busy(m, b) by {
      assert forall k :: 0 <= k < |m.senders| && m.senders[k].Inside? ==> m'.senders[k] == m.senders[k];
    }
    forall d | 0 <= d < c.n && !Busy(m', d)
      ensures !Busy(m, d)
    {
      BusyStays(m, m', d);
    }
    forall k | 0 <= k < |m'.senders|
      ensures SoFar(c, m', k)
    {
      assert SoFar(c, m, k);
    }
  }

  lemma GoKept(c: Config, m: Mem, r: nat, m': Mem)
    requires SendInv(c, m) && Apart(m) && SendNext(c, m, Go(r), m') && MemShape(c, m')
    ensures SendInv(c, m')
  {
    hide Field, Shape, Enabled, NextSeqn, GoBuf, GoCounter, Undisturbed;
    var b := m.ring.slotOf[r];
    assert SoFar(c, m, r);
    GoUndisturbed(c, m.senders[r], m.ring.seqn[b], m.counter[b], m.buf[b]);
    forall d | 0 <= d < c.n && !Busy(m', d)
      ensures !Busy(m, d)
    {
      BusyStays(m, m', d);
    }
    assert Busy(m', b) by {
      assert m'.senders[r].Inside?;
    }
    forall k | 0 <= k < |m'.senders|
      ensures SoFar(c, m', k)
    {
      assert SoFar(c, m, k);
      if k != r && m.senders[k].Inside? {
        assert m.ring.slotOf[k] != b;
      } else if k != r {
        OutSoFar(c, m', k);
      }
    }
  }

  lemma OutSoFar(c: Config, m: Mem, k: nat)
    requires MemShape(c, m) && k < |m.senders| && m.senders[k].Out?
    ensures SoFar(c, m, k)
  {
  }

  /** A refusal, and the device's reading, is the single step of SlotRing. */
  lemma LeaveMatches(c: Config, m: Mem, r: nat, ok: bool)
    requires SendInv(c, m) && r < |m.senders| && Whole(c, m.senders[r])
    ensures var s := m.senders[r]; var n := s.phase.n; var b := m.ring.slotOf[r];
      var m' := Leave(c, m, r, if ok then AtServer(m.buf[b]) else Lost);
      && Next(c, m.ring, if ok then Send(r, s.sem, s.data) else SendFails(r, s.sem), m'.ring)
      && m.buf[b] == Wire(Header(n, c.ch, s.sem), s.data)
      && n == m.counter[b] == m'.ring.seqn[b]
  {
    hide Wire, Undisturbed, NextSeqn;
    assert SoFar(c, m, r);
    var b := m.ring.slotOf[r];
    FullIsWhole(c, m.senders[r], m.ring.seqn[b], m.counter[b], m.buf[b]);
    UndisturbedData(c, m.senders[r], m.ring.seqn[b], m.counter[b], m.buf[b]);
  }

  lemma UndisturbedData(c: Config, s: Sender, last: u64, counter: u64, w: seq<byte>)
    requires |w| == HEADER_SIZE + c.size && Undisturbed(c, s, last, counter, w) && s.Inside?
    ensures |s.data| == c.size
  {
  }

  lemma LeaveKept(c: Config, m: Mem, r: nat, ok: bool, m': Mem)
    requires SendInv(c, m) && Apart(m) && r < |m.senders| && Whole(c, m.senders[r]) && MemShape(c, m')
    requires m' == Leave(c, m, r, if ok then AtServer(m.buf[m.ring.slotOf[r]]) else Lost)
    ensures SendInv(c, m')
  {
    LeaveMatches(c, m, r, ok);
    hide Field, Shape, Enabled, NextSeqn, Undisturbed, Wire, Next;
    var b := m.ring.slotOf[r];
    forall d | 0 <= d < c.n && !Busy(m', d)
      ensures m'.counter[d] == m'.ring.seqn[d]
    {
      if d != b {
        BusyStays(m, m', d);
      }
    }
    forall k | 0 <= k < |m'.senders|
      ensures SoFar(c, m', k)
    {
      assert SoFar(c, m, k);
      if m'.senders[k].Inside? {
        assert m.ring.slotOf[k] != b;
      } else {
        OutSoFar(c, m', k);
      }
    }
  }

  lemma HandOverKept(c: Config, m: Mem, r: nat, m': Mem)
    requires SendInv(c, m) && Apart(m) && SendNext(c, m, Post(r, true), m') && MemShape(c, m')
    ensures SendInv(c, m')
  {
    LeaveMatches(c, m, r, true);
    hide Field, Shape, Enabled, NextSeqn, Wire, Next;
    forall d | 0 <= d < c.n && !Busy(m', d)
      ensures !Busy(m, d)
    {
      BusyStays(m, m', d);
    }
    forall k | 0 <= k < |m'.senders|
      ensures SoFar(c, m', k)
    {
      assert SoFar(c, m, k);
    }
  }

  lemma OtherKept(c: Config, m: Mem, s: Step, m': Mem)
    requires SendInv(c, m) && QueueInv(c, m.ring) && SendNext(c, m, Other(s), m') && MemShape(c, m')
    ensures SendInv(c, m')
  {
    TakenStays(c, m.ring, s);
    hide Field, Shape, Enabled, Apply, NextSeqn, Undisturbed;
    forall d | 0 <= d < c.n && !Busy(m', d)
      ensures !Busy(m, d)
    {
      BusyStays(m, m', d);
    }
    forall k | 0 <= k < |m'.senders|
      ensures SoFar(c, m', k)
    {
      if k < |m.senders| {
        assert SoFar(c, m, k);
      } else {
        OutSoFar(c, m', k);
      }
    }
  }

  lemma SendKept(c: Config, m: Mem, t: Act, m': Mem)
    requires MemInv(c, m) && SendInv(c, m) && Apart(m) && SendNext(c, m, t, m') && MemShape(c, m') && Apart(m')
    ensures SendInv(c, m')
  {
    hide SendInv, MemShape, Apart, Leave;
    match t
    case Begin(r, sem, data) => BeginKept(c, m, r, sem, data, m');
    case Go(r) => GoKept(c, m, r, m');
    case Post(r, ok) =>
      if ok {
        HandOverKept(c, m, r, m');
      } else {
        LeaveKept(c, m, r, false, m');
      }
    case DeviceReads(r) => LeaveKept(c, m, r, true, m');
    case Other(s) => OtherKept(c, m, s, m');
  }

  /** The single step of SlotRing that an access stands for; within a send only its end stands for one. */
  function Stands(m: Mem, t: Act): Option<Step> {
    match t
    case Post(r, ok) =>
      if r < |m.senders| && m.senders[r].Inside? && !ok then Some(SendFails(r, m.senders[r].sem)) else None
    case DeviceReads(r) =>
      if r < |m.senders| && m.senders[r].Inside? then Some(Send(r, m.senders[r].sem, m.senders[r].data)) else None
    case Other(s) => Some(s)
    case _ => None
  }

  lemma SendMatches(c: Config, m: Mem, t: Act, m': Mem)
    requires SendInv(c, m) && SendNext(c, m, t, m')
    ensures match Stands(m, t)
      case Some(s) => Next(c, m.ring, s, m'.ring)
      case None => m'.ring == m.ring
  {
    hide Apply, Enabled, Shape, SendInv;
    if t.Post? && !t.ok {
      LeaveMatches(c, m, t.req, false);
    } else if t.DeviceReads? {
      LeaveMatches(c, m, t.req, true);
    }
  }

  /** What the device takes for a request is that request's own header and data. */
  ghost predicate OwnMessage(c: Config, m: Mem, t: Act) {
    t.DeviceReads? && t.req < |m.senders| && HandedOver(m.senders[t.req]) ==>
      var s := m.senders[t.req];
      && t.req < |m.ring.slotOf| && m.ring.slotOf[t.req] < |m.buf|
      && m.buf[m.ring.slotOf[t.req]] == Wire(Header(s.phase.n, c.ch, s.sem), s.data)
  }

  ghost predicate AllOwn(c: Config, r: SendRun)
    requires |r.states| == |r.acts| + 1
  {
    forall i :: 0 <= i < |r.acts| ==> OwnMessage(c, r.states[i], r.acts[i])
  }

  ghost predicate ApartBefore(r: SendRun, i: nat)
    requires i <= |r.states|
  {
    forall j :: 0 <= j < i ==> |r.states[j].senders| <= |r.states[j].ring.slotOf| && Apart(r.states[j])
  }

  lemma {:induction false} SendAlways(c: Config, r: SendRun, i: nat)
    requires IsSendRun(c, r) && i < |r.states| && ApartBefore(r, i + 1)
    ensures SendInv(c, r.states[i])
    decreases i
  {
    hide MemInv, SendInv, SendNext, Apart;
    if i == 0 {
      SendInitInv(c);
    } else {
      SendAlways(c, r, i - 1);
      MemAlways(c, r, i - 1);
      MemAlways(c, r, i);
      ShapeOfMem(c, r.states[i]);
      SendKept(c, r.states[i - 1], r.acts[i - 1], r.states[i]);
    }
  }

  lemma ShapeOfMem(c: Config, m: Mem)
    requires MemInv(c, m)
    ensures MemShape(c, m)
  {
  }

  lemma SendInitInv(c: Config)
    requires Ok(c)
    ensures SendInv(c, SendInit(c))
  {
    SendShapeInit(c);
  }

  /** A response is handled from the buffer of its own request's slot. */
  ghost predicate HandlesOwn(m: Mem, t: Act) {
    t.Other? ==> Matched(m.ring, t.step)
  }

  /** As long as no two sends have been under way on one slot at a time, what has happened is a run of
      SlotRing, each message read, or refused, being its single step; so everything proved of its runs
      holds. */
  lemma {:induction false} MatchesRun(c: Config, r: SendRun, i: nat) returns (a: Run)
    requires IsSendRun(c, r) && i < |r.states| && ApartBefore(r, i)
    ensures IsRun(c, a) && Last(a) == r.states[i].ring
    ensures (forall j :: 0 <= j < i ==> HandlesOwn(r.states[j], r.acts[j])) ==> AllMatched(a)
    decreases i
  {
    hide SendNext, SendInv, Apart, Next, Shape, Enabled, Apply, Init;
    if i == 0 {
      a := Run([Init(c)], []);
      assert r.states[0].ring == Init(c) by {
        RingInit0(c);
      }
    } else {
      var m, t := r.states[i - 1], r.acts[i - 1];
      a := MatchesRun(c, r, i - 1);
      SendAlways(c, r, i - 1);
      SendMatches(c, m, t, r.states[i]);
      var s := Stands(m, t);
      if s.Some? {
        NextNeeds(c, m.ring, s.value, r.states[i].ring);
        var a' := Extend(c, a, s.value);
        if forall j :: 0 <= j < i ==> HandlesOwn(r.states[j], r.acts[j]) {
          assert HandlesOwn(m, t);
          MatchedMore(a, a', s.value);
        }
        a := a';
      }
    }
  }

  lemma RingInit0(c: Config)
    ensures SendInit(c).ring == Init(c)
  {
  }

  lemma NextNeeds(c: Config, s: State, t: Step, s': State)
    requires Ok(c) && Next(c, s, t, s')
    ensures Shape(c, s) && Enabled(c, s, t) && s' == Apply(c, s, t)
  {
  }

  lemma MatchedMore(a: Run, a': Run, t: Step)
    requires |a.states| == |a.steps| + 1 && |a'.states| == |a'.steps| + 1
    requires a'.steps == a.steps + [t] && a.states <= a'.states
    requires AllMatched(a) && Matched(Last(a), t)
    ensures AllMatched(a')
  {
    hide Matched;
    forall i | 0 <= i < |a'.steps|
      ensures Matched(a'.states[i], a'.steps[i])
    {
      assert i < |a.steps| ==> Matched(a.states[i], a.steps[i]);
    }
  }

  /** Then every message that leaves is its own request's, header and data. */
  lemma ApartSendsOwn(c: Config, r: SendRun)
    requires IsSendRun(c, r) && ApartBefore(r, |r.states|)
    ensures AllOwn(c, r)
  {
    hide SendNext, SendInv, Apart, Wire;
    forall i | 0 <= i < |r.acts|
      ensures OwnMessage(c, r.states[i], r.acts[i])
    {
      SendAlways(c, r, i);
      SendInvShape(c, r.states[i]);
      if r.acts[i].DeviceReads? && r.acts[i].req < |r.states[i].senders| && HandedOver(r.states[i].senders[r.acts[i].req]) {
        LeaveMatches(c, r.states[i], r.acts[i].req, true);
      }
    }
  }

  lemma SendInvShape(c: Config, m: Mem)
    requires SendInv(c, m)
    ensures MemShape(c, m)
  {
  }

  // ---------------------------------------------------------------- when sends stay apart

  /** With one message buffer sends never meet. */
  lemma OneBufferApart(c: Config, r: SendRun)
    requires IsSendRun(c, r) && c.n == 1
    ensures ApartBefore(r, |r.states|)
  {
    hide Core, ChannelWritten;
    forall j | 0 <= j < |r.states|
      ensures |r.states[j].senders| <= |r.states[j].ring.slotOf| && Apart(r.states[j])
    {
      var m := r.states[j];
      MemAlways(c, r, j);
      FlowHowever(c, r, j);
      if !Apart(m) {
        var k, k' :| 0 <= k < k' < |m.senders| && m.senders[k].Inside? && m.senders[k'].Inside?;
        TwoTaken(m.ring.at, k, k');
        assert false;
      }
    }
  }

  lemma ExclusiveIsApart(c: Config, m: Mem)
    requires MemShape(c, m) && Exclusive(m.ring)
    ensures Apart(m)
  {
  }

  /** Nor do they while every response handled landed in its own request's slot. */
  lemma {:induction false} MatchedApart(c: Config, r: SendRun, i: nat)
    requires IsSendRun(c, r) && i <= |r.states|
    requires forall j :: 0 <= j < |r.acts| ==> HandlesOwn(r.states[j], r.acts[j])
    ensures ApartBefore(r, i)
    decreases i
  {
    hide SendNext, Apart, Exclusive, MemInv, MemShape, HandlesOwn, SendInit;
    if i > 0 {
      MatchedApart(c, r, i - 1);
      var a := MatchesRun(c, r, i - 1);
      ExclusiveWhileMatched(c, a, |a.steps|);
      MemAlways(c, r, i - 1);
      ShapeOfMem(c, r.states[i - 1]);
      ExclusiveIsApart(c, r.states[i - 1]);
      SendersHaveSlots(c, r.states[i - 1]);
    }
  }

  lemma SendersHaveSlots(c: Config, m: Mem)
    requires MemShape(c, m)
    ensures |m.senders| <= |m.ring.slotOf|
  {
  }

  /** So in both cases every message that leaves is its own, and the run is one of SlotRing. */
  lemma OwnWhenSlotsHold(c: Config, r: SendRun) returns (a: Run)
    requires IsSendRun(c, r)
    requires c.n == 1 || forall j :: 0 <= j < |r.acts| ==> HandlesOwn(r.states[j], r.acts[j])
    ensures AllOwn(c, r)
    ensures IsRun(c, a) && Last(a) == r.states[|r.acts|].ring
  {
    hide SendNext, SendInit, HandlesOwn, OwnMessage, Apart;
    if c.n == 1 {
      OneBufferApart(c, r);
    } else {
      MatchedApart(c, r, |r.states|);
    }
    ApartSendsOwn(c, r);
    a := MatchesRun(c, r, |r.acts|);
  }

  /** EndToEndEcho for sends one access at a time. */
  lemma EchoWhileApart(c: Config, r: SendRun, i: nat, k: nat)
    requires IsSendRun(c, r) && i < |r.states| && ApartBefore(r, i) && k < |r.states[i].ring.log|
    ensures var s := r.states[i].ring; var d := s.log[k];
      && |s.at| == |s.hdr| && d.req < |s.at| && s.at[d.req].Done?
      && d.hdr.ch == c.ch && d.hdr.sem == s.hdr[d.req].sem
      && (s.hdr[d.req].seqn != 0 ==> d.hdr == s.hdr[d.req])
      && (forall j :: 0 <= j < |s.log| && j != k ==> s.log[j].req != d.req)
  {
    hide IsSendRun, ApartBefore, IsRun;
    var a := MatchesRun(c, r, i);
    RunStates(c, a);
    EndToEndEcho(c, a, |a.steps|, k);
  }

  /** SequenceNumbers for sends one access at a time; `counter` is what memory holds. */
  lemma NumbersWhileApart(c: Config, r: SendRun, i: nat, j: nat)
    requires IsSendRun(c, r) && i < |r.states| && ApartBefore(r, i + 1) && j < |r.states[i].ring.sends|
    ensures var s := r.states[i].ring; var m := s.sends[j];
      && m.seqn == (SendsOn(s.sends[..j + 1], m.slot) + 1) % TWO_TO_THE_64
      && |s.hdr| == |s.slotOf| && m.req < |s.hdr|
      && m.slot == s.slotOf[m.req] && m.seqn == s.hdr[m.req].seqn
    ensures var m := r.states[i];
      |m.senders| <= |m.ring.slotOf| && |m.counter| == |m.ring.seqn| == c.n
      && forall b :: 0 <= b < c.n && !Busy(m, b) ==> m.counter[b] == Wrap(1 + SendsOn(m.ring.sends, b))
  {
    hide IsSendRun, Apart, IsRun, SendsOn, Wrap;
    var a := MatchesRun(c, r, i);
    RunStates(c, a);
    SequenceNumbers(c, a, |a.steps|, j);
    InvAlways(c, a, |a.steps|);
    CountersOf(c, r.states[i].ring);
    SendAlways(c, r, i);
    IdleCounters(c, r.states[i]);
  }

  lemma CountersOf(c: Config, s: State)
    requires Inv(c, s)
    ensures forall b :: 0 <= b < |s.seqn| ==> s.seqn[b] == Wrap(1 + SendsOn(s.sends, b))
  {
  }

  lemma IdleCounters(c: Config, m: Mem)
    requires SendInv(c, m)
    ensures |m.senders| <= |m.ring.slotOf| && |m.counter| == |m.ring.seqn| == c.n
    ensures forall b :: 0 <= b < c.n && !Busy(m, b) ==> m.counter[b] == m.ring.seqn[b]
  {
  }

  lemma RunStates(c: Config, a: Run)
    requires IsRun(c, a)
    ensures |a.states| == |a.steps| + 1
  {
  }
}
