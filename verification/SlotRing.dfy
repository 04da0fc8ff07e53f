/** The request/response protocol of rpc_client.c, rpc_common.c and rdma.c as a step system.

    Requesters take the lowest clear bit as their slot and send from it.  A server echoes each
    request's header once, in any order.  A response takes the receive buffer posted longest ago,
    queues a completion, and one serial handler drains the queue: it decodes the buffer, clears the
    bit named by the *buffer's* wr_id (not by the request's slot), and posts the buffer again.

    The taking and clearing of a bit are single steps here, and so is a send, from numbering the message
    to the device's reading it.  LockedRing refines the first two; SlotSends takes the send apart and says
    when it may be put together. */
module SlotRing {
  import opened Bitmap
  import opened Codec

  /** `n` message buffers of `size` data bytes, a client of byte order `client`, and the address
      of its one channel. */
  datatype Config = Config(n: nat, size: nat, client: Endian, ch: u64)

  ghost predicate Ok(c: Config) {
    c.n >= 1
  }

  /** Where a request is. */
  datatype Loc =
    | Taken                       // has a slot, not yet sent
    | Lost                        // the send failed; nobody gives the slot back
    | AtServer(msg: seq<byte>)
    | Answered(msg: seq<byte>)    // its response has not yet taken a receive buffer
    | Queued(buf: nat)            // its response is a completion waiting in the queue
    | InHandler                   // polled, bit not yet cleared
    | Done

  datatype Completion = Completion(buf: nat, req: nat)

  datatype Handler =
    | Idle
    | Polled(buf: nat, req: nat)  // before free_msgbuf_id
    | Freed(buf: nat, req: nat)   // after it, before ib_post_recv

  /** One call of the RPC message handler. */
  datatype Dispatch = Dispatch(buf: nat, req: nat, hdr: Header)

  /** One numbering of a message: for which request, from which slot, with which number. */
  datatype Numbered = Numbered(req: nat, slot: nat, seqn: u64)

  datatype State = State(
    bits: seq<bool>,
    at: seq<Loc>,           // request k is the k-th to have got a slot
    slotOf: seq<nat>,
    hdr: seq<Header>,       // what request k was sent with
    posted: seq<nat>,       // receive queue, oldest first
    cq: seq<Completion>,
    handler: Handler,
    recvBuf: seq<seq<byte>>,
    seqn: seq<u64>,         // per-slot counters
    sends: seq<Numbered>,
    log: seq<Dispatch>
  )

  datatype Step =
    | Alloc
    | Spin
    | Send(req: nat, sem: u64, data: seq<byte>)
    | SendFails(req: nat, sem: u64)
    | Answer(req: nat, server: Endian, own: u64, data: seq<byte>)
    | Deliver(req: nat)
    | Poll
    | Handle
    | Repost

  function Init(c: Config): State {
    State(seq(c.n, _ => false), [], [], [], seq(c.n, i => i), [], Idle, seq(c.n, _ => []), seq(c.n, _ => 1), [], [])
  }

  /** `alloc_seqn`: an unsigned 64-bit increment. */
  function NextSeqn(x: u64): u64 {
    (x + 1) % TWO_TO_THE_64
  }

  /** A server's reply: `send_rdma_msg` keeps a nonzero number and draws a fresh one for zero. */
  function EchoHeader(h: Header, own: u64): Header {
    if h.seqn == 0 then h.(seqn := own) else h
  }

  predicate Enabled(c: Config, s: State, t: Step)
    requires Ok(c) && Shape(c, s)
  {
    match t
    case Alloc => FirstClear(s.bits) < c.n
    case Spin => FirstClear(s.bits) == c.n
    case Send(r, _, data) => r < |s.at| && s.at[r].Taken? && |data| == c.size
    case SendFails(r, _) => r < |s.at| && s.at[r].Taken?
    case Answer(r, _, _, data) => r < |s.at| && s.at[r].AtServer? && |data| == c.size
    case Deliver(r) => r < |s.at| && s.at[r].Answered? && s.posted != []
    case Poll => s.handler.Idle? && s.cq != []
    case Handle => s.handler.Polled?
    case Repost => s.handler.Freed?
  }

  function Apply(c: Config, s: State, t: Step): State
    requires Ok(c) && Shape(c, s) && Enabled(c, s, t)
  {
    match t
    case Alloc => Take(s, FirstClear(s.bits))
    case Spin => s
    case Send(r, sem, data) =>
      var n := NextSeqn(s.seqn[s.slotOf[r]]);
      var h := Header(n, c.ch, sem);
      Number(s, r, n).(at := s.at[r := AtServer(Wire(h, data))], hdr := s.hdr[r := h])
    case SendFails(r, sem) =>
      var n := NextSeqn(s.seqn[s.slotOf[r]]);
      Number(s, r, n).(at := s.at[r := Lost], hdr := s.hdr[r := Header(n, c.ch, sem)])
    case Answer(r, server, own, data) =>
      var h := ReadHeader(server, s.at[r].msg);
      s.(at := s.at[r := Answered(Wire(EchoHeader(h, own), data))])
    case Deliver(r) =>
      var b := s.posted[0];
      s.(at := s.at[r := Queued(b)],
         posted := s.posted[1..],
         cq := s.cq + [Completion(b, r)],
         recvBuf := s.recvBuf[b := s.at[r].msg])
    case Poll =>
      s.(at := s.at[s.cq[0].req := InHandler], cq := s.cq[1..], handler := Polled(s.cq[0].buf, s.cq[0].req))
    case Handle =>
      var Polled(b, r) := s.handler;
      var h := ReadHeader(c.client, s.recvBuf[b]);
      s.(bits := if h.ch == c.ch then ClearAll(s.bits, [b]) else s.bits,
         at := s.at[r := Done],
         handler := Freed(b, r),
         log := s.log + [Dispatch(b, r, h)])
    case Repost =>
      s.(posted := s.posted + [s.handler.buf], handler := Idle)
  }

  /** Bit `b` is set and becomes the slot of a new request. */
  function Take(s: State, b: nat): State
    requires b < |s.bits|
  {
    s.(bits := s.bits[b := true], at := s.at + [Taken], slotOf := s.slotOf + [b], hdr := s.hdr + [Header(0, 0, 0)])
  }

  function Number(s: State, r: nat, n: u64): State
    requires r < |s.slotOf| && s.slotOf[r] < |s.seqn|
  {
    s.(seqn := s.seqn[s.slotOf[r] := n], sends := s.sends + [Numbered(r, s.slotOf[r], n)])
  }

  /** Indices are in range and buffers hold whole messages: what Apply needs to be defined. */
  predicate Shape(c: Config, s: State) {
    && |s.bits| == |s.recvBuf| == |s.seqn| == c.n
    && |s.at| == |s.slotOf| == |s.hdr|
    && (forall k :: 0 <= k < |s.at| ==> s.slotOf[k] < c.n)
    && (forall k :: 0 <= k < |s.at| && s.at[k].AtServer? ==> |s.at[k].msg| == HEADER_SIZE + c.size)
    && (forall k :: 0 <= k < |s.at| && s.at[k].Answered? ==> |s.at[k].msg| == HEADER_SIZE + c.size)
    && (forall i :: 0 <= i < |s.posted| ==> s.posted[i] < c.n)
    && (forall i :: 0 <= i < |s.cq| ==> s.cq[i].buf < c.n && s.cq[i].req < |s.at|)
    && (forall i :: 0 <= i < |s.cq| ==> |s.recvBuf[s.cq[i].buf]| == HEADER_SIZE + c.size)
    && (!s.handler.Idle? ==> s.handler.buf < c.n && s.handler.req < |s.at|)
    && (s.handler.Polled? ==> |s.recvBuf[s.handler.buf]| == HEADER_SIZE + c.size)
  }

  lemma InitShape(c: Config)
    requires Ok(c)
    ensures Shape(c, Init(c))
  {
  }

  lemma ShapeKept(c: Config, s: State, t: Step)
    requires Ok(c) && Shape(c, s) && Enabled(c, s, t)
    ensures Shape(c, Apply(c, s, t))
  {
    hide ReadHeader, Wire, ClearAll, FirstClear;
  }

  // ---------------------------------------------------------------- runs

  /** One step taken: `t` was possible in `s` and leads to `s'`. */
  ghost predicate Next(c: Config, s: State, t: Step, s': State)
    requires Ok(c)
  {
    Shape(c, s) && Enabled(c, s, t) && s' == Apply(c, s, t)
  }

  /** The states passed through and the step taken from each but the last. */
  datatype Run = Run(states: seq<State>, steps: seq<Step>)

  ghost predicate IsRun(c: Config, r: Run) {
    && Ok(c)
    && |r.states| == |r.steps| + 1
    && r.states[0] == Init(c)
    && forall i :: 0 <= i < |r.steps| ==> Next(c, r.states[i], r.steps[i], r.states[i + 1])
  }

  // ---------------------------------------------------------------- counting requests

  /** The sum of a weight over all requests. */
  function Tally(at: seq<Loc>, w: Loc -> nat): nat {
    if at == [] then 0 else w(at[|at| - 1]) + Tally(at[..|at| - 1], w)
  }

  lemma {:induction false} TallyUpdate(at: seq<Loc>, k: nat, l: Loc, w: Loc -> nat)
    requires k < |at|
    ensures Tally(at[k := l], w) + w(at[k]) == Tally(at, w) + w(l)
  {
    if k == |at| - 1 {
      assert at[k := l][..|at| - 1] == at[..|at| - 1];
    } else {
      assert at[k := l][..|at| - 1] == at[..|at| - 1][k := l];
      TallyUpdate(at[..|at| - 1], k, l, w);
    }
  }

  lemma TallyPush(at: seq<Loc>, l: Loc, w: Loc -> nat)
    ensures Tally(at + [l], w) == Tally(at, w) + w(l)
  {
    assert (at + [l])[..|at|] == at;
  }

  lemma {:induction false} TallyAtLeast(at: seq<Loc>, k: nat, w: Loc -> nat)
    requires k < |at|
    ensures Tally(at, w) >= w(at[k])
  {
    if k < |at| - 1 {
      TallyAtLeast(at[..|at| - 1], k, w);
    }
  }

  /** A positive tally has a request behind it. */
  lemma {:induction false} TallyWitness(at: seq<Loc>, w: Loc -> nat) returns (k: nat)
    requires Tally(at, w) > 0
    ensures k < |at| && w(at[k]) > 0
  {
    k := |at| - 1;
    if w(at[k]) == 0 {
      k := TallyWitness(at[..|at| - 1], w);
    }
  }

  /** Slot taken, in flight, or completed but not yet handled. */
  const UNFINISHED: Loc -> nat := (l: Loc) => if l.Lost? || l.Done? then 0 else 1

  /** Unfinished, and its response has not yet taken a receive buffer. */
  const UNANSWERED: Loc -> nat := (l: Loc) => if l.Taken? || l.AtServer? || l.Answered? then 1 else 0

  const LOST: Loc -> nat := (l: Loc) => if l.Lost? then 1 else 0

  lemma TwoTaken(at: seq<Loc>, k: nat, k': nat)
    requires k < k' < |at| && at[k].Taken? && at[k'].Taken?
    ensures Tally(at, UNFINISHED) >= 2
  {
    TallyUpdate(at, k, Done, UNFINISHED);
    TallyAtLeast(at[k := Done], k', UNFINISHED);
  }

  function Unfinished(s: State): nat { Tally(s.at, UNFINISHED) }

  function Unanswered(s: State): nat { Tally(s.at, UNANSWERED) }

  function LostSends(s: State): nat { Tally(s.at, LOST) }

  // ---------------------------------------------------------------- the receive ring

  /** 0..n-1 starting from k. */
  function Rotation(n: nat, k: nat): (r: seq<nat>)
    requires n >= 1
    ensures |r| == n
    ensures forall i :: 0 <= i < n ==> r[i] == (k + i) % n
  {
    seq(n, i requires 0 <= i < n => (k + i) % n)
  }

  lemma RotationStart(n: nat)
    requires n >= 1
    ensures forall i :: 0 <= i < n ==> Rotation(n, 0)[i] == i
  {
    forall i | 0 <= i < n
      ensures Rotation(n, 0)[i] == i
    {
      assert i % n == i;
    }
  }

  lemma RotationDistinct(n: nat, k: nat)
    requires n >= 1
    ensures forall i, j :: 0 <= i < j < n ==> Rotation(n, k)[i] != Rotation(n, k)[j]
  {
    forall i, j | 0 <= i < j < n
      ensures Rotation(n, k)[i] != Rotation(n, k)[j]
    {
      ModDistinct(n, k + i, k + j);
    }
  }

  lemma ModDistinct(n: nat, a: nat, b: nat)
    requires 0 < n && a < b < a + n
    ensures a % n != b % n
  {
    var q := b / n - a / n;
    assert b - a == q * n + (b % n - a % n);
    MulBound(q, n);
  }

  lemma RotationNext(n: nat, k: nat)
    requires n >= 1
    ensures Rotation(n, k)[1..] + [Rotation(n, k)[0]] == Rotation(n, k + 1)
  {
    assert (k + n) % n == k % n by {
      ModAddSelf(k, n);
    }
  }

  lemma ModAddSelf(k: nat, n: nat)
    requires n >= 1
    ensures (k + n) % n == k % n
  {
    assert k + n == (k / n + 1) * n + k % n;
    DivUnique(k + n, n, k / n + 1, k % n);
  }

  function Bufs(cq: seq<Completion>): (r: seq<nat>)
    ensures |r| == |cq|
    ensures forall i :: 0 <= i < |cq| ==> r[i] == cq[i].buf
  {
    seq(|cq|, i requires 0 <= i < |cq| => cq[i].buf)
  }

  /** The buffer in the handler, then queued completions, then posted receives. */
  function Ring(s: State): seq<nat> {
    (if s.handler.Idle? then [] else [s.handler.buf]) + Bufs(s.cq) + s.posted
  }

  /** How many buffers have been posted again. */
  function Reposts(s: State): int {
    |s.log| - (if s.handler.Freed? then 1 else 0)
  }
}
