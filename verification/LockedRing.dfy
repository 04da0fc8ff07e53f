/** Requester threads and the completion handler one memory access at a time: `alloc_msgbuf_id` and
    `free_msgbuf_id` under the spin lock (rpc_common.c:4-35), `send_rdma_msg` under none.

    No interleaving of any number of threads does anything SlotSends does not, where taking and
    clearing a bit are single steps.  That SlotRing's single-step sends are not always enough is
    SendWitness; that they are with one buffer, or while responses land in their own slots, is here. */
module LockedRing {
  import opened Bitmap
  import opened Codec
  import opened Options
  import opened SlotRing
  import opened SlotInvariants
  import opened SlotTheorems
  import opened SlotReuse
  import opened SlotSends

  /** Where a requester thread is. */
  datatype Pc =
    | Outside
    | Waiting             // at spin_lock, first time or retrying
    | Scanning(i: nat)    // holds the lock, about to look at bit i
    | Found(b: nat)       // holds the lock, bit_id is b
    | NotFound            // holds the lock, no bit was clear
    | Marked(req: nat)    // holds the lock, bit set
    | Owns(req: nat)      // lock released, slot in hand, sending

  datatype HandlerPc = Unlocked | Locked | Cleared

  datatype Holder = Nobody | Thread(t: nat) | CqHandler

  datatype Fine = Fine(mem: Mem, lock: Holder, pcs: seq<Pc>, hpc: HandlerPc)

  datatype FineStep =
    | Enter(t: nat)
    | Acquire(t: nat)
    | Scan(t: nat)
    | SetBit(t: nat)
    | Release(t: nat)
    | ThreadSends(t: nat, act: Act)
    | Network(act: Act)
    | HandlerLocks
    | HandlerClears
    | HandlerUnlocks
    | HandlerReposts

  predicate Critical(pc: Pc) {
    pc.Scanning? || pc.Found? || pc.NotFound? || pc.Marked?
  }

  predicate FineEnabled(c: Config, f: Fine, t: FineStep)
    requires MemShape(c, f.mem)
  {
    match t
    case Enter(k) => k < |f.pcs| && f.pcs[k].Outside?
    case Acquire(k) => k < |f.pcs| && f.pcs[k].Waiting? && f.lock.Nobody?
    case Scan(k) => k < |f.pcs| && f.pcs[k].Scanning?
    case SetBit(k) => k < |f.pcs| && f.pcs[k].Found?
    case Release(k) => k < |f.pcs| && (f.pcs[k].NotFound? || f.pcs[k].Marked?)
    case ThreadSends(k, a) =>
      && k < |f.pcs| && f.pcs[k].Owns? && (a.Begin? || a.Go? || a.Post?) && a.req == f.pcs[k].req
      && SendEnabled(c, f.mem, a)
    case Network(a) =>
      && (a.DeviceReads? || (a.Other? && (a.step.Answer? || a.step.Deliver? || a.step.Poll?)))
      && SendEnabled(c, f.mem, a)
    case HandlerLocks => f.mem.ring.handler.Polled? && f.hpc.Unlocked? && f.lock.Nobody?
    case HandlerClears => f.mem.ring.handler.Polled? && f.hpc.Locked?
    case HandlerUnlocks => f.hpc.Cleared?
    case HandlerReposts => f.mem.ring.handler.Freed? && f.hpc.Unlocked?
  }

  function FineApply(c: Config, f: Fine, t: FineStep): Fine
    requires MemShape(c, f.mem) && FineEnabled(c, f, t)
  {
    match t
    case Enter(k) => f.(pcs := f.pcs[k := Waiting])
    case Acquire(k) => f.(pcs := f.pcs[k := Scanning(0)], lock := Thread(k))
    case Scan(k) =>
      var i := f.pcs[k].i;
      f.(pcs := f.pcs[k := if i >= c.n then NotFound else if f.mem.ring.bits[i] then Scanning(i + 1) else Found(i)])
    case SetBit(k) =>
      // bit_array_set_bit ignores an index out of range
      var b := f.pcs[k].b;
      var pcs := f.pcs[k := Marked(|f.mem.ring.at|)];
      if b < c.n then f.(mem := f.mem.(ring := Take(f.mem.ring, b), senders := f.mem.senders + [Out]), pcs := pcs)
      else f.(pcs := pcs)
    case Release(k) =>
      f.(pcs := f.pcs[k := if f.pcs[k].Marked? then Owns(f.pcs[k].req) else Waiting], lock := Nobody)
    case ThreadSends(k, a) =>
      f.(mem := SendApply(c, f.mem, a), pcs := if a.Post? then f.pcs[k := Outside] else f.pcs)
    case Network(a) => f.(mem := SendApply(c, f.mem, a))
    case HandlerLocks => f.(hpc := Locked, lock := CqHandler)
    case HandlerClears => f.(mem := SendApply(c, f.mem, Other(Handle)), hpc := Cleared)
    case HandlerUnlocks => f.(hpc := Unlocked, lock := Nobody)
    case HandlerReposts => f.(mem := SendApply(c, f.mem, Other(Repost)))
  }

  ghost predicate FineNext(c: Config, f: Fine, t: FineStep, f': Fine) {
    MemShape(c, f.mem) && FineEnabled(c, f, t) && f' == FineApply(c, f, t)
  }

  function FineInit(c: Config, threads: nat): Fine {
    Fine(SendInit(c), Nobody, seq(threads, _ => Outside), Unlocked)
  }

  datatype FineRun = FineRun(states: seq<Fine>, steps: seq<FineStep>)

  ghost predicate IsFineRun(c: Config, threads: nat, r: FineRun) {
    && Ok(c)
    && |r.states| == |r.steps| + 1
    && r.states[0] == FineInit(c, threads)
    && forall i :: 0 <= i < |r.steps| ==> FineNext(c, r.states[i], r.steps[i], r.states[i + 1])
  }

  // ---------------------------------------------------------------- what the lock protects

  /** The lock has one holder, and what a thread has seen of the bitmap is still so. */
  ghost predicate LockInv(c: Config, f: Fine) {
    && MemInv(c, f.mem)
    && (forall k :: 0 <= k < |f.pcs| ==> (Critical(f.pcs[k]) <==> f.lock == Thread(k)))
    && (!f.hpc.Unlocked? <==> f.lock.CqHandler?)
    && (f.lock.Thread? ==> f.lock.t < |f.pcs|)
    && (f.hpc.Locked? ==> f.mem.ring.handler.Polled?)
    && (f.hpc.Cleared? ==> f.mem.ring.handler.Freed?)
    && (forall k :: 0 <= k < |f.pcs| ==> SeesRightly(c, f.mem.ring.bits, f.pcs[k]))
  }

  ghost predicate SeesRightly(c: Config, bits: seq<bool>, pc: Pc) {
    match pc
    case Scanning(i) => i <= c.n && i <= |bits| && forall j :: 0 <= j < i ==> bits[j]
    case Found(b) => b < c.n && b == FirstClear(bits)
    case NotFound => FirstClear(bits) == c.n
    case _ => true
  }

  lemma LockKept(c: Config, f: Fine, t: FineStep, f': Fine)
    requires LockInv(c, f) && FineNext(c, f, t, f')
    ensures LockInv(c, f')
  {
    hide SendApply, SendEnabled, MemShape, MemInv;
    MemUntouched(c, f, t, f');
    match t
    case Scan(k) => ScanSees(c, f, k);
    case _ =>
  }

  /** Looking at one more bit under the lock. */
  lemma ScanSees(c: Config, f: Fine, k: nat)
    requires LockInv(c, f) && FineEnabled(c, f, Scan(k))
    ensures SeesRightly(c, f.mem.ring.bits, FineApply(c, f, Scan(k)).pcs[k])
  {
    hide Core, ChannelWritten;
    var i := f.pcs[k].i;
    var bits := f.mem.ring.bits;
    assert |bits| == c.n;
    if i < c.n && !bits[i] {
      FirstClearIsLeast(bits, i);
    }
  }

  /** Bits change only under the lock, and the handler's place only by its own steps. */
  lemma MemUntouched(c: Config, f: Fine, t: FineStep, f': Fine)
    requires LockInv(c, f) && FineNext(c, f, t, f')
    ensures MemInv(c, f'.mem)
    ensures !t.SetBit? && !t.HandlerClears? ==> f'.mem.ring.bits == f.mem.ring.bits
    ensures !t.HandlerClears? && !t.HandlerReposts? && !t.Network? ==> f'.mem.ring.handler == f.mem.ring.handler
    ensures t.HandlerClears? ==> f'.mem.ring.handler.Freed?
    ensures t.Network? && !f.mem.ring.handler.Idle? ==> f'.mem.ring.handler == f.mem.ring.handler
  {
    hide FirstClear, MemInv, MemShape, SendApply, SendEnabled;
    Simulates(c, f, t, f');
    match Abstract(f, t)
    case Some(a) =>
      MemKept(c, f.mem, a, f'.mem);
      Frame(c, f.mem, a, f'.mem);
    case None =>
  }

  lemma Frame(c: Config, m: Mem, t: Act, m': Mem)
    requires SendNext(c, m, t, m')
    ensures !(t.Other? && (t.step.Alloc? || t.step.Handle?)) ==> m'.ring.bits == m.ring.bits
    ensures !(t.Other? && (t.step.Handle? || t.step.Repost? || t.step.Poll?)) ==> m'.ring.handler == m.ring.handler
    ensures t == Other(Handle) ==> m'.ring.handler.Freed?
    ensures t == Other(Poll) ==> m.ring.handler.Idle?
  {
    hide FirstClear, ReadHeader, Wire, ClearAll, Shape;
  }

  // ---------------------------------------------------------------- refinement

  /** The act of SlotSends a fine step stands for; the others only move a thread or the lock. */
  function Abstract(f: Fine, t: FineStep): Option<Act> {
    match t
    case SetBit(_) => Some(Other(Alloc))
    case Release(k) => if k < |f.pcs| && f.pcs[k].NotFound? then Some(Other(Spin)) else None
    case ThreadSends(_, a) => Some(a)
    case Network(a) => Some(a)
    case HandlerClears => Some(Other(Handle))
    case HandlerReposts => Some(Other(Repost))
    case _ => None
  }

  /** A fine step is the act it stands for, or leaves memory alone; in particular the bit a thread sets
      is the lowest clear bit at that moment. */
  lemma Simulates(c: Config, f: Fine, t: FineStep, f': Fine)
    requires LockInv(c, f) && FineNext(c, f, t, f')
    ensures match Abstract(f, t)
      case Some(a) => SendNext(c, f.mem, a, f'.mem)
      case None => f'.mem == f.mem
    ensures t.SetBit? ==> var b := f.pcs[t.t].b; b < c.n && !f.mem.ring.bits[b] && b == FirstClear(f.mem.ring.bits)
  {
    hide ReadHeader, Wire, Core, ChannelWritten, GoBuf, GoCounter, GoSender;
    match t
    case SetBit(k) => assert SeesRightly(c, f.mem.ring.bits, f.pcs[k]);
    case Release(k) => assert SeesRightly(c, f.mem.ring.bits, f.pcs[k]);
    case _ =>
  }

  lemma LockInit(c: Config, threads: nat)
    requires Ok(c)
    ensures LockInv(c, FineInit(c, threads))
  {
    MemInit(c);
  }

  lemma {:induction false} LockAlways(c: Config, threads: nat, r: FineRun, i: nat)
    requires IsFineRun(c, threads, r) && i < |r.states|
    ensures LockInv(c, r.states[i])
    decreases i
  {
    if i == 0 {
      LockInit(c, threads);
    } else {
      LockAlways(c, threads, r, i - 1);
      LockKept(c, r.states[i - 1], r.steps[i - 1], r.states[i]);
    }
  }

  /** What the steps before `i` stand for. */
  function Abstracted(r: FineRun, i: nat): seq<Act>
    requires |r.states| == |r.steps| + 1 && i <= |r.steps|
  {
    if i == 0 then []
    else
      match Abstract(r.states[i - 1], r.steps[i - 1])
      case Some(a) => Abstracted(r, i - 1) + [a]
      case None => Abstracted(r, i - 1)
  }

  /** No two sends have been under way on one slot so far. */
  ghost predicate FineApart(r: FineRun, i: nat)
    requires i <= |r.states|
  {
    forall j :: 0 <= j < i ==> |r.states[j].mem.senders| <= |r.states[j].mem.ring.slotOf| && Apart(r.states[j].mem)
  }

  /** Every response handled so far landed in its own request's slot. */
  ghost predicate FineMatched(r: FineRun, i: nat)
    requires i <= |r.steps| < |r.states|
  {
    forall j :: 0 <= j < i && r.steps[j].HandlerClears? ==> Matched(r.states[j].mem.ring, Handle)
  }

  /** Every interleaving of lock, scan, set, clear, unlock and the accesses of sends is matched by a
      run of SlotSends that reaches the same memory, and in which sends meet, or responses miss their
      slots, only if they do in the interleaving. */
  lemma {:induction false} Refines(c: Config, threads: nat, r: FineRun, i: nat) returns (b: SendRun)
    requires IsFineRun(c, threads, r) && i < |r.states|
    ensures IsSendRun(c, b) && b.states[|b.acts|] == r.states[i].mem && b.acts == Abstracted(r, i)
    ensures FineApart(r, i) ==> ApartBefore(b, |b.acts|)
    ensures FineMatched(r, i) ==> forall j :: 0 <= j < |b.acts| ==> HandlesOwn(b.states[j], b.acts[j])
    decreases i
  {
    hide SendApply, MemShape, SendEnabled, FineApply, FineEnabled, SendInit, Apart, HandlesOwn, LockInv;
    if i == 0 {
      b := SendRun([SendInit(c)], []);
    } else {
      var f, t, f' := r.states[i - 1], r.steps[i - 1], r.states[i];
      b := Refines(c, threads, r, i - 1);
      LockAlways(c, threads, r, i - 1);
      Simulates(c, f, t, f');
      match Abstract(f, t)
      case Some(a) =>
        HandlersAct(c, f, t, f', a);
        b := SendRun(b.states + [f'.mem], b.acts + [a]);
      case None =>
    }
  }

  lemma HandlersAct(c: Config, f: Fine, t: FineStep, f': Fine, a: Act)
    requires FineNext(c, f, t, f') && Abstract(f, t) == Some(a)
    ensures (t.HandlerClears? ==> Matched(f.mem.ring, Handle)) ==> HandlesOwn(f.mem, a)
  {
  }

  /** What does not depend on the words of a message holds under every interleaving, sends on a shared
      slot included: the flow-control bounds, and the ring a rotation of all buffers. */
  lemma FlowUnderLock(c: Config, threads: nat, r: FineRun, i: nat)
    requires IsFineRun(c, threads, r) && i < |r.states|
    ensures var s := r.states[i].mem.ring;
      && Core(c, s)
      && Unfinished(s) <= SetCount(s.bits) <= c.n
      && Unanswered(s) <= |s.posted| + InHand(s)
      && Ring(s) == Rotation(c.n, Reposts(s))
  {
    hide IsFineRun, IsSendRun;
    var b := Refines(c, threads, r, i);
    SendRunSizes(c, b);
    FlowHowever(c, b, |b.acts|);
  }

  lemma SendRunSizes(c: Config, b: SendRun)
    requires IsSendRun(c, b)
    ensures |b.states| == |b.acts| + 1
  {
  }

  /** Echo and numbering hold under every interleaving too if there is one buffer, or every response
      handled landed in its own request's slot, or otherwise no two sends were under way on one slot:
      the memory is then that of a run of SlotRing. */
  lemma EchoUnderLock(c: Config, threads: nat, r: FineRun, i: nat) returns (a: Run)
    requires IsFineRun(c, threads, r) && i < |r.states|
    requires c.n == 1 || FineMatched(r, i) || FineApart(r, i)
    ensures IsRun(c, a) && Last(a) == r.states[i].mem.ring && Inv(c, r.states[i].mem.ring)
  {
    hide FineNext, FineInit, IsSendRun, FineApart, FineMatched, ApartBefore, HandlesOwn, IsRun, Inv;
    var b := Refines(c, threads, r, i);
    SendRunSizes(c, b);
    if c.n == 1 {
      OneBufferApart(c, b);
      ApartSooner(b, |b.acts|);
    } else if FineMatched(r, i) {
      MatchedApart(c, b, |b.acts|);
    }
    a := MatchesRun(c, b, |b.acts|);
    RunStates(c, a);
    InvAlways(c, a, |a.steps|);
  }

  lemma ApartSooner(b: SendRun, i: nat)
    requires i <= |b.states| && ApartBefore(b, |b.states|)
    ensures ApartBefore(b, i)
  {
  }

  // ---------------------------------------------------------------- no stall, with the lock

  predicate HasRequest(pc: Pc, r: nat) {
    (pc.Marked? || pc.Owns?) && pc.req == r
  }

  /** The request has a slot and its thread has not returned from sending it. */
  predicate Waits(m: Mem, r: nat) {
    r < |m.ring.at| && m.ring.at[r].Taken? && r < |m.senders| && !HandedOver(m.senders[r])
  }

  /** Each request waiting to be sent belongs to exactly one thread. */
  ghost predicate OwnInv(f: Fine) {
    && (forall k :: 0 <= k < |f.pcs| && (f.pcs[k].Marked? || f.pcs[k].Owns?) ==> Waits(f.mem, f.pcs[k].req))
    && (forall k, k' :: 0 <= k < k' < |f.pcs| && (f.pcs[k].Marked? || f.pcs[k].Owns?) ==>
      !HasRequest(f.pcs[k'], f.pcs[k].req))
    && (forall r :: 0 <= r < |f.mem.ring.at| && Waits(f.mem, r) ==> Owned(f, r))
  }

  ghost predicate Owned(f: Fine, r: nat) {
    exists k :: 0 <= k < |f.pcs| && HasRequest(f.pcs[k], r)
  }

  /** Threads other than `k` keep what they have. */
  lemma OwnedStill(f: Fine, f': Fine, k: nat, r: nat)
    requires |f'.pcs| == |f.pcs| && forall j :: 0 <= j < |f.pcs| && j != k ==> f'.pcs[j] == f.pcs[j]
    requires k < |f.pcs| && (HasRequest(f.pcs[k], r) ==> HasRequest(f'.pcs[k], r))
    requires Owned(f, r)
    ensures Owned(f', r)
  {
    var j :| 0 <= j < |f.pcs| && HasRequest(f.pcs[j], r);
    assert HasRequest(f'.pcs[j], r);
  }

  lemma OwnKept(c: Config, f: Fine, t: FineStep, f': Fine)
    requires LockInv(c, f) && OwnInv(f) && FineNext(c, f, t, f')
    ensures OwnInv(f')
  {
    OwnersKept(c, f, t, f');
    OwnedKept(c, f, t, f');
    hide FineNext, LockInv, Waits;
  }

  /** Threads with a request still have one that waits, each its own. */
  lemma OwnersKept(c: Config, f: Fine, t: FineStep, f': Fine)
    requires LockInv(c, f) && OwnInv(f) && FineNext(c, f, t, f')
    ensures forall k :: 0 <= k < |f'.pcs| && (f'.pcs[k].Marked? || f'.pcs[k].Owns?) ==> Waits(f'.mem, f'.pcs[k].req)
    ensures forall k, k' :: 0 <= k < k' < |f'.pcs| && (f'.pcs[k].Marked? || f'.pcs[k].Owns?) ==>
      !HasRequest(f'.pcs[k'], f'.pcs[k].req)
  {
    hide SendApply, SendEnabled, Take, MemShape, LockInv, Abstract, Waits, Owned;
    WaitsFrame(c, f, t, f');
  }

  /** Requests that wait still have a thread. */
  lemma OwnedKept(c: Config, f: Fine, t: FineStep, f': Fine)
    requires LockInv(c, f) && OwnInv(f) && FineNext(c, f, t, f')
    ensures forall r :: 0 <= r < |f'.mem.ring.at| && Waits(f'.mem, r) ==> Owned(f', r)
  {
    hide SendApply, SendEnabled, Take, MemShape, LockInv, Abstract, Waits;
    WaitsFrame(c, f, t, f');
    if t.Network? || t.HandlerLocks? || t.HandlerClears? || t.HandlerUnlocks? || t.HandlerReposts? {
      assert forall r :: Owned(f, r) ==> Owned(f', r);
    } else {
      var k := t.t;
      forall r | 0 <= r < |f'.mem.ring.at| && Waits(f'.mem, r)
        ensures Owned(f', r)
      {
        if r == |f.mem.ring.at| {
          assert HasRequest(f'.pcs[k], r);
        } else {
          OwnedStill(f, f', k, r);
        }
      }
    }
  }

  /** Only setting a bit makes a request wait to be sent, and only its own post ends that. */
  lemma WaitsFrame(c: Config, f: Fine, t: FineStep, f': Fine)
    requires LockInv(c, f) && FineNext(c, f, t, f')
    ensures |f'.mem.ring.at| == |f.mem.ring.at| + (if t.SetBit? then 1 else 0)
    ensures t.SetBit? ==> Waits(f'.mem, |f.mem.ring.at|)
    ensures forall r: nat :: Waits(f.mem, r) ==> r < |f.mem.ring.at|
    ensures forall r :: 0 <= r < |f.mem.ring.at| ==>
      (Waits(f'.mem, r) <==> Waits(f.mem, r) && !(t.ThreadSends? && t.act.Post? && t.act.req == r))
  {
    hide SendApply, SendEnabled, MemShape, Waits, SeesRightly;
    Simulates(c, f, t, f');
    assert forall r: nat :: Waits(f.mem, r) ==> r < |f.mem.ring.at| by {
      WaitsExist(f.mem);
    }
    var a := Abstract(f, t);
    if a.Some? {
      MemWaits(c, f.mem, a.value, f'.mem);
    }
  }

  lemma WaitsExist(m: Mem)
    ensures forall r: nat :: Waits(m, r) ==> r < |m.ring.at|
  {
  }

  lemma MemWaits(c: Config, m: Mem, t: Act, m': Mem)
    requires SendNext(c, m, t, m') && MemInv(c, m)
    ensures |m'.ring.at| == |m.ring.at| + (if t == Other(Alloc) then 1 else 0)
    ensures t == Other(Alloc) ==> Waits(m', |m.ring.at|)
    ensures forall r :: 0 <= r < |m.ring.at| ==> (Waits(m', r) <==> Waits(m, r) && !(t.Post? && t.req == r))
  {
    hide Shape, Apply, Enabled, RingInv, CountInv, FlowInv, ChannelInv, ChannelWritten, GoBuf, GoCounter;
    match t
    case Other(s) => TakenStays(c, m.ring, s);
    case _ =>
  }

  lemma OwnInit(c: Config, threads: nat)
    requires Ok(c)
    ensures OwnInv(FineInit(c, threads))
  {
  }

  lemma {:induction false} OwnAlways(c: Config, threads: nat, r: FineRun, i: nat)
    requires IsFineRun(c, threads, r) && i < |r.states|
    ensures OwnInv(r.states[i])
    decreases i
  {
    hide FineNext, FineInit, OwnInv, LockInv;
    if i == 0 {
      OwnInit(c, threads);
    } else {
      OwnAlways(c, threads, r, i - 1);
      LockAlways(c, threads, r, i - 1);
      OwnKept(c, r.states[i - 1], r.steps[i - 1], r.states[i]);
    }
  }

  /** How many more steps the thread holding the lock takes before it lets go. */
  function HoldLeft(c: Config, f: Fine): nat {
    if !f.lock.Thread? || f.lock.t >= |f.pcs| then 0
    else
      match f.pcs[f.lock.t]
      case Scanning(i) => if i <= c.n then c.n - i + 3 else 3
      case Found(_) => 2
      case NotFound => 1
      case Marked(_) => 1
      case _ => 0
  }

  /** What a holder can do next. */
  function HolderStep(f: Fine): FineStep
    requires f.lock.Thread? && f.lock.t < |f.pcs|
  {
    match f.pcs[f.lock.t]
    case Scanning(_) => Scan(f.lock.t)
    case Found(_) => SetBit(f.lock.t)
    case _ => Release(f.lock.t)
  }

  /** A thread never waits inside the lock, and lets go after at most n + 3 of its own steps. */
  lemma HolderReleases(c: Config, threads: nat, r: FineRun, i: nat)
    requires IsFineRun(c, threads, r) && i < |r.states| && r.states[i].lock.Thread?
    ensures var f := r.states[i];
      && f.lock.t < |f.pcs| && MemShape(c, f.mem) && FineEnabled(c, f, HolderStep(f))
      && HoldLeft(c, FineApply(c, f, HolderStep(f))) < HoldLeft(c, f) <= c.n + 3
  {
    hide Shape;
    LockAlways(c, threads, r, i);
    assert SeesRightly(c, r.states[i].mem.ring.bits, r.states[i].pcs[r.states[i].lock.t]);
  }

  /** An act that brings an unfinished request nearer its end. */
  predicate Forward(a: Act) {
    a.Begin? || a.Go? || (a.Post? && a.ok) || a.DeviceReads? || (a.Other? && Progress(a.step))
  }

  /** A step that does, or passes the lock on to one. */
  predicate Essential(f: Fine, t: FineStep) {
    match Abstract(f, t)
    case Some(a) => Forward(a)
    case None => t.HandlerLocks? || t.HandlerUnlocks? || (t.Release? && t.t < |f.pcs| && f.pcs[t.t].Marked?)
  }

  /** What comes next for a request that has yet to leave. */
  function NextAct(c: Config, s: Sender, q: nat): Act {
    if s.Out? then Begin(q, 0, seq(c.size, _ => 0))
    else if HandedOver(s) then DeviceReads(q)
    else if Full(c, s) then Post(q, true)
    else Go(q)
  }

  /** While any request is unfinished some essential step is possible, unless the handler is waiting
      for a thread that holds the lock, which HolderReleases says it soon gives up. */
  lemma NoStallUnderLock(c: Config, threads: nat, r: FineRun, i: nat) returns (t: FineStep)
    requires IsFineRun(c, threads, r) && i < |r.states| && Unfinished(r.states[i].mem.ring) > 0
    ensures var f := r.states[i];
      MemShape(c, f.mem) && FineEnabled(c, f, t) &&
      (Essential(f, t) || (f.mem.ring.handler.Polled? && f.lock.Thread? && f.lock.t < |f.pcs| && t == HolderStep(f)))
  {
    hide SendApply, FineApply, IsFineRun, RingInv, CountInv, FlowInv, ChannelInv, ChannelWritten, Tally;
    var f := r.states[i];
    LockAlways(c, threads, r, i);
    OwnAlways(c, threads, r, i);
    RankPositive(f.mem.ring);
    var s := ProgressPossible(c, f.mem.ring);
    match s
    case Handle =>
      if f.hpc.Locked? {
        t := HandlerClears;
      } else if f.lock.Thread? {
        HolderReleases(c, threads, r, i);
        t := HolderStep(f);
      } else {
        t := HandlerLocks;
      }
    case Repost =>
      t := if f.hpc.Cleared? then HandlerUnlocks else HandlerReposts;
    case Send(q, _, _) =>
      t := SenderStep(c, f, q);
    case _ =>
      t := Network(Other(s));
  }

  lemma SenderStep(c: Config, f: Fine, q: nat) returns (t: FineStep)
    requires LockInv(c, f) && OwnInv(f) && q < |f.mem.ring.at| && f.mem.ring.at[q].Taken?
    ensures FineEnabled(c, f, t) && Essential(f, t)
  {
    hide Core, ChannelWritten, SeesRightly;
    var a := NextAct(c, f.mem.senders[q], q);
    if HandedOver(f.mem.senders[q]) {
      t := Network(a);
    } else {
      assert Waits(f.mem, q);
      var k :| 0 <= k < |f.pcs| && HasRequest(f.pcs[k], q);
      t := if f.pcs[k].Marked? then Release(k) else ThreadSends(k, a);
    }
  }

  lemma RankPositive(s: State)
    requires Unfinished(s) > 0
    ensures Rank(s) > 0
  {
    RankBound(s.at);
  }

  // ---------------------------------------------------------------- draining, with the lock

  function LastFine(r: FineRun): Fine
    requires r.states != []
  {
    r.states[|r.states| - 1]
  }

  /** What the lock's holder still has to do; setting a bit is charged with the request it makes: its
      send, and three fine steps for each of its six. */
  function HoldWork(c: Config, f: Fine): nat {
    if !f.lock.Thread? || f.lock.t >= |f.pcs| then 0
    else
      match f.pcs[f.lock.t]
      case Scanning(i) => if i <= c.n then c.n - i + c.size + 28 else c.size + 28
      case Found(_) => c.size + 27
      case NotFound => 1
      case Marked(_) => 1
      case _ => 0
  }

  function HandlerWork(h: HandlerPc): nat {
    match h
    case Unlocked => 1
    case Locked => 0
    case Cleared => 2
  }

  /** What is left of sends under way or to come. */
  function SendWork(c: Config, at: seq<Loc>, senders: seq<Sender>): nat
    requires |at| == |senders|
  {
    if at == [] then 0
    else
      var k := |at| - 1;
      (if at[k].Taken? then AccessesLeft(c, senders[k]) else 0) + SendWork(c, at[..k], senders[..k])
  }

  lemma {:induction false} SendWorkUpdate(c: Config, at: seq<Loc>, senders: seq<Sender>, k: nat, l: Loc, s: Sender)
    requires |at| == |senders| && k < |at|
    ensures SendWork(c, at[k := l], senders[k := s]) + (if at[k].Taken? then AccessesLeft(c, senders[k]) else 0)
         == SendWork(c, at, senders) + (if l.Taken? then AccessesLeft(c, s) else 0)
  {
    hide AccessesLeft;
    var j := |at| - 1;
    if k == j {
      assert at[k := l][..j] == at[..j] && senders[k := s][..j] == senders[..j];
    } else {
      assert at[k := l][..j] == at[..j][k := l] && senders[k := s][..j] == senders[..j][k := s];
      SendWorkUpdate(c, at[..j], senders[..j], k, l, s);
    }
  }

  lemma {:induction false} SendWorkSame(c: Config, at: seq<Loc>, at': seq<Loc>, senders: seq<Sender>)
    requires |at| == |at'| == |senders| && forall k :: 0 <= k < |at| ==> (at[k].Taken? <==> at'[k].Taken?)
    ensures SendWork(c, at, senders) == SendWork(c, at', senders)
  {
    hide AccessesLeft;
    if at != [] {
      var k := |at| - 1;
      SendWorkSame(c, at[..k], at'[..k], senders[..k]);
    }
  }

  lemma {:induction false} SendWorkBound(c: Config, at: seq<Loc>, senders: seq<Sender>)
    requires |at| == |senders|
    ensures SendWork(c, at, senders) <= (c.size + 7) * Tally(at, UNFINISHED)
  {
    if at != [] {
      var k := |at| - 1;
      SendWorkBound(c, at[..k], senders[..k]);
      var m, t := c.size + 7, Tally(at[..k], UNFINISHED);
      assert m * (t + 1) == m * t + m;
    }
  }

  function Work(c: Config, f: Fine): nat
    requires |f.mem.ring.at| == |f.mem.senders|
  {
    3 * Rank(f.mem.ring) + SendWork(c, f.mem.ring.at, f.mem.senders) + HandlerWork(f.hpc) + HoldWork(c, f)
  }

  /** The steps a drain is made of: no thread comes in, no send fails, nobody starts a retry. */
  ghost predicate Draining(f: Fine, t: FineStep) {
    Essential(f, t) || (f.lock.Thread? && f.lock.t < |f.pcs| && t == HolderStep(f))
  }

  /** How an act changes the protocol's own rank, and the work left in sends. */
  function RankChange(t: Option<Act>): int {
    match t
    case None => 0
    case Some(a) =>
      if a == Other(Alloc) then 6
      else if a.DeviceReads? || (a.Other? && Progress(a.step)) then -1
      else 0
  }

  function SendChange(c: Config, t: Option<Act>): int {
    match t
    case None => 0
    case Some(a) =>
      if a == Other(Alloc) then c.size + 7 else if a.Begin? || a.Go? || a.Post? then -1 else 0
  }

  lemma SendWorkStep(c: Config, m: Mem, t: Act, m': Mem)
    requires MemInv(c, m) && SendNext(c, m, t, m') && (Forward(t) || t == Other(Alloc) || t == Other(Spin))
    ensures |m'.ring.at| == |m'.senders|
    ensures SendWork(c, m'.ring.at, m'.senders) == SendWork(c, m.ring.at, m.senders) + SendChange(c, Some(t))
  {
    hide Shape, Apply, Enabled, RingInv, CountInv, FlowInv, ChannelInv, ChannelWritten, GoBuf, GoCounter, SendWork;
    match t
    case Other(s) =>
      TakenStays(c, m.ring, s);
      if s.Alloc? {
        SendWorkPush(c, m.ring.at, m'.ring.at, m.senders);
      } else {
        SendWorkSame(c, m.ring.at, m'.ring.at, m.senders);
      }
    case Begin(q, _, _) => SenderMoves(c, m.ring.at, m.senders, q, m'.senders[q]);
    case Go(q) =>
      GoCounts(c, m.senders[q], m.counter[m.ring.slotOf[q]]);
      SenderMoves(c, m.ring.at, m.senders, q, m'.senders[q]);
    case Post(q, _) => SenderMoves(c, m.ring.at, m.senders, q, m'.senders[q]);
    case DeviceReads(q) => SendWorkUpdate(c, m.ring.at, m.senders, q, m'.ring.at[q], m'.senders[q]);
  }

  lemma SenderMoves(c: Config, at: seq<Loc>, senders: seq<Sender>, q: nat, s: Sender)
    requires |at| == |senders| && q < |at| && at[q].Taken? && AccessesLeft(c, s) == AccessesLeft(c, senders[q]) - 1
    ensures SendWork(c, at, senders[q := s]) == SendWork(c, at, senders) - 1
  {
    assert at[q := at[q]] == at;
    SendWorkUpdate(c, at, senders, q, at[q], s);
  }

  lemma GoCounts(c: Config, s: Sender, counter: u64)
    requires s.Inside? && !Full(c, s) && !HandedOver(s) && (s.phase.Copying? ==> s.phase.i <= c.size)
    ensures AccessesLeft(c, GoSender(c, s, counter)) == AccessesLeft(c, s) - 1
  {
  }

  lemma SendWorkPush(c: Config, at: seq<Loc>, at': seq<Loc>, senders: seq<Sender>)
    requires |at| == |senders| && |at'| == |at| + 1 && at'[|at|].Taken?
    requires forall k :: 0 <= k < |at| ==> (at[k].Taken? <==> at'[k].Taken?)
    ensures SendWork(c, at', senders + [Out]) == SendWork(c, at, senders) + c.size + 7
  {
    assert (senders + [Out])[..|at|] == senders;
    SendWorkSame(c, at, at'[..|at|], senders);
  }

  lemma ActRank(c: Config, m: Mem, t: Act, m': Mem)
    requires MemInv(c, m) && SendNext(c, m, t, m') && (Forward(t) || t == Other(Alloc) || t == Other(Spin))
    ensures Rank(m'.ring) == Rank(m.ring) + RankChange(Some(t)) && LostSends(m'.ring) == LostSends(m.ring)
  {
    hide Shape, Apply, Enabled, ChannelWritten, GoBuf, GoCounter, Core, Tally, RankChange, Rank;
    match t
    case Other(s) => OtherRank(c, m.ring, s, m'.ring);
    case DeviceReads(q) => ReadRank(c, m, q, m');
    case _ =>
      assert m'.ring == m.ring;
      assert RankChange(Some(t)) == 0 by {
        NoRankChange(t);
      }
  }

  lemma NoRankChange(t: Act)
    requires t.Begin? || t.Go? || t.Post?
    ensures RankChange(Some(t)) == 0
  {
  }

  lemma ReadRank(c: Config, m: Mem, q: nat, m': Mem)
    requires MemShape(c, m) && SendNext(c, m, DeviceReads(q), m')
    ensures Rank(m'.ring) == Rank(m.ring) + RankChange(Some(DeviceReads(q))) && LostSends(m'.ring) == LostSends(m.ring)
  {
    TallyUpdate(m.ring.at, q, m'.ring.at[q], RANK);
    TallyUpdate(m.ring.at, q, m'.ring.at[q], LOST);
  }

  lemma OtherRank(c: Config, s: State, t: Step, s': State)
    requires Core(c, s) && Next(c, s, t, s') && (Progress(t) || t.Alloc? || t.Spin?)
    ensures Rank(s') == Rank(s) + RankChange(Some(Other(t))) && LostSends(s') == LostSends(s)
  {
    match t
    case Alloc =>
      TallyPush(s.at, Taken, RANK);
      TallyPush(s.at, Taken, LOST);
    case Spin =>
    case _ =>
      hide Rank, Next, Core;
      OneStep(c, s, t, s');
  }

  lemma MemWork(c: Config, f: Fine, t: FineStep, f': Fine)
    requires LockInv(c, f) && FineNext(c, f, t, f') && Draining(f, t)
    ensures |f.mem.ring.at| == |f.mem.senders| && |f'.mem.ring.at| == |f'.mem.senders|
    ensures Rank(f'.mem.ring) == Rank(f.mem.ring) + RankChange(Abstract(f, t))
    ensures SendWork(c, f'.mem.ring.at, f'.mem.senders)
         == SendWork(c, f.mem.ring.at, f.mem.senders) + SendChange(c, Abstract(f, t))
    ensures LostSends(f'.mem.ring) == LostSends(f.mem.ring)
  {
    hide SendApply, SendEnabled, Core, ChannelWritten, SeesRightly, Rank, RankChange, SendChange, SendWork;
    Simulates(c, f, t, f');
    match Abstract(f, t)
    case None =>
      NoneChanges(c);
    case Some(a) =>
      ActRank(c, f.mem, a, f'.mem);
      SendWorkStep(c, f.mem, a, f'.mem);
  }

  lemma NoneChanges(c: Config)
    ensures RankChange(None) == 0 && SendChange(c, None) == 0
  {
  }

  lemma HoldFalls(c: Config, f: Fine, t: FineStep, f': Fine)
    requires LockInv(c, f) && FineNext(c, f, t, f')
    requires f.lock.Thread? && f.lock.t < |f.pcs| && t == HolderStep(f)
    ensures HoldWork(c, f') + 3 * RankChange(Abstract(f, t)) + SendChange(c, Abstract(f, t)) < HoldWork(c, f)
    ensures f'.hpc == f.hpc
  {
    hide SendApply, SendEnabled, Core, ChannelWritten, FirstClear;
    assert SeesRightly(c, f.mem.ring.bits, f.pcs[f.lock.t]);
  }

  lemma OthersFall(c: Config, f: Fine, t: FineStep, f': Fine)
    requires LockInv(c, f) && FineNext(c, f, t, f') && Essential(f, t)
    requires !(f.lock.Thread? && f.lock.t < |f.pcs| && t == HolderStep(f))
    ensures HandlerWork(f'.hpc) + HoldWork(c, f') + 3 * RankChange(Abstract(f, t)) + SendChange(c, Abstract(f, t))
          < HandlerWork(f.hpc) + HoldWork(c, f)
  {
    hide SendApply, SendEnabled, Core, ChannelWritten, FirstClear, SeesRightly;
  }

  /** Every draining step leaves less to do. */
  lemma WorkFalls(c: Config, f: Fine, t: FineStep, f': Fine)
    requires LockInv(c, f) && FineNext(c, f, t, f') && Draining(f, t)
    ensures |f.mem.ring.at| == |f.mem.senders| && |f'.mem.ring.at| == |f'.mem.senders|
    ensures Work(c, f') < Work(c, f)
  {
    MemWork(c, f, t, f');
    hide FineNext, LockInv, Rank, RankChange, SendChange, SendWork, HandlerWork, HoldWork, HolderStep, Essential;
    if f.lock.Thread? && f.lock.t < |f.pcs| && t == HolderStep(f) {
      HoldFalls(c, f, t, f');
    } else {
      OthersFall(c, f, t, f');
    }
  }

  /** The fine run with one more step. */
  lemma ExtendFine(c: Config, threads: nat, r: FineRun, t: FineStep) returns (r': FineRun)
    requires IsFineRun(c, threads, r) && MemShape(c, LastFine(r).mem) && FineEnabled(c, LastFine(r), t)
    ensures IsFineRun(c, threads, r') && r'.steps == r.steps + [t] && r.states <= r'.states
    ensures FineNext(c, LastFine(r), t, LastFine(r'))
  {
    hide MemShape, FineEnabled, FineApply, FineInit;
    r' := FineRun(r.states + [FineApply(c, LastFine(r), t)], r.steps + [t]);
    forall i | 0 <= i < |r'.steps|
      ensures FineNext(c, r'.states[i], r'.steps[i], r'.states[i + 1])
    {
      if i < |r.steps| {
        assert FineNext(c, r.states[i], r.steps[i], r.states[i + 1]);
      }
    }
  }

  lemma LockWorkBound(c: Config, f: Fine)
    ensures HandlerWork(f.hpc) + HoldWork(c, f) <= c.n + c.size + 30
  {
  }

  lemma MulMonotone(k: nat, a: nat, b: nat)
    requires a <= b
    ensures k * a <= k * b
  {
  }

  /** For each of at most n requests its send's accesses and 18 steps more, and what has been begun under
      the lock. */
  function DrainBound(c: Config): nat {
    (c.size + 7) * c.n + 19 * c.n + c.size + 33
  }

  lemma WorkBound(c: Config, threads: nat, r: FineRun, i: nat)
    requires IsFineRun(c, threads, r) && i < |r.states|
    ensures var f := r.states[i];
      && |f.mem.ring.at| == |f.mem.senders| && Work(c, f) <= DrainBound(c)
      && (LostSends(f.mem.ring) == 0 && Unfinished(f.mem.ring) == 0 ==> FirstClear(f.mem.ring.bits) < c.n)
  {
    hide IsFineRun, Core, ChannelWritten, Ring, Rotation, Reposts, HandlerWork, HoldWork, FirstClear, SetCount,
      Tally, SendWork, SeesRightly;
    var f := r.states[i];
    LockAlways(c, threads, r, i);
    FlowUnderLock(c, threads, r, i);
    RankBound(f.mem.ring.at);
    SendWorkBound(c, f.mem.ring.at, f.mem.senders);
    MulMonotone(c.size + 7, Unfinished(f.mem.ring), c.n);
    LockWorkBound(c, f);
    FlowAtRest(c, f.mem.ring);
  }

  lemma DrainingStep(c: Config, threads: nat, r: FineRun) returns (t: FineStep)
    requires IsFineRun(c, threads, r) && Unfinished(LastFine(r).mem.ring) > 0
    ensures MemShape(c, LastFine(r).mem) && FineEnabled(c, LastFine(r), t) && Draining(LastFine(r), t)
  {
    hide FineNext, FineInit, MemShape, FineEnabled, Essential, Tally;
    t := NoStallUnderLock(c, threads, r, |r.steps|);
  }

  lemma WorkDefined(c: Config, threads: nat, r: FineRun)
    requires IsFineRun(c, threads, r)
    ensures |LastFine(r).mem.ring.at| == |LastFine(r).mem.senders|
  {
    LockAlways(c, threads, r, |r.steps|);
  }

  /** Whatever the interleaving so far, lock, sends and all: within DrainBound further steps, none of them
      a new request, a retry's acquiring or a failed send, every unfinished request can be finished; and
      then, unless a send was lost, a bit is clear. */
  lemma {:induction false} DrainsUnderLock(c: Config, threads: nat, r: FineRun) returns (r': FineRun)
    requires IsFineRun(c, threads, r)
    ensures IsFineRun(c, threads, r') && r.steps <= r'.steps && r.states <= r'.states
    ensures |r'.steps| - |r.steps| <= (c.size + 7) * c.n + 19 * c.n + c.size + 33
    ensures forall k :: |r.steps| <= k < |r'.steps| ==> Draining(r'.states[k], r'.steps[k])
    ensures forall k :: |r.steps| <= k < |r'.steps| ==>
      var t := r'.steps[k]; !t.Enter? && !t.Acquire? && !(t.ThreadSends? && t.act.Post? && !t.act.ok)
    ensures Unfinished(LastFine(r').mem.ring) == 0 && LostSends(LastFine(r').mem.ring) == LostSends(LastFine(r).mem.ring)
    ensures LostSends(LastFine(r).mem.ring) == 0 ==> FirstClear(LastFine(r').mem.ring.bits) < c.n
  {
    hide FineNext, FineInit, Draining, Tally, FirstClear, Work;
    DrainingKinds();
    WorkDefined(c, threads, r);
    WorkBound(c, threads, r, |r.steps|);
    r' := DrainsWithin(c, threads, r, Work(c, LastFine(r)));
  }

  lemma DrainingKinds()
    ensures forall f, t :: Draining(f, t) ==> !t.Enter? && !t.Acquire? && !(t.ThreadSends? && t.act.Post? && !t.act.ok)
  {
  }

  lemma {:induction false} DrainsWithin(c: Config, threads: nat, r: FineRun, w: nat) returns (r': FineRun)
    requires IsFineRun(c, threads, r)
    requires |LastFine(r).mem.ring.at| == |LastFine(r).mem.senders| && Work(c, LastFine(r)) <= w
    ensures IsFineRun(c, threads, r') && r.steps <= r'.steps && r.states <= r'.states
    ensures |r'.steps| - |r.steps| <= w
    ensures forall k :: |r.steps| <= k < |r'.steps| ==> Draining(r'.states[k], r'.steps[k])
    ensures Unfinished(LastFine(r').mem.ring) == 0 && LostSends(LastFine(r').mem.ring) == LostSends(LastFine(r).mem.ring)
    ensures LostSends(LastFine(r).mem.ring) == 0 ==> FirstClear(LastFine(r').mem.ring.bits) < c.n
    decreases w
  {
    hide FineNext, FineInit, MemShape, FineEnabled, Work, Draining, Essential, LockInv, Tally, FirstClear;
    var f := LastFine(r);
    WorkBound(c, threads, r, |r.steps|);
    if Unfinished(f.mem.ring) == 0 {
      r' := r;
    } else {
      var t := DrainingStep(c, threads, r);
      var r1 := ExtendFine(c, threads, r, t);
      LockAlways(c, threads, r, |r.steps|);
      WorkFalls(c, f, t, LastFine(r1));
      MemWork(c, f, t, LastFine(r1));
      r' := DrainsWithin(c, threads, r1, w - 1);
      assert r1.steps[|r.steps|] == t && r1.states[|r.steps|] == f;
    }
  }
}
