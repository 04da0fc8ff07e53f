/** The other direction of LockedRing's refinement: with a thread for each request, every run of SlotSends
    is an interleaving of accesses under the lock, so what can go wrong there can go wrong in the code. */
module LockedWitness {
  import opened Bitmap
  import opened Codec
  import opened Options
  import opened SlotRing
  import opened SlotInvariants
  import opened SlotTheorems
  import opened SlotReuse
  import opened SlotSends
  import opened SendWitness
  import opened LockedRing

  /** Nobody is at the lock; thread k is sending request k, or outside. */
  ghost predicate AtRest(f: Fine, threads: nat) {
    && f.lock.Nobody? && f.hpc.Unlocked? && |f.pcs| == threads
    && forall k :: 0 <= k < threads ==> f.pcs[k] == if Waits(f.mem, k) then Owns(k) else Outside
  }

  lemma FineShape(c: Config, threads: nat, r: FineRun)
    requires IsFineRun(c, threads, r)
    ensures MemInv(c, LastFine(r).mem) && MemShape(c, LastFine(r).mem)
  {
    LockAlways(c, threads, r, |r.steps|);
  }

  /** Thread `t` looks at the bits up to the lowest clear one. */
  lemma {:induction false} ScanTo(c: Config, threads: nat, r: FineRun, t: nat, i: nat) returns (r': FineRun)
    requires IsFineRun(c, threads, r) && t < |LastFine(r).pcs| && LastFine(r).pcs[t] == Scanning(i)
    requires i <= FirstClear(LastFine(r).mem.ring.bits) < c.n == |LastFine(r).mem.ring.bits|
    ensures IsFineRun(c, threads, r')
    ensures var f := LastFine(r); LastFine(r') == f.(pcs := f.pcs[t := Found(FirstClear(f.mem.ring.bits))])
    decreases c.n - i
  {
    hide MemShape, MemInv, FineNext, FineInit;
    FineShape(c, threads, r);
    var f := LastFine(r);
    var r1 := ExtendFine(c, threads, r, Scan(t));
    ScanEffect(c, f, t, LastFine(r1));
    if f.mem.ring.bits[i] {
      r' := ScanTo(c, threads, r1, t, i + 1);
      assert f.pcs[t := Scanning(i + 1)][t := Found(FirstClear(f.mem.ring.bits))]
          == f.pcs[t := Found(FirstClear(f.mem.ring.bits))];
    } else {
      r' := r1;
    }
  }

  lemma ScanEffect(c: Config, f: Fine, t: nat, f': Fine)
    requires FineNext(c, f, Scan(t), f') && f.pcs[t].i < c.n
    ensures var i := f.pcs[t].i;
      f' == f.(pcs := f.pcs[t := if f.mem.ring.bits[i] then Scanning(i + 1) else Found(i)])
  {
  }

  /** One requester, from outside to having a slot. */
  lemma TakeSlot(c: Config, threads: nat, r: FineRun) returns (r': FineRun)
    requires IsFineRun(c, threads, r) && AtRest(LastFine(r), threads) && |LastFine(r).mem.ring.at| < threads
    requires MemShape(c, LastFine(r).mem) && SendEnabled(c, LastFine(r).mem, Other(Alloc))
    ensures IsFineRun(c, threads, r') && AtRest(LastFine(r'), threads)
    ensures LastFine(r').mem == SendApply(c, LastFine(r).mem, Other(Alloc))
  {
    hide MemInv, FineInit, Shape, FineNext;
    var f := LastFine(r);
    var t := |f.mem.ring.at|;
    assert !Waits(f.mem, t);
    var r1 := ExtendFine(c, threads, r, Enter(t));
    StepEffect(c, f, Enter(t), LastFine(r1));
    FineShape(c, threads, r1);
    var r2 := ExtendFine(c, threads, r1, Acquire(t));
    StepEffect(c, LastFine(r1), Acquire(t), LastFine(r2));
    BitsCount(c, f.mem);
    var r3 := ScanTo(c, threads, r2, t, 0);
    FineShape(c, threads, r3);
    var r4 := ExtendFine(c, threads, r3, SetBit(t));
    StepEffect(c, LastFine(r3), SetBit(t), LastFine(r4));
    FineShape(c, threads, r4);
    r' := ExtendFine(c, threads, r4, Release(t));
    StepEffect(c, LastFine(r4), Release(t), LastFine(r'));
    AllocWaits(c, f.mem);
  }

  lemma StepEffect(c: Config, f: Fine, t: FineStep, f': Fine)
    requires FineNext(c, f, t, f')
    ensures MemShape(c, f.mem) && FineEnabled(c, f, t) && f' == FineApply(c, f, t)
  {
  }

  lemma BitsCount(c: Config, m: Mem)
    requires MemShape(c, m)
    ensures |m.ring.bits| == c.n
  {
  }

  lemma AllocWaits(c: Config, m: Mem)
    requires MemShape(c, m) && SendEnabled(c, m, Other(Alloc))
    ensures var m' := SendApply(c, m, Other(Alloc));
      && m' == m.(ring := Take(m.ring, FirstClear(m.ring.bits)), senders := m.senders + [Out])
      && forall k: nat :: Waits(m', k) <==> Waits(m, k) || k == |m.ring.at|
  {
    hide FirstClear;
  }

  /** The handler clears a bit under the lock. */
  lemma ClearUnderLock(c: Config, threads: nat, r: FineRun) returns (r': FineRun)
    requires IsFineRun(c, threads, r) && AtRest(LastFine(r), threads)
    requires MemShape(c, LastFine(r).mem) && SendEnabled(c, LastFine(r).mem, Other(Handle))
    ensures IsFineRun(c, threads, r')
    ensures LastFine(r') == LastFine(r).(mem := SendApply(c, LastFine(r).mem, Other(Handle)))
  {
    hide MemInv, FineInit, MemShape, FineNext, SendApply;
    var f := LastFine(r);
    var r1 := ExtendFine(c, threads, r, HandlerLocks);
    StepEffect(c, f, HandlerLocks, LastFine(r1));
    FineShape(c, threads, r1);
    var r2 := ExtendFine(c, threads, r1, HandlerClears);
    StepEffect(c, LastFine(r1), HandlerClears, LastFine(r2));
    FineShape(c, threads, r2);
    r' := ExtendFine(c, threads, r2, HandlerUnlocks);
    StepEffect(c, LastFine(r2), HandlerUnlocks, LastFine(r'));
  }

  /** The fine step that is this act, for all but Alloc, Spin and Handle. */
  function StepFor(a: Act): FineStep
    requires !(a.Other? && (a.step.Alloc? || a.step.Spin? || a.step.Handle?))
  {
    match a
    case Begin(q, _, _) => ThreadSends(q, a)
    case Go(q) => ThreadSends(q, a)
    case Post(q, _) => ThreadSends(q, a)
    case DeviceReads(_) => Network(a)
    case Other(s) => if s.Repost? then HandlerReposts else Network(a)
  }

  lemma OneFine(c: Config, threads: nat, r: FineRun, a: Act) returns (r': FineRun)
    requires IsFineRun(c, threads, r) && AtRest(LastFine(r), threads) && |LastFine(r).mem.ring.at| <= threads
    requires MemShape(c, LastFine(r).mem) && SendEnabled(c, LastFine(r).mem, a)
    requires !(a.Other? && (a.step.Alloc? || a.step.Spin? || a.step.Handle?))
    ensures IsFineRun(c, threads, r') && AtRest(LastFine(r'), threads)
    ensures LastFine(r').mem == SendApply(c, LastFine(r).mem, a)
  {
    hide MemInv, FineInit, Shape, Apply, FineNext, GoBuf, GoCounter, GoSender, FirstClear;
    var f := LastFine(r);
    FineShape(c, threads, r);
    if a.Begin? || a.Go? || a.Post? {
      assert Waits(f.mem, a.req);
    }
    r' := ExtendFine(c, threads, r, StepFor(a));
    StepEffect(c, f, StepFor(a), LastFine(r'));
    MemWaits(c, f.mem, a, LastFine(r').mem);
    hide Waits;
    assert forall k: nat :: k >= |f.mem.ring.at| ==> !Waits(f.mem, k) && !Waits(LastFine(r').mem, k) by {
      WaitsExist(f.mem);
      WaitsExist(LastFine(r').mem);
    }
  }

  lemma AfterHandle(c: Config, f: Fine, f': Fine, threads: nat)
    requires MemInv(c, f.mem) && SendEnabled(c, f.mem, Other(Handle)) && AtRest(f, threads)
    requires f' == f.(mem := SendApply(c, f.mem, Other(Handle)))
    ensures AtRest(f', threads)
  {
    hide Apply, Enabled, Shape, Waits;
    MemWaits(c, f.mem, Other(Handle), f'.mem);
    WaitsExist(f.mem);
    WaitsExist(f'.mem);
  }

  lemma RealizeStep(c: Config, threads: nat, r: FineRun, a: Act, m': Mem) returns (r': FineRun)
    requires IsFineRun(c, threads, r) && AtRest(LastFine(r), threads)
    requires SendNext(c, LastFine(r).mem, a, m') && |m'.ring.at| <= threads
    ensures IsFineRun(c, threads, r') && AtRest(LastFine(r'), threads) && LastFine(r').mem == m'
  {
    hide MemShape, FineNext, FineInit, SendEnabled, SendApply, AtRest, MemInv;
    FineShape(c, threads, r);
    MemWaits(c, LastFine(r).mem, a, m');
    if a == Other(Alloc) {
      r' := TakeSlot(c, threads, r);
    } else if a == Other(Handle) {
      r' := ClearUnderLock(c, threads, r);
      AfterHandle(c, LastFine(r), LastFine(r'), threads);
    } else if a == Other(Spin) {
      SpinStays(c, LastFine(r).mem, m');
      r' := r;
    } else {
      r' := OneFine(c, threads, r, a);
    }
  }

  lemma SpinStays(c: Config, m: Mem, m': Mem)
    requires SendNext(c, m, Other(Spin), m')
    ensures m' == m
  {
  }

  lemma RestInit(c: Config, threads: nat)
    ensures AtRest(FineInit(c, threads), threads)
  {
  }

  /** Every run of SlotSends is reached by an interleaving of as many threads as it has requests. */
  lemma {:induction false} Realizes(c: Config, threads: nat, b: SendRun, i: nat) returns (r: FineRun)
    requires IsSendRun(c, b) && i < |b.states| && |b.states[i].ring.at| <= threads
    ensures IsFineRun(c, threads, r) && AtRest(LastFine(r), threads) && LastFine(r).mem == b.states[i]
    decreases i
  {
    hide SendNext, SendInit, FineNext, AtRest, MemInv;
    if i == 0 {
      r := FineRun([FineInit(c, threads)], []);
      RestInit(c, threads);
      assert FineInit(c, threads).mem == SendInit(c);
    } else {
      MemAlways(c, b, i - 1);
      MemWaits(c, b.states[i - 1], b.acts[i - 1], b.states[i]);
      var r0 := Realizes(c, threads, b, i - 1);
      r := RealizeStep(c, threads, r0, b.acts[i - 1], b.states[i]);
    }
  }

  /** So with two buffers or more, under the code's own locking, a response can be dispatched to the
      wait queue of another request, which has been sent from the same slot with the same number. */
  lemma RaceUnderLock(c: Config) returns (threads: nat, r: FineRun, k: nat)
    requires Ok(c) && c.n >= 2
    ensures IsFineRun(c, threads, r)
    ensures var s := LastFine(r).mem.ring;
      && 1 < k < |s.hdr| == |s.slotOf| && s.slotOf[1] == s.slotOf[k] && s.log != []
      && s.hdr[1].seqn == s.hdr[k].seqn
      && var d := s.log[|s.log| - 1];
        d.req == 1 && d.hdr.sem == s.hdr[k].sem != s.hdr[1].sem
  {
    hide SendNext, SendInit, FineNext, FineInit, AtRest, NoRefusal, OwnMessage;
    var b, j;
    b, k, j := SendsRace(c);
    threads := |LastMem(b).ring.at|;
    r := Realizes(c, threads, b, |b.acts|);
  }
}
