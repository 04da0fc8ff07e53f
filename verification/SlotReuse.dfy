/** Which slot a request gets and which bit its response clears.

    rdma.c:805 says a message buffer stays allocated until its response arrives.  The code clears
    the bit of the buffer the response landed in, so this holds exactly when the two agree; here is
    when they do, when they do not, and what then happens. */
module SlotReuse {
  import opened Bitmap
  import opened Codec
  import opened SlotRing
  import opened SlotInvariants
  import opened SlotTheorems

  // ---------------------------------------------------------------- one request at a time

  /** A client that asks for a slot only when nothing of its own is unfinished, and whose sends succeed. */
  ghost predicate OneAtATime(r: Run)
    requires |r.states| == |r.steps| + 1
  {
    forall i :: 0 <= i < |r.steps| ==>
      !r.steps[i].SendFails? && (r.steps[i].Alloc? ==> Unfinished(r.states[i]) == 0)
  }

  /** Whether bit `j` is set once responses 0..k have been handled. */
  predicate SetAfter(n: nat, k: nat, j: nat)
    requires n >= 1
  {
    if k < n then j < k else j != k % n
  }

  /** Whether bit `j` is set when `asked` requests have got a slot and `handled` have finished. */
  predicate ClosedBit(n: nat, asked: nat, handled: nat, j: nat)
    requires n >= 1
  {
    || (handled > 0 && SetAfter(n, handled - 1, j))
    || (asked > handled && j == ClosedSlot(n, handled))
  }

  function ClosedSlot(n: nat, k: nat): nat
    requires n >= 1
  {
    if k == 0 then 0 else (k - 1) % n
  }

  ghost predicate ClosedForm(c: Config, s: State) {
    && Ok(c) && |s.bits| == c.n && |s.slotOf| == |s.at|
    && |s.log| <= |s.at| <= |s.log| + 1
    && (forall k :: 0 <= k < |s.log| ==> s.at[k].Done?)
    && (forall k :: 0 <= k < |s.at| ==> s.slotOf[k] == ClosedSlot(c.n, k))
    && (forall j :: 0 <= j < c.n ==> (s.bits[j] <==> ClosedBit(c.n, |s.at|, |s.log|, j)))
  }

  /** The slot the next request takes. */
  lemma NextSlot(c: Config, s: State)
    requires ClosedForm(c, s) && |s.at| == |s.log|
    ensures FirstClear(s.bits) == ClosedSlot(c.n, |s.at|) < c.n
  {
    if |s.log| > 0 && |s.log| - 1 < c.n {
      SmallMod(|s.log| - 1, c.n);
    }
    FirstClearIsLeast(s.bits, ClosedSlot(c.n, |s.at|));
  }

  lemma SmallMod(k: nat, n: nat)
    requires k < n
    ensures k % n == k
  {
  }

  /** Bit k mod n is the one the k-th response clears. */
  lemma BitsAfterHandling(n: nat, k: nat, j: nat)
    requires n >= 1 && j < n
    ensures SetAfter(n, k, j) <==> ClosedBit(n, k + 1, k, j) && j != k % n
  {
    if k == 0 {
      SmallMod(0, n);
    } else if k < n {
      SmallMod(k - 1, n);
      SmallMod(k, n);
    } else if k == n {
      SmallMod(k - 1, n);
    }
  }

  lemma ClosedFormKept(c: Config, s: State, t: Step, s': State)
    requires Inv(c, s) && ClosedForm(c, s) && LostSends(s) == 0 && Next(c, s, t, s')
    requires !t.SendFails? && (t.Alloc? ==> Unfinished(s) == 0)
    ensures ClosedForm(c, s') && LostSends(s') == 0
  {
    hide Apply, Enabled, Counted, SeqnInv, EchoInv, RingInv, FlowInv, ClosedBit, ClosedSlot;
    TallyStep(c, s, t, s');
    match t
    case Alloc => ClosedFormAlloc(c, s, s');
    case Handle => ClosedFormHandle(c, s, s');
    case _ => DoneKept(c, s, t, s');
  }

  lemma ClosedFormAlloc(c: Config, s: State, s': State)
    requires Inv(c, s) && ClosedForm(c, s) && LostSends(s) == 0 && Unfinished(s) == 0 && Next(c, s, Alloc, s')
    ensures ClosedForm(c, s')
  {
    hide Counted, SeqnInv, EchoInv, RingInv, FlowInv, SetAfter, ClosedSlot;
    NextSlot(c, s);
  }

  lemma ClosedFormHandle(c: Config, s: State, s': State)
    requires Inv(c, s) && ClosedForm(c, s) && Next(c, s, Handle, s')
    ensures ClosedForm(c, s')
  {
    hide ReadField, Counted, SeqnInv, RingInv, FlowInv, SetAfter, ClosedSlot;
    RingHead(c, s);
    forall j | 0 <= j < c.n
      ensures s'.bits[j] <==> ClosedBit(c.n, |s'.at|, |s'.log|, j)
    {
      BitsAfterHandling(c.n, |s.log|, j);
    }
  }

  lemma DoneKept(c: Config, s: State, t: Step, s': State)
    requires Ok(c) && QueueInv(c, s) && Next(c, s, t, s') && !t.Alloc? && !t.Handle?
    ensures s'.bits == s.bits && s'.slotOf == s.slotOf && |s'.at| == |s.at| && s'.log == s.log
    ensures forall k :: 0 <= k < |s.at| && s.at[k].Done? ==> s'.at[k].Done?
  {
    hide ReadHeader, Wire, ClearAll;
  }

  lemma {:induction false} ClosedFormAlways(c: Config, r: Run, i: nat)
    requires IsRun(c, r) && OneAtATime(r) && i < |r.states|
    ensures ClosedForm(c, r.states[i]) && LostSends(r.states[i]) == 0
    decreases i
  {
    if i > 0 {
      ClosedFormAlways(c, r, i - 1);
      InvAlways(c, r, i - 1);
      ClosedFormKept(c, r.states[i - 1], r.steps[i - 1], r.states[i]);
    }
  }

  /** In every run of such a client, for every number of buffers: request 0 gets slot 0 and request
      k gets slot (k-1) mod n; once responses 0..k are handled and nothing is unfinished, bits
      0..k-1 are set while k < n, and all but k mod n from then on; so it never waits for a slot. */
  lemma OneAtATimeClient(c: Config, r: Run, i: nat)
    requires IsRun(c, r) && OneAtATime(r) && i < |r.states|
    ensures var s := r.states[i];
      && |s.slotOf| == |s.at| && |s.bits| == c.n
      && (forall k :: 0 <= k < |s.at| ==> s.slotOf[k] == if k == 0 then 0 else (k - 1) % c.n)
      && (Unfinished(s) == 0 ==> |s.log| == |s.at| && FirstClear(s.bits) < c.n)
      && (Unfinished(s) == 0 && |s.log| > 0 ==>
        var k := |s.log| - 1;
        forall j :: 0 <= j < c.n ==> (s.bits[j] <==> if k < c.n then j < k else j != k % c.n))
  {
    InvAlways(c, r, i);
    ClosedFormAlways(c, r, i);
  }

  // ---------------------------------------------------------------- exclusive slots

  /** The request still counts on its slot. */
  predicate Holds(l: Loc) { !l.Done? }

  /** The intent stated at rdma.c:805: a bit is set exactly while one request holds that slot. */
  ghost predicate Exclusive(s: State) {
    && |s.at| == |s.slotOf|
    && (forall k :: 0 <= k < |s.at| && Holds(s.at[k]) ==> s.slotOf[k] < |s.bits| && s.bits[s.slotOf[k]])
    && (forall j :: 0 <= j < |s.bits| && s.bits[j] ==>
      exists k :: 0 <= k < |s.at| && Holds(s.at[k]) && s.slotOf[k] == j)
    && (forall k, k' :: 0 <= k < k' < |s.at| && Holds(s.at[k]) && Holds(s.at[k']) ==> s.slotOf[k] != s.slotOf[k'])
  }

  /** The response about to be handled landed in its request's own slot. */
  ghost predicate Matched(s: State, t: Step) {
    t.Handle? ==> s.handler.Polled? && s.handler.req < |s.slotOf| && s.handler.buf == s.slotOf[s.handler.req]
  }

  /** One step keeps slots exclusive exactly when it does not handle a mismatched response. */
  lemma ExclusiveStep(c: Config, s: State, t: Step, s': State)
    requires Inv(c, s) && Exclusive(s) && Next(c, s, t, s')
    ensures Exclusive(s') <==> Matched(s, t)
  {
    hide Apply, Shape, Counted, SeqnInv, EchoInv, RingInv, FlowInv, CountInv;
    match t
    case Alloc => ExclusiveAlloc(c, s, s');
    case Handle => ExclusiveHandle(c, s, s');
    case _ => HoldersKept(c, s, t, s');
  }

  /** Only these two steps change bits, slots or who holds what. */
  lemma HoldersKept(c: Config, s: State, t: Step, s': State)
    requires Ok(c) && QueueInv(c, s) && Next(c, s, t, s') && !t.Alloc? && !t.Handle?
    ensures s'.bits == s.bits && s'.slotOf == s.slotOf && |s'.at| == |s.at|
    ensures forall k :: 0 <= k < |s.at| ==> Holds(s'.at[k]) == Holds(s.at[k])
  {
    hide ReadHeader, Wire, ClearAll;
  }

  lemma ExclusiveAlloc(c: Config, s: State, s': State)
    requires Inv(c, s) && Exclusive(s) && Next(c, s, Alloc, s')
    ensures Exclusive(s')
  {
    hide ReadHeader, Wire, Counted, SeqnInv, EchoInv, RingInv;
    forall j | 0 <= j < |s'.bits| && s'.bits[j]
      ensures exists k :: 0 <= k < |s'.at| && Holds(s'.at[k]) && s'.slotOf[k] == j
    {
      if s.bits[j] {
        var k :| 0 <= k < |s.at| && Holds(s.at[k]) && s.slotOf[k] == j;
        assert Holds(s'.at[k]) && s'.slotOf[k] == j;
      } else {
        assert Holds(s'.at[|s.at|]) && s'.slotOf[|s.at|] == j;
      }
    }
  }

  lemma HandleClears(c: Config, s: State, s': State)
    requires Inv(c, s) && Next(c, s, Handle, s')
    ensures s.handler.Polled? && s.handler.req < |s.at|
    ensures s'.bits == ClearAll(s.bits, [s.handler.buf]) && s'.slotOf == s.slotOf
    ensures s'.at == s.at[s.handler.req := Done] && s.at[s.handler.req] == InHandler
  {
    hide ReadField, Wire, Counted, SeqnInv, RingInv, FlowInv, CountInv;
  }

  lemma ExclusiveHandle(c: Config, s: State, s': State)
    requires Inv(c, s) && Exclusive(s) && Next(c, s, Handle, s')
    ensures Exclusive(s') <==> s.handler.buf == s.slotOf[s.handler.req]
  {
    hide Apply, Enabled, Shape, Counted, SeqnInv, RingInv, FlowInv, CountInv, EchoInv;
    HandleClears(c, s, s');
    hide Next;
    var b, q := s.handler.buf, s.handler.req;
    if b == s.slotOf[q] {
      forall j | 0 <= j < |s'.bits| && s'.bits[j]
        ensures exists k :: 0 <= k < |s'.at| && Holds(s'.at[k]) && s'.slotOf[k] == j
      {
        var k :| 0 <= k < |s.at| && Holds(s.at[k]) && s.slotOf[k] == j;
        assert Holds(s'.at[k]) && s'.slotOf[k] == j;
      }
    } else {
      // the slot of q stays set, yet q was the only request holding it
      assert s'.bits[s.slotOf[q]];
      assert !exists k :: 0 <= k < |s'.at| && Holds(s'.at[k]) && s'.slotOf[k] == s.slotOf[q];
    }
  }

  ghost predicate AllMatched(r: Run)
    requires |r.states| == |r.steps| + 1
  {
    forall i :: 0 <= i < |r.steps| ==> Matched(r.states[i], r.steps[i])
  }

  ghost predicate AlwaysExclusive(r: Run)
  {
    forall i :: 0 <= i < |r.states| ==> Exclusive(r.states[i])
  }

  lemma {:induction false} ExclusiveWhileMatched(c: Config, r: Run, i: nat)
    requires IsRun(c, r) && i < |r.states|
    requires forall k :: 0 <= k < i ==> Matched(r.states[k], r.steps[k])
    ensures Exclusive(r.states[i])
    decreases i
  {
    if i > 0 {
      ExclusiveWhileMatched(c, r, i - 1);
      InvAlways(c, r, i - 1);
      ExclusiveStep(c, r.states[i - 1], r.steps[i - 1], r.states[i]);
    }
  }

  /** A run keeps slots exclusive throughout exactly when every response it handles landed in the
      slot of the request it answers. */
  lemma SlotExclusivity(c: Config, r: Run)
    requires IsRun(c, r)
    ensures AlwaysExclusive(r) <==> AllMatched(r)
  {
    if AllMatched(r) {
      forall i | 0 <= i < |r.states|
        ensures Exclusive(r.states[i])
      {
        ExclusiveWhileMatched(c, r, i);
      }
    }
    if AlwaysExclusive(r) {
      forall i | 0 <= i < |r.steps|
        ensures Matched(r.states[i], r.steps[i])
      {
        InvAlways(c, r, i);
        ExclusiveStep(c, r.states[i], r.steps[i], r.states[i + 1]);
      }
    }
  }

  /** Even one request at a time drifts: its first response matches, and each later one matches
      exactly when there is a single buffer. */
  lemma OneAtATimeMatches(c: Config, r: Run, i: nat)
    requires IsRun(c, r) && OneAtATime(r) && i < |r.steps| && r.steps[i].Handle?
    ensures Matched(r.states[i], r.steps[i]) <==> c.n == 1 || |r.states[i].log| == 0
  {
    InvAlways(c, r, i);
    ClosedFormAlways(c, r, i);
    assert Next(c, r.states[i], Handle, r.states[i + 1]);
    MatchesAt(c, r.states[i]);
  }

  lemma MatchesAt(c: Config, s: State)
    requires Inv(c, s) && ClosedForm(c, s) && s.handler.Polled?
    ensures s.handler.buf == s.slotOf[s.handler.req] <==> c.n == 1 || |s.log| == 0
  {
    hide ReadHeader, Wire, Counted, SeqnInv, EchoInv, SetAfter;
    RingHead(c, s);
    assert s.handler.req == |s.log|;
    if |s.log| > 0 && c.n > 1 {
      ModDistinct(c.n, |s.log| - 1, |s.log|);
    }
  }
}
