/** rpc_common.c: taking and giving back a message buffer's bit under the channel's spin lock. */
module RpcCommon {
  import opened Bitmap
  import opened Options

  /** What a requester ends up with if, after each failed attempt, others clear the listed bits:
      the bit it gets, or None if it is still retrying, and the bitmap then. */
  function Retry(bits: seq<bool>, freed: seq<seq<nat>>): (Option<nat>, seq<bool>)
    decreases |freed|
  {
    var b := FirstClear(bits);
    if b < |bits| then (Some(b), bits[b := true])
    else if freed == [] then (None, bits)
    else Retry(ClearAll(bits, freed[0]), freed[1..])
  }

  /** Bit `j` is still set once the first `k` groups have been cleared. */
  predicate Still(bits: seq<bool>, freed: seq<seq<nat>>, k: nat, j: nat)
    requires k <= |freed| && j < |bits|
  {
    bits[j] && forall i :: 0 <= i < k ==> j !in freed[i]
  }

  /** What the loop has done when it ends: every attempt but the last met a full bitmap; the last, after
      `k` groups were cleared, took the lowest clear bit and set it and nothing else.  Or every attempt met
      a full bitmap, which is left full. */
  ghost predicate Taken(bits: seq<bool>, freed: seq<seq<nat>>, got: Option<nat>, after: seq<bool>) {
    && |after| == |bits|
    && match got
       case None =>
         && (forall j :: 0 <= j < |bits| ==> after[j])
         && forall i, j :: 0 <= i <= |freed| && 0 <= j < |bits| ==> Still(bits, freed, i, j)
       case Some(b) => b < |bits| && after[b] && exists k :: TakenAt(bits, freed, k, b, after)
  }

  ghost predicate TakenAt(bits: seq<bool>, freed: seq<seq<nat>>, k: nat, b: nat, after: seq<bool>)
    requires b < |bits| == |after|
  {
    && k <= |freed| && !Still(bits, freed, k, b)
    && (forall j :: 0 <= j < b ==> Still(bits, freed, k, j))
    && (forall j :: 0 <= j < |bits| && j != b ==> (after[j] <==> Still(bits, freed, k, j)))
    && (forall i, j :: 0 <= i < k && 0 <= j < |bits| ==> Still(bits, freed, i, j))
  }

  /** One group more in front. */
  lemma StillCleared(bits: seq<bool>, freed: seq<seq<nat>>, k: nat, j: nat)
    requires k < |freed| && j < |bits|
    ensures Still(ClearAll(bits, freed[0]), freed[1..], k, j) <==> Still(bits, freed, k + 1, j)
  {
    var next, rest := ClearAll(bits, freed[0]), freed[1..];
    if Still(next, rest, k, j) {
      forall i | 0 <= i < k + 1
        ensures j !in freed[i]
      {
        assert i > 0 ==> freed[i] == rest[i - 1];
      }
    }
  }

  lemma {:induction false} RetryTakes(bits: seq<bool>, freed: seq<seq<nat>>)
    ensures Taken(bits, freed, Retry(bits, freed).0, Retry(bits, freed).1)
    decreases |freed|
  {
    var b := FirstClear(bits);
    if b < |bits| {
      assert TakenAt(bits, freed, 0, b, bits[b := true]);
    } else if freed != [] {
      RetryTakes(ClearAll(bits, freed[0]), freed[1..]);
      TakenLater(bits, freed, Retry(bits, freed).0, Retry(bits, freed).1);
    }
  }

  lemma TakenLater(bits: seq<bool>, freed: seq<seq<nat>>, got: Option<nat>, after: seq<bool>)
    requires freed != [] && FirstClear(bits) == |bits|
    requires Taken(ClearAll(bits, freed[0]), freed[1..], got, after)
    ensures Taken(bits, freed, got, after)
  {
    hide ClearAll, Still, TakenAt;
    if got.Some? {
      var k :| TakenAt(ClearAll(bits, freed[0]), freed[1..], k, got.value, after);
      TakenAtLater(bits, freed, k, got.value, after);
    } else {
      forall i, j | 0 <= i <= |freed| && 0 <= j < |bits|
        ensures Still(bits, freed, i, j)
      {
        StillBefore(bits, freed, i, j);
      }
    }
  }

  /** The first attempt met a full bitmap, and the others are those after the first group. */
  lemma StillBefore(bits: seq<bool>, freed: seq<seq<nat>>, i: nat, j: nat)
    requires freed != [] && FirstClear(bits) == |bits| && i <= |freed| && j < |bits|
    ensures Still(bits, freed, i, j) <==> i == 0 || Still(ClearAll(bits, freed[0]), freed[1..], i - 1, j)
  {
    if i > 0 {
      StillCleared(bits, freed, i - 1, j);
    }
  }

  lemma TakenAtLater(bits: seq<bool>, freed: seq<seq<nat>>, k: nat, b: nat, after: seq<bool>)
    requires freed != [] && FirstClear(bits) == |bits| && b < |bits| == |after|
    requires TakenAt(ClearAll(bits, freed[0]), freed[1..], k, b, after)
    ensures TakenAt(bits, freed, k + 1, b, after)
  {
    hide ClearAll, Still;
    var next, rest, k' := ClearAll(bits, freed[0]), freed[1..], k + 1;
    forall j | 0 <= j < |bits|
      ensures Still(bits, freed, k', j) <==> Still(next, rest, k, j)
    {
      StillBefore(bits, freed, k', j);
    }
    forall i, j | 0 <= i < k' && 0 <= j < |bits|
      ensures Still(bits, freed, i, j)
    {
      StillBefore(bits, freed, i, j);
      if i > 0 {
        assert Still(next, rest, i - 1, j);
      }
    }
    assert TakenAt(bits, freed, k', b, after);
  }

  ghost predicate FreesOne(bits: seq<bool>, ids: seq<nat>) {
    exists b :: b in ids && b < |bits|
  }

  /** It gets a bit exactly when one was clear or somebody clears one. */
  lemma {:induction false} RetryEnds(bits: seq<bool>, freed: seq<seq<nat>>)
    ensures Retry(bits, freed).0.Some? <==>
      FirstClear(bits) < |bits| || exists i :: 0 <= i < |freed| && FreesOne(bits, freed[i])
    decreases |freed|
  {
    if FirstClear(bits) == |bits| && freed != [] {
      var next := ClearAll(bits, freed[0]);
      RetryEnds(next, freed[1..]);
      assert FreesOne(bits, freed[0]) <==> FirstClear(next) < |next|;
      assert forall i :: 1 <= i < |freed| ==> freed[i] == freed[1..][i - 1];
      assert forall i :: 0 <= i < |freed| ==> FreesOne(next, freed[i]) == FreesOne(bits, freed[i]);
      if i :| 0 <= i < |freed| && FreesOne(bits, freed[i]) {
        if i > 0 {
          assert FreesOne(next, freed[1..][i - 1]);
        }
      }
      if Retry(bits, freed).0.Some? && FirstClear(next) == |next| {
        var i :| 0 <= i < |freed[1..]| && FreesOne(next, freed[1..][i]);
        assert FreesOne(bits, freed[i + 1]);
      }
    }
  }

  /** When a full bitmap gives way, the bit handed out is the lowest of those just cleared. */
  lemma FreedIsReused(bits: seq<bool>, ids: seq<nat>, rest: seq<seq<nat>>)
    requires FirstClear(bits) == |bits| && FreesOne(bits, ids)
    ensures var got := Retry(bits, [ids] + rest).0;
      got.Some? && got.value in ids && forall b :: b in ids && b < |bits| ==> got.value <= b
  {
    var next := ClearAll(bits, ids);
    var b :| b in ids && b < |bits|;
    assert !next[b];
    assert ([ids] + rest)[1..] == rest;
    assert forall c :: c in ids && c < |bits| ==> !next[c];
  }

  /** The part of struct rpc_ch_info behind the lock, and the lock. */
  class RpcChannel {
    const bitmap: array<bool>
    var locked: bool

    constructor (n: nat)
      ensures !locked && fresh(bitmap) && bitmap.Length == n && forall i :: 0 <= i < n ==> !bitmap[i]
    {
      bitmap := new bool[n](_ => false);
      locked := false;
    }

    /** One turn of the loop in alloc_msgbuf_id. */
    method TryAlloc(id0: nat) returns (ret: bool, id: nat)
      requires !locked
      modifies this, bitmap
      ensures !locked
      ensures ret <==> FirstClear(old(bitmap[..])) < bitmap.Length
      ensures ret ==> id == FirstClear(old(bitmap[..])) && bitmap[..] == old(bitmap[..])[id := true]
      ensures !ret ==> bitmap[..] == old(bitmap[..])
    {
      locked := true;
      ret, id := FindFirstClearBit(bitmap, id0);
      if ret {
        SetBit(bitmap, id);
      }
      locked := false;
    }

    /** The retry loop, for as long as `freed` says what others do between attempts; the source goes
        on for ever. */
    method AllocMsgbufId(freed: seq<seq<nat>>) returns (got: Option<nat>)
      requires !locked
      modifies this, bitmap
      ensures !locked
      ensures (got, bitmap[..]) == Retry(old(bitmap[..]), freed)
      ensures Taken(old(bitmap[..]), freed, got, bitmap[..])
    {
      RetryTakes(bitmap[..], freed);
      hide Taken;
      var id := 0;
      var turn := 0;
      while true
        invariant !locked && turn <= |freed|
        invariant Retry(bitmap[..], freed[turn..]) == Retry(old(bitmap[..]), freed)
        decreases |freed| - turn
      {
        var ret;
        ret, id := TryAlloc(id);
        if ret {
          return Some(id);
        }
        if turn == |freed| {
          return None;
        }
        OthersClear(freed[turn]);
        assert freed[turn..][1..] == freed[turn + 1..];
        turn := turn + 1;
      }
    }

    method OthersClear(ids: seq<nat>)
      requires !locked
      modifies this, bitmap
      ensures !locked && bitmap[..] == ClearAll(old(bitmap[..]), ids)
    {
      for i := 0 to |ids|
        invariant !locked && bitmap[..] == ClearAll(old(bitmap[..]), ids[..i])
      {
        FreeMsgbufId(ids[i]);
        assert ids[..i + 1] == ids[..i] + [ids[i]];
      }
      assert ids[..|ids|] == ids;
    }

    method FreeMsgbufId(id: nat)
      requires !locked
      modifies this`locked, bitmap
      ensures !locked && bitmap[..] == ClearAll(old(bitmap[..]), [id])
    {
      locked := true;
      ClearBit(bitmap, id);
      locked := false;
    }
  }
}
