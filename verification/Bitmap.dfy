/** The message-buffer bitmap of bitmap.c.

    The source keeps one byte per bit and only ever asks whether a byte is zero, so a bit
    is a `bool` here.  The bitmap's length stands for `BIT_ARR_SIZE`. */
module Bitmap {

  /** The lowest clear position, or the length when every bit is set. */
  function FirstClear(bits: seq<bool>): (r: nat)
    ensures r <= |bits|
    ensures forall j :: 0 <= j < r ==> bits[j]
    ensures r < |bits| ==> !bits[r]
  {
    if bits == [] || !bits[0] then 0 else 1 + FirstClear(bits[1..])
  }

  lemma FirstClearIsLeast(bits: seq<bool>, k: nat)
    requires k < |bits| && !bits[k] && forall j :: 0 <= j < k ==> bits[j]
    ensures FirstClear(bits) == k
  {
  }

  /** How many bits are set. */
  function SetCount(bits: seq<bool>): (c: nat)
    ensures c <= |bits|
  {
    if bits == [] then 0 else (if bits[0] then 1 else 0) + SetCount(bits[1..])
  }

  lemma {:induction false} SetCountUpdate(bits: seq<bool>, k: nat, b: bool)
    requires k < |bits|
    ensures SetCount(bits[k := b]) + (if bits[k] then 1 else 0) == SetCount(bits) + (if b then 1 else 0)
  {
    if k == 0 {
      assert bits[0 := b][1..] == bits[1..];
    } else {
      assert bits[k := b][1..] == bits[1..][k - 1 := b];
      SetCountUpdate(bits[1..], k - 1, b);
    }
  }

  /** A full count is the same thing as no clear bit. */
  lemma {:induction false} FullCount(bits: seq<bool>)
    ensures SetCount(bits) == |bits| <==> FirstClear(bits) == |bits|
  {
    if bits != [] {
      FullCount(bits[1..]);
    }
  }

  lemma {:induction false} NoneSet(bits: seq<bool>)
    requires forall j :: 0 <= j < |bits| ==> !bits[j]
    ensures SetCount(bits) == 0
  {
    if bits != [] {
      NoneSet(bits[1..]);
    }
  }

  /** The bits left after clearing each listed position in turn. */
  function ClearAll(bits: seq<bool>, ids: seq<nat>): (r: seq<bool>)
    ensures |r| == |bits|
    ensures forall j :: 0 <= j < |bits| ==> (r[j] <==> bits[j] && j !in ids)
  {
    if ids == [] then bits
    else
      var rest := ClearAll(bits, ids[..|ids| - 1]);
      var b := ids[|ids| - 1];
      assert ids == ids[..|ids| - 1] + [b];
      if b < |bits| then rest[b := false] else rest
  }

  lemma ClearTwice(bits: seq<bool>, a: seq<nat>, b: seq<nat>)
    ensures ClearAll(ClearAll(bits, a), b) == ClearAll(bits, a + b)
  {
  }

  /** Scans from bit 0; `result` is the caller's variable and is left alone when no bit is clear. */
  method FindFirstClearBit(bitarr: array<bool>, result0: nat) returns (found: bool, result: nat)
    ensures found <==> exists k :: 0 <= k < bitarr.Length && !bitarr[k]
    ensures found ==> result < bitarr.Length && !bitarr[result] && forall j :: 0 <= j < result ==> bitarr[j]
    ensures !found ==> result == result0
    ensures found <==> FirstClear(bitarr[..]) < bitarr.Length
    ensures found ==> result == FirstClear(bitarr[..])
  {
    for i := 0 to bitarr.Length
      invariant forall j :: 0 <= j < i ==> bitarr[j]
    {
      if !bitarr[i] {
        FirstClearIsLeast(bitarr[..], i);
        return true, i;
      }
    }
    assert forall j :: 0 <= j < |bitarr[..]| ==> bitarr[..][j];
    return false, result0;
  }

  /** Out-of-range indices are ignored, as in the source. */
  method SetBit(bitarr: array<bool>, b: nat)
    modifies bitarr
    ensures bitarr[..] == if b < bitarr.Length then old(bitarr[..])[b := true] else old(bitarr[..])
  {
    if b < bitarr.Length {
      bitarr[b] := true;
    }
  }

  method ClearBit(bitarr: array<bool>, b: nat)
    modifies bitarr
    ensures bitarr[..] == ClearAll(old(bitarr[..]), [b])
  {
    if b < bitarr.Length {
      bitarr[b] := false;
    }
    assert bitarr[..] == ClearAll(old(bitarr[..]), [b]);
  }
}
