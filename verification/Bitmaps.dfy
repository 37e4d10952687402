/** lib/bitmap.c: bit sets stored in a byte array. */
module Bitmaps {
  import opened Words

  /** Bit k of x, which is what `x & (BITMAP_MASK << k)` tests. */
  predicate BitOf(x: nat, k: nat) {
    if k == 0 then x % 2 == 1 else BitOf(x / 2, k - 1)
  }

  /** x with bit k replaced: `x | (BITMAP_MASK << k)` or `x & ~(BITMAP_MASK << k)`. */
  function PutBit(x: nat, k: nat, v: bool): nat {
    if k == 0 then x / 2 * 2 + (if v then 1 else 0) else 2 * PutBit(x / 2, k - 1, v) + x % 2
  }

  lemma {:induction false} BitOfPut(x: nat, k: nat, v: bool, j: nat)
    ensures BitOf(PutBit(x, k, v), j) == if j == k then v else BitOf(x, j)
  {
    var y := PutBit(x, k, v);
    if k == 0 {
      assert y / 2 == x / 2;
    } else {
      assert y / 2 == PutBit(x / 2, k - 1, v) && y % 2 == x % 2;
      if j > 0 {
        BitOfPut(x / 2, k - 1, v, j - 1);
      }
    }
  }

  function Pow2(n: nat): (r: nat)
    ensures r > 0
  {
    if n == 0 then 1 else 2 * Pow2(n - 1)
  }

  lemma {:induction false} PutBitRange(x: nat, k: nat, v: bool, n: nat)
    requires k < n && x < Pow2(n)
    ensures PutBit(x, k, v) < Pow2(n)
  {
    if k > 0 {
      PutBitRange(x / 2, k - 1, v, n - 1);
    }
  }

  /** The read-modify-write of one byte in bitmap_set. */
  function PutBitOfByte(b: byte, k: nat, v: bool): byte
    requires k < 8
  {
    assert Pow2(8) == 256 by {
      assert Pow2(2) == 4;
      assert Pow2(4) == 16;
      assert Pow2(6) == 64;
    }
    PutBitRange(b, k, v, 8);
    PutBit(b, k, v)
  }

  lemma {:induction false} BitOfZero(k: nat)
    ensures !BitOf(0, k)
  {
    if k > 0 {
      BitOfZero(k - 1);
    }
  }

  /** The bits of a number determine it. */
  lemma {:induction false} SameBits(x: nat, y: nat, n: nat)
    requires x < Pow2(n) && y < Pow2(n)
    requires forall k: nat :: k < n ==> BitOf(x, k) == BitOf(y, k)
    ensures x == y
  {
    if n > 0 {
      assert BitOf(x, 0) == BitOf(y, 0);
      forall k: nat | k < n - 1
        ensures BitOf(x / 2, k) == BitOf(y / 2, k)
      {
        assert BitOf(x, k + 1) == BitOf(y, k + 1);
      }
      SameBits(x / 2, y / 2, n - 1);
    }
  }

  lemma BitsOfInjective(a: seq<byte>, b: seq<byte>)
    requires |a| == |b| && BitsOf(a) == BitsOf(b)
    ensures a == b
  {
    forall i | 0 <= i < |a|
      ensures a[i] == b[i]
    {
      assert Pow2(8) == 256 by {
        assert Pow2(2) == 4;
        assert Pow2(4) == 16;
        assert Pow2(6) == 64;
      }
      forall k: nat | k < 8
        ensures BitOf(a[i], k) == BitOf(b[i], k)
      {
        assert (8 * i + k) / 8 == i && (8 * i + k) % 8 == k;
        assert BitsOf(a)[8 * i + k] == BitsOf(b)[8 * i + k];
      }
      SameBits(a[i], b[i], 8);
    }
  }

  function BitsOf(bs: seq<byte>): (r: seq<bool>)
    ensures |r| == 8 * |bs|
  {
    seq(8 * |bs|, i requires 0 <= i < 8 * |bs| => BitOf(bs[i / 8], i % 8))
  }

  lemma BitsOfPut(bs: seq<byte>, k: nat, j: nat, v: bool)
    requires k < |bs| && j < 8
    ensures BitsOf(bs[k := PutBitOfByte(bs[k], j, v)]) == BitsOf(bs)[8 * k + j := v]
  {
    var bs' := bs[k := PutBitOfByte(bs[k], j, v)];
    forall i | 0 <= i < 8 * |bs|
      ensures BitsOf(bs')[i] == BitsOf(bs)[8 * k + j := v][i]
    {
      if i / 8 == k {
        BitOfPut(bs[k], j, v, i % 8);
      }
    }
  }

  /** cnt clear bits start at index s. */
  predicate ClearRun(bits: seq<bool>, s: nat, cnt: nat) {
    s + cnt <= |bits| && forall i :: s <= i < s + cnt ==> !bits[i]
  }

  /** Every run of cnt clear bits reaches past position i. */
  ghost predicate NoRunEndsBefore(bits: seq<bool>, cnt: nat, i: nat) {
    forall s: nat :: s + cnt <= i ==> !ClearRun(bits, s, cnt)
  }

  lemma NoRunAcross(bits: seq<bool>, cnt: nat, i: nat, lastBad: int)
    requires cnt > 0 && i < |bits| && NoRunEndsBefore(bits, cnt, i)
    requires -1 <= lastBad <= i && i - lastBad < cnt
    requires lastBad >= 0 ==> bits[lastBad]
    ensures NoRunEndsBefore(bits, cnt, i + 1)
  {
    forall s: nat | s + cnt <= i + 1
      ensures !ClearRun(bits, s, cnt)
    {
      assert s + cnt == i + 1 ==> s <= lastBad < s + cnt;
    }
  }

  /** The number of clear bits. */
  function CountClear(bits: seq<bool>): nat {
    if |bits| == 0 then 0
    else CountClear(bits[..|bits| - 1]) + if bits[|bits| - 1] then 0 else 1
  }

  /** At most as many bits are clear as among the first n, and all others. */
  lemma {:induction false} CountClearPrefix(bits: seq<bool>, n: nat)
    requires n <= |bits|
    ensures CountClear(bits) <= CountClear(bits[..n]) + (|bits| - n)
  {
    if n == |bits| {
      assert bits[..n] == bits;
    } else {
      CountClearPrefix(bits[..|bits| - 1], n);
      assert bits[..|bits| - 1][..n] == bits[..n];
    }
  }

  lemma {:induction false} CountClearUpdate(bits: seq<bool>, i: nat, v: bool)
    requires i < |bits|
    ensures CountClear(bits[i := v]) ==
            CountClear(bits) + (if bits[i] then 1 else 0) - (if v then 1 else 0)
  {
    var n := |bits| - 1;
    if i == n {
      assert bits[i := v][..n] == bits[..n];
    } else {
      assert bits[i := v][..n] == bits[..n][i := v];
      CountClearUpdate(bits[..n], i, v);
    }
  }

  lemma {:induction false} CountClearPositive(bits: seq<bool>) returns (i: nat)
    requires CountClear(bits) > 0
    ensures i < |bits| && !bits[i]
  {
    var n := |bits| - 1;
    if bits[n] {
      i := CountClearPositive(bits[..n]);
    } else {
      i := n;
    }
  }

  lemma {:induction false} CountClearZero(bits: seq<bool>, i: nat)
    requires i < |bits| && !bits[i]
    ensures CountClear(bits) > 0
  {
    var n := |bits| - 1;
    if i < n {
      CountClearZero(bits[..n], i);
    }
  }

  /** `struct bitmap`: btmap_bytes_len bytes at a position inside a byte array. Several bitmaps may lie
      side by side in one array, as the memory manager's do. */
  class Bitmap {
    const bits: array<byte>
    const start: nat
    const bytesLen: nat

    ghost predicate Valid() {
      start + bytesLen <= bits.Length
    }

    /** The bits of the whole array, before and after this bitmap's own. */
    ghost function All(): (r: seq<bool>)
      reads bits
      ensures |r| == 8 * bits.Length
    {
      BitsOf(bits[..])
    }

    /** The bits of this bitmap. */
    ghost function Bits(): (r: seq<bool>)
      requires Valid()
      reads bits
      ensures |r| == 8 * bytesLen
    {
      All()[8 * start..8 * (start + bytesLen)]
    }

    constructor (bits: array<byte>, start: nat, bytesLen: nat)
      requires start + bytesLen <= bits.Length
      ensures Valid()
      ensures this.bits == bits && this.start == start && this.bytesLen == bytesLen
    {
      this.bits, this.start, this.bytesLen := bits, start, bytesLen;
    }

    /** bitmap_init */
    method Init()
      requires Valid()
      modifies bits
      ensures forall i :: 0 <= i < 8 * bits.Length ==>
                All()[i] == if 8 * start <= i < 8 * (start + bytesLen) then false else old(All())[i]
    {
      for k := 0 to bytesLen
        invariant forall j :: start <= j < start + k ==> bits[j] == 0
        invariant forall j :: 0 <= j < bits.Length && !(start <= j < start + k) ==> bits[j] == old(bits[j])
      {
        bits[start + k] := 0;
      }
      forall i | 0 <= i < 8 * bits.Length
        ensures All()[i] == if 8 * start <= i < 8 * (start + bytesLen) then false else old(All())[i]
      {
        BitOfZero(i % 8);
      }
    }

    /** bitmap_scan_test; like the source it does not check the index against this bitmap's own length. */
    method ScanTest(i: nat) returns (r: bool)
      requires start + i / 8 < bits.Length
      ensures r == All()[8 * start + i]
    {
      assert (8 * start + i) / 8 == start + i / 8 && (8 * start + i) % 8 == i % 8;
      r := BitOf(bits[start + i / 8], i % 8);
    }

    /** bitmap_scan */
    method Scan(cnt: nat) returns (r: int)
      requires Valid()
      ensures -1 <= r
      ensures r >= 0 ==> cnt > 0 && ClearRun(Bits(), r, cnt)
      ensures r >= 0 ==> forall s: nat :: s < r ==> !ClearRun(Bits(), s, cnt)
      ensures r == -1 ==> cnt == 0 || forall s: nat :: !ClearRun(Bits(), s, cnt)
    {
      ghost var own := Bits();
      var lastBad := -1;
      for i := 0 to bytesLen * 8
        invariant -1 <= lastBad < i
        invariant lastBad >= 0 ==> own[lastBad]
        invariant forall k :: lastBad < k < i ==> !own[k]
        invariant cnt > 0 ==> i - 1 - lastBad < cnt
        invariant cnt > 0 ==> NoRunEndsBefore(own, cnt, i)
      {
        var bad := ScanTest(i);
        assert bad == own[i];
        if bad {
          lastBad := i;
        } else if cnt == 1 {
          return i;
        } else if i - lastBad == cnt {
          return lastBad + 1;
        }
        if cnt > 0 {
          NoRunAcross(own, cnt, i, lastBad);
        }
      }
      return -1;
    }

    /** bitmap_set, likewise unchecked: an index past the end changes the bytes that follow. */
    method Set(i: nat, v: bool)
      requires start + i / 8 < bits.Length
      modifies bits
      ensures All() == old(All())[8 * start + i := v]
      ensures forall k :: 0 <= k < bits.Length && k != start + i / 8 ==> bits[k] == old(bits[k])
    {
      var k := start + i / 8;
      bits[k] := PutBitOfByte(bits[k], i % 8, v);
      assert bits[..] == old(bits[..])[k := PutBitOfByte(old(bits[..])[k], i % 8, v)];
      BitsOfPut(old(bits[..]), k, i % 8, v);
      assert 8 * k + i % 8 == 8 * start + i;
    }

    /** test_and_set_bitmap of fs/file.c: takes the first clear bit. */
    method TestAndSet() returns (idx: int)
      requires Valid()
      modifies bits
      ensures idx == -1 ==> bits[..] == old(bits[..]) && All() == old(All())
      ensures idx == -1 ==> forall s: nat :: !ClearRun(Bits(), s, 1)
      ensures idx != -1 ==> 0 <= idx < 8 * bytesLen && All() == old(All())[8 * start + idx := true]
      ensures idx != -1 ==> forall k :: 0 <= k < bits.Length && k != start + idx / 8 ==> bits[k] == old(bits[k])
      ensures idx != -1 ==> !old(Bits())[idx] && forall s :: 0 <= s < idx ==> old(Bits())[s]
    {
      idx := Scan(1);
      if idx != -1 {
        forall s | 0 <= s < idx
          ensures Bits()[s]
        {
          assert !ClearRun(Bits(), s, 1);
        }
        Set(idx, true);
      }
    }
  }
}
