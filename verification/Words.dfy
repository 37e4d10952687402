/** Bytes, 32-bit little-endian words and 512-byte disk sectors; a value that may be missing; and lists without repetition. */
module Words {

  datatype Option<T> = None | Some(value: T)

  ghost predicate Distinct<T>(q: seq<T>) {
    forall i, j :: 0 <= i < j < |q| ==> q[i] != q[j]
  }

  type byte = x: int | 0 <= x < 0x100
  type u32 = x: int | 0 <= x < 0x1_0000_0000

  const SECTOR_SIZE: nat := 512

  type Sector = s: seq<byte> | |s| == SECTOR_SIZE witness seq(SECTOR_SIZE, _ => 0)

  /** The sector `memset(buf, 0, 512)` leaves behind. */
  function Zeros(): Sector {
    seq(SECTOR_SIZE, _ => 0)
  }

  /** Byte k of the little-endian representation of x. */
  function ByteOf(x: u32, k: nat): byte
    requires k < 4
  {
    if k == 0 then x % 0x100
    else if k == 1 then x / 0x100 % 0x100
    else if k == 2 then x / 0x1_0000 % 0x100
    else x / 0x100_0000
  }

  function Word(a: byte, b: byte, c: byte, d: byte): u32 {
    a + 0x100 * (b as int) + 0x1_0000 * (c as int) + 0x100_0000 * (d as int)
  }

  lemma WordOfBytes(x: u32)
    ensures Word(ByteOf(x, 0), ByteOf(x, 1), ByteOf(x, 2), ByteOf(x, 3)) == x
  {
    var y := x / 0x100;
    var z := y / 0x100;
    assert x / 0x1_0000 == z && x / 0x100_0000 == z / 0x100;
    assert x == 0x100 * y + x % 0x100 && y == 0x100 * z + y % 0x100 && z == 0x100 * (z / 0x100) + z % 0x100;
  }

  /** An array of words, as the bytes that hold it in memory. */
  function Pack(ws: seq<u32>): (bs: seq<byte>)
    ensures |bs| == 4 * |ws|
  {
    seq(4 * |ws|, i requires 0 <= i < 4 * |ws| => ByteOf(ws[i / 4], i % 4))
  }

  function WordAt(bs: seq<byte>, at: nat): u32
    requires at + 4 <= |bs|
  {
    Word(bs[at], bs[at + 1], bs[at + 2], bs[at + 3])
  }

  function Unpack(bs: seq<byte>): (ws: seq<u32>)
    ensures |ws| == |bs| / 4
  {
    seq(|bs| / 4, i requires 0 <= i < |bs| / 4 => WordAt(bs, 4 * i))
  }

  lemma WordAtPack(ws: seq<u32>, i: nat)
    requires i < |ws|
    ensures WordAt(Pack(ws), 4 * i) == ws[i]
  {
    var bs := Pack(ws);
    forall k: nat | k < 4
      ensures bs[4 * i + k] == ByteOf(ws[i], k)
    {
      assert (4 * i + k) / 4 == i && (4 * i + k) % 4 == k;
    }
    assert bs[4 * i] == bs[4 * i + 0];
    WordOfBytes(ws[i]);
  }

  /** Storing words in memory and loading them back yields the same words. */
  lemma UnpackPack(ws: seq<u32>)
    ensures Unpack(Pack(ws)) == ws
  {
    forall i | 0 <= i < |ws|
      ensures Unpack(Pack(ws))[i] == ws[i]
    {
      WordAtPack(ws, i);
    }
  }

  /** The low byte of a word comes first. */
  lemma LowByteFirst(ws: seq<u32>, i: nat)
    requires i < |ws|
    ensures Pack(ws)[4 * i] == ws[i] % 0x100 && Pack(ws)[4 * i + 3] == ws[i] / 0x100_0000
    ensures Pack(ws)[4 * i + 1] == ws[i] / 0x100 % 0x100 && Pack(ws)[4 * i + 2] == ws[i] / 0x1_0000 % 0x100
  {
    assert (4 * i) / 4 == i && (4 * i) % 4 == 0 && (4 * i + 1) / 4 == i && (4 * i + 1) % 4 == 1;
    assert (4 * i + 2) / 4 == i && (4 * i + 2) % 4 == 2 && (4 * i + 3) / 4 == i && (4 * i + 3) % 4 == 3;
  }

  /** `dst[at .. at + |src|]` overwritten by `src`: what `memcpy(dst + at, src, |src|)` leaves in dst. */
  function Splice<T>(dst: seq<T>, at: nat, src: seq<T>): (r: seq<T>)
    requires at + |src| <= |dst|
    ensures |r| == |dst|
    ensures forall i :: 0 <= i < |dst| ==> r[i] == if at <= i < at + |src| then src[i - at] else dst[i]
  {
    dst[..at] + src + dst[at + |src|..]
  }
}
