/** Disk blocks as byte arrays, with the two other readings the kernel gives them:
    an array of 32-bit little-endian words (log header, indirect blocks) and an
    array of bits (free map). */
module Blocks {
  const BSIZE: nat := 1024
  const NWORDS: nat := 256
  const BPB: nat := 8192
  const WORD: nat := 0x1_0000_0000

  type byte = x: int | 0 <= x < 256

  type Block = b: seq<byte> | |b| == 1024 witness seq(1024, _ => 0)

  /** A zeroed block. */
  function Zero(): (z: Block)
    ensures forall i | 0 <= i < BSIZE :: z[i] == 0
  {
    seq(1024, _ => 0)
  }

  // ---- words ----

  function GetWord(b: Block, i: nat): (w: nat)
    requires i < NWORDS
    ensures w < WORD
  {
    FromBytes(b[4 * i], b[4 * i + 1], b[4 * i + 2], b[4 * i + 3])
  }

  function FromBytes(b0: int, b1: int, b2: int, b3: int): int {
    b0 + 0x100 * b1 + 0x1_0000 * b2 + 0x100_0000 * b3
  }

  lemma WordBytes(w: nat)
    requires w < WORD
    ensures FromBytes(w % 0x100, w / 0x100 % 0x100, w / 0x1_0000 % 0x100, w / 0x100_0000) == w
    ensures w / 0x100_0000 < 0x100
  {
    assert w / 0x1_0000 == w / 0x100 / 0x100;
    assert w / 0x100_0000 == w / 0x1_0000 / 0x100;
  }

  /** b with four consecutive bytes replaced. */
  function PutBytes(b: Block, k: nat, bytes: seq<byte>): (r: Block)
    requires |bytes| == 4 && k + 4 <= BSIZE
    ensures forall j | 0 <= j < BSIZE :: r[j] == if k <= j < k + 4 then bytes[j - k] else b[j]
  {
    b[..k] + bytes + b[k + 4..]
  }

  function PutWord(b: Block, i: nat, w: nat): (r: Block)
    requires i < NWORDS && w < WORD
    ensures GetWord(r, i) == w
    ensures forall j: nat {:trigger GetWord(r, j)} | j < NWORDS && j != i :: GetWord(r, j) == GetWord(b, j)
  {
    WordBytes(w);
    PutBytes(b, 4 * i, [w % 0x100, w / 0x100 % 0x100, w / 0x1_0000 % 0x100, w / 0x100_0000])
  }

  // ---- bits ----

  /** The mask 1 << k. */
  function Mask(k: nat): (m: nat)
    ensures m >= 1
  {
    if k == 0 then 1 else 2 * Mask(k - 1)
  }

  /** Whether bit k of x is set. */
  predicate Bit(x: nat, k: nat) {
    if k == 0 then x % 2 == 1 else Bit(x / 2, k - 1)
  }

  /** x | m, for a clear bit, and x & ~m, for a set one, change that bit and no other,
      and stay below the next power of two. */
  lemma {:induction false} BitFlip(x: nat, k: nat, n: nat, j: nat)
    requires k < n && x < Mask(n)
    ensures !Bit(x, k) ==> x + Mask(k) < Mask(n) && Bit(x + Mask(k), j) == (j == k || Bit(x, j))
    ensures Bit(x, k) ==> x - Mask(k) >= 0 && Bit(x - Mask(k), j) == (j != k && Bit(x, j))
  {
    if k == 0 {
    } else {
      BitFlip(x / 2, k - 1, n - 1, if j == 0 then 0 else j - 1);
      assert (x + Mask(k)) / 2 == x / 2 + Mask(k - 1);
      if Bit(x, k) {
        assert (x - Mask(k)) / 2 == x / 2 - Mask(k - 1);
      }
    }
  }

  lemma ByteFlip(x: byte, k: nat, j: nat)
    requires k < 8
    ensures !Bit(x, k) ==> x + Mask(k) < 256 && Bit(x + Mask(k), j) == (j == k || Bit(x, j))
    ensures Bit(x, k) ==> x - Mask(k) >= 0 && Bit(x - Mask(k), j) == (j != k && Bit(x, j))
  {
    assert Mask(4) == 16 && Mask(8) == 256;
    BitFlip(x, k, 8, j);
  }

  predicate GetBit(b: Block, i: nat)
    requires i < BPB
  {
    Bit(b[i / 8], i % 8)
  }

  /** `data[bi/8] |= m` on a clear bit. */
  function SetBit(b: Block, i: nat): (r: Block)
    requires i < BPB && !GetBit(b, i)
    ensures forall j: nat {:trigger GetBit(r, j)} | j < BPB :: GetBit(r, j) == (j == i || GetBit(b, j))
  {
    ByteFlip(b[i / 8], i % 8, 0);
    var r: Block := b[i / 8 := b[i / 8] + Mask(i % 8)];
    assert forall j: nat {:trigger GetBit(r, j)} | j < BPB :: GetBit(r, j) == (j == i || GetBit(b, j)) by {
      forall j: nat | j < BPB ensures GetBit(r, j) == (j == i || GetBit(b, j)) {
        ByteFlip(b[i / 8], i % 8, j % 8);
      }
    }
    r
  }

  /** `data[bi/8] &= ~m` on a set bit. */
  function ClearBit(b: Block, i: nat): (r: Block)
    requires i < BPB && GetBit(b, i)
    ensures forall j: nat {:trigger GetBit(r, j)} | j < BPB :: GetBit(r, j) == (j != i && GetBit(b, j))
  {
    ByteFlip(b[i / 8], i % 8, 0);
    var r: Block := b[i / 8 := b[i / 8] - Mask(i % 8)];
    assert forall j: nat {:trigger GetBit(r, j)} | j < BPB :: GetBit(r, j) == (j != i && GetBit(b, j)) by {
      forall j: nat | j < BPB ensures GetBit(r, j) == (j != i && GetBit(b, j)) {
        ByteFlip(b[i / 8], i % 8, j % 8);
      }
    }
    r
  }
}
