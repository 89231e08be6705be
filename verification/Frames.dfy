/**
 Length framing: every variable-length field behind its length, as eight big-endian
 bytes. Go strings are bytes, so a byte is a char below 256 here.
 */
module Frames {

  type octet = c: char | c as int < 256

  function Limit(width: nat): (r: nat)
    ensures r > 0
  {
    if width == 0 then 1 else 256 * Limit(width - 1)
  }

  /** A number without its last k bytes. */
  function Shift(n: nat, k: nat): (r: nat) {
    if k == 0 then n else Shift(n / 256, k - 1)
  }

  /** The low `width` bytes of a number, most significant first. */
  function BigEndian(n: nat, width: nat): (r: seq<octet>)
    ensures |r| == width
  {
    seq(width, i requires 0 <= i < width => (Shift(n, width - 1 - i) % 256) as char)
  }

  function Number(s: seq<octet>): (r: nat) {
    if s == [] then 0 else Number(s[..|s| - 1]) * 256 + s[|s| - 1] as int
  }

  const WORD: nat := 0x1_0000_0000_0000_0000

  lemma WordIsEightBytes()
    ensures Limit(8) == WORD
  {
    assert Limit(2) == 0x1_0000;
    assert Limit(4) == 0x1_0000_0000 by { assert Limit(3) == 0x100_0000; }
    assert Limit(6) == 0x1_0000_0000_0000 by { assert Limit(5) == 0x100_0000_0000; }
    assert Limit(7) == 0x100_0000_0000_0000;
  }

  /** All but the last byte are the bytes of the number without its last byte. */
  lemma LastByte(n: nat, width: nat)
    requires width > 0
    ensures BigEndian(n, width) == BigEndian(n / 256, width - 1) + [(n % 256) as char]
  {
    var before := BigEndian(n / 256, width - 1);
    forall i | 0 <= i < width ensures BigEndian(n, width)[i] == (before + [(n % 256) as char])[i] {
      assert i < width - 1 ==> Shift(n, width - 1 - i) == Shift(n / 256, width - 2 - i);
    }
  }

  lemma {:induction false} NumberOfBigEndian(n: nat, width: nat)
    requires n < Limit(width)
    ensures Number(BigEndian(n, width)) == n
  {
    if width > 0 {
      assert n / 256 < Limit(width - 1);
      NumberOfBigEndian(n / 256, width - 1);
      LastByte(n, width);
      var s := BigEndian(n, width);
      assert s[..width - 1] == BigEndian(n / 256, width - 1);
    }
  }

  lemma {:induction false} BigEndianOfNumber(s: seq<octet>)
    ensures Number(s) < Limit(|s|) && BigEndian(Number(s), |s|) == s
  {
    if s != [] {
      var n := |s| - 1;
      BigEndianOfNumber(s[..n]);
      assert Number(s) / 256 == Number(s[..n]) && Number(s) % 256 == s[n] as int;
      LastByte(Number(s), |s|);
      assert s == s[..n] + [s[n]];
    }
  }

  /** A count or a length: PutUint64 of a Go length, which is below 2^63. */
  function Word(n: nat): (r: seq<octet>)
    ensures |r| == 8
  {
    BigEndian(n, 8)
  }

  lemma WordReads(n: nat)
    requires n < WORD
    ensures Number(Word(n)) == n
  {
    WordIsEightBytes();
    NumberOfBigEndian(n, 8);
  }

  lemma WordWrites(s: seq<octet>)
    requires |s| == 8
    ensures Number(s) < WORD && Word(Number(s)) == s
  {
    WordIsEightBytes();
    BigEndianOfNumber(s);
  }

  /** Two words in front of anything tell their numbers apart. */
  lemma WordCancels(m: nat, x: string, n: nat, y: string)
    requires m < WORD && n < WORD && Word(m) + x == Word(n) + y
    ensures m == n && x == y
  {
    assert Word(m) == (Word(m) + x)[..8] && Word(n) == (Word(n) + y)[..8];
    assert x == (Word(m) + x)[8..] && y == (Word(n) + y)[8..];
    WordReads(m);
    WordReads(n);
  }

  function Frame(s: string): (r: string) {
    Word(|s|) + s
  }

  /** Where a frame ends is decided by what it says, not by what follows it. */
  lemma FrameCancels(a: string, x: string, b: string, y: string)
    requires |a| < WORD && |b| < WORD && Frame(a) + x == Frame(b) + y
    ensures a == b && x == y
  {
    assert Frame(a) + x == Word(|a|) + (a + x) && Frame(b) + y == Word(|b|) + (b + y);
    WordCancels(|a|, a + x, |b|, b + y);
    assert a == (a + x)[..|a|] && b == (b + y)[..|b|];
    assert x == (a + x)[|a|..] && y == (b + y)[|b|..];
  }
}
