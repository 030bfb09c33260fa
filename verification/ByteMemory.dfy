/** Byte-addressed memory holding little-endian 32-bit words at any, possibly unaligned, address. */
module ByteMemory {
  import opened Words

  function LittleEndian(bs: seq<byte>): nat {
    if bs == [] then 0 else bs[0] as int + 0x100 * LittleEndian(bs[1..])
  }

  lemma LittleEndianWord(bs: seq<byte>)
    requires |bs| == 4
    ensures LittleEndian(bs)
            == bs[0] as int + 0x100 * bs[1] as int + 0x1_0000 * bs[2] as int + 0x100_0000 * bs[3] as int
  {
    assert LittleEndian(bs[1..][1..][1..]) == bs[3] as int + 0x100 * LittleEndian(bs[1..][1..][1..][1..]);
    assert LittleEndian(bs[1..][1..]) == bs[2] as int + 0x100 * LittleEndian(bs[1..][1..][1..]);
  }

  function Word(m: seq<byte>, a: nat): (w: uint32)
    requires a + 4 <= |m|
  {
    LittleEndianWord(m[a..a + 4]);
    LittleEndian(m[a..a + 4])
  }

  ghost predicate SameOutside(m: seq<byte>, m': seq<byte>, lo: int, hi: int) {
    |m'| == |m| && forall b :: 0 <= b < |m| && !(lo <= b < hi) ==> m'[b] == m[b]
  }

  lemma WordStands(m: seq<byte>, m': seq<byte>, a: nat)
    requires a + 4 <= |m| == |m'| && forall b :: a <= b < a + 4 ==> m'[b] == m[b]
    ensures Word(m', a) == Word(m, a)
  {
    assert m'[a..a + 4] == m[a..a + 4];
  }

  lemma Digits(v: uint32)
    ensures v == v % 0x100 + 0x100 * (v / 0x100 % 0x100)
                 + 0x1_0000 * (v / 0x1_0000 % 0x100) + 0x100_0000 * (v / 0x100_0000)
    ensures v / 0x100_0000 < 0x100
  {
  }

  function Encode(v: uint32): (bs: seq<byte>)
    ensures |bs| == 4 && LittleEndian(bs) == v
  {
    Digits(v);
    var bs: seq<byte> := [v % 0x100, v / 0x100 % 0x100, v / 0x1_0000 % 0x100, v / 0x100_0000];
    LittleEndianWord(bs);
    bs
  }

  method PutWord(m: seq<byte>, a: nat, v: uint32) returns (m': seq<byte>)
    requires a + 4 <= |m|
    ensures SameOutside(m, m', a, a + 4)
    ensures Word(m', a) == v
  {
    m' := m[..a] + Encode(v) + m[a + 4..];
    assert m'[a..a + 4] == Encode(v);
  }
}
