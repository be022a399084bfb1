/**
 The heads of CBOR data items (section 3 of RFC 8949): a major type and an unsigned
 argument, written in the shortest of five widths and read in any of them.
 */
module Cbor {
  import opened Base

  type Major = x: int | 0 <= x < 8

  const UNSIGNED: Major := 0
  const BYTES: Major := 2
  const ARRAY: Major := 4
  const TAG: Major := 6

  function BigEndian(n: nat, width: nat): seq<Byte>
    decreases width
  {
    if width == 0 then [] else BigEndian(n / 256, width - 1) + [n % 256]
  }

  function FromBigEndian(s: seq<Byte>): nat {
    if s == [] then 0 else FromBigEndian(s[..|s| - 1]) * 256 + s[|s| - 1]
  }

  function Head(major: Major, n: U64): seq<Byte> {
    if n < 24 then [major * 32 + n]
    else if n < 0x100 then [major * 32 + 24] + BigEndian(n, 1)
    else if n < 0x1_0000 then [major * 32 + 25] + BigEndian(n, 2)
    else if n < 0x1_0000_0000 then [major * 32 + 26] + BigEndian(n, 4)
    else [major * 32 + 27] + BigEndian(n, 8)
  }

  datatype Item = Item(major: Major, argument: nat, rest: seq<Byte>)

  function Wide(s: seq<Byte>, width: nat): Option<Item>
    requires s != []
  {
    if |s| < 1 + width then None
    else Some(Item(s[0] / 32, FromBigEndian(s[1..1 + width]), s[1 + width..]))
  }

  /** Widths 28 to 30 are reserved; 31 starts an item of indefinite length. */
  function ReadHead(s: seq<Byte>): (r: Option<Item>)
    ensures r.Some? ==> |r.value.rest| < |s|
  {
    if s == [] then None else
    var info := s[0] % 32;
    if info < 24 then Some(Item(s[0] / 32, info, s[1..]))
    else if info == 24 then Wide(s, 1)
    else if info == 25 then Wide(s, 2)
    else if info == 26 then Wide(s, 4)
    else if info == 27 then Wide(s, 8)
    else None
  }

  function Pow256(k: nat): nat {
    if k == 0 then 1 else 256 * Pow256(k - 1)
  }

  lemma {:induction false} BigEndianRoundTrip(n: nat, width: nat)
    requires n < Pow256(width)
    ensures |BigEndian(n, width)| == width
    ensures FromBigEndian(BigEndian(n, width)) == n
    decreases width
  {
    if width > 0 {
      BigEndianRoundTrip(n / 256, width - 1);
      var s := BigEndian(n, width);
      assert s[..|s| - 1] == BigEndian(n / 256, width - 1);
    }
  }

  lemma ReadWide(major: Major, n: nat, width: nat, info: nat, rest: seq<Byte>)
    requires n < Pow256(width) && info < 32
    ensures Wide([major * 32 + info] + BigEndian(n, width) + rest, width) == Some(Item(major, n, rest))
  {
    BigEndianRoundTrip(n, width);
    var s := [major * 32 + info] + BigEndian(n, width) + rest;
    assert s[1..1 + width] == BigEndian(n, width);
    assert s[1 + width..] == rest;
  }

  lemma PowersOf256()
    ensures Pow256(1) == 0x100 && Pow256(2) == 0x1_0000 && Pow256(4) == 0x1_0000_0000 && Pow256(8) == TWO_64
  {
    assert Pow256(2) == 0x1_0000;
    assert Pow256(4) == 0x1_0000_0000;
    assert Pow256(6) == 0x1_0000_0000_0000;
  }

  lemma WideHead(major: Major, n: nat, width: nat, info: nat, rest: seq<Byte>)
    requires n < Pow256(width)
    requires (info, width) in {(24, 1), (25, 2), (26, 4), (27, 8)}
    ensures ReadHead([major * 32 + info] + BigEndian(n, width) + rest) == Some(Item(major, n, rest))
  {
    ReadWide(major, n, width, info, rest);
  }

  /** Reading a head undoes writing it, whatever follows. */
  lemma HeadRoundTrip(major: Major, n: U64, rest: seq<Byte>)
    ensures ReadHead(Head(major, n) + rest) == Some(Item(major, n, rest))
  {
    PowersOf256();
    if n < 24 {
      assert (Head(major, n) + rest)[1..] == rest;
    } else if n < 0x100 {
      WideHead(major, n, 1, 24, rest);
    } else if n < 0x1_0000 {
      WideHead(major, n, 2, 25, rest);
    } else if n < 0x1_0000_0000 {
      WideHead(major, n, 4, 26, rest);
    } else {
      WideHead(major, n, 8, 27, rest);
    }
  }

  /** Two heads followed by anything are equal only when they and what follows are equal. */
  lemma HeadInjective(m1: Major, n1: U64, r1: seq<Byte>, m2: Major, n2: U64, r2: seq<Byte>)
    requires Head(m1, n1) + r1 == Head(m2, n2) + r2
    ensures m1 == m2 && n1 == n2 && r1 == r2
  {
    HeadRoundTrip(m1, n1, r1);
    HeadRoundTrip(m2, n2, r2);
  }

  // ---------------------------------------------------------------------------------
  // Byte by byte

  /** What follows the first byte, by its low five bits. */
  function ExtraBytes(info: int): nat {
    if info < 24 then 0 else if info == 24 then 1 else if info == 25 then 2 else if info == 26 then 4 else 8
  }

  lemma {:induction false} BigEndianSplits(n: nat, width: nat, low: nat)
    requires low <= width
    ensures BigEndian(n, width) == BigEndian(DropBytes(n, low), width - low) + BigEndian(n, low)
    decreases low
  {
    if low > 0 {
      BigEndianSplits(n / 256, width - 1, low - 1);
    } else {
      assert BigEndian(n, width) + [] == BigEndian(n, width);
    }
  }

  /** The number without its `k` lowest bytes. */
  function DropBytes(n: nat, k: nat): nat {
    if k == 0 then n else DropBytes(n / 256, k - 1)
  }

  /** Byte `i` of a big-endian number is its base-256 digit of weight `width - 1 - i`. */
  lemma BigEndianByte(n: nat, width: nat, i: nat)
    requires i < width
    ensures |BigEndian(n, width)| == width
    ensures BigEndian(n, width)[i] == DropBytes(n, width - 1 - i) % 256
  {
    var low := width - 1 - i;
    BigEndianSplits(n, width, low);
    BigEndianLength(DropBytes(n, low), width - low);
    BigEndianLength(n, low);
    BigEndianLength(n, width);
  }

  lemma {:induction false} BigEndianLength(n: nat, width: nat)
    ensures |BigEndian(n, width)| == width
    decreases width
  {
    if width > 0 {
      BigEndianLength(n / 256, width - 1);
    }
  }

  /** The low five bits of the first byte: a small argument itself, or the width of a larger one. */
  function Info(n: U64): int {
    if n < 24 then n
    else if n < 0x100 then 24
    else if n < 0x1_0000 then 25
    else if n < 0x1_0000_0000 then 26
    else 27
  }

  /** The format of section 3 of RFC 8949: major type and low bits in one byte, then the argument, highest byte first. */
  lemma HeadFormat(major: Major, n: U64)
    ensures Head(major, n) == [major * 32 + Info(n)] + BigEndian(n, ExtraBytes(Info(n)))
  {
    if n < 24 {
      assert BigEndian(n, 0) == [];
    }
  }

  /** A head is read if and only if its width is one of the five and its bytes are there. */
  lemma HeadAccepted(s: seq<Byte>)
    ensures ReadHead(s).Some? <==> s != [] && s[0] % 32 < 28 && |s| >= 1 + ExtraBytes(s[0] % 32)
    ensures ReadHead(s).Some? ==>
              var (item, info) := (ReadHead(s).value, s[0] % 32);
              && item.major == s[0] / 32 && item.rest == s[1 + ExtraBytes(info)..]
              && item.argument == if info < 24 then info else FromBigEndian(s[1..1 + ExtraBytes(info)])
  {
  }
}
