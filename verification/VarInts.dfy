/**
 The variable-length integers of CIP-19: base 128, most significant digit first, every byte
 but the last with its high bit set.
 */
module VarInts {
  import opened Base

  // ---------------------------------------------------------------------------------
  // Encoding

  function Continued(m: nat): seq<Byte> {
    if m == 0 then [] else Continued(m / 128) + [128 + m % 128]
  }

  function Encode(n: U64): seq<Byte> {
    Continued(n / 128) + [n % 128]
  }

  function EncodeAll(ns: seq<U64>): seq<Byte> {
    if ns == [] then [] else Encode(ns[0]) + EncodeAll(ns[1..])
  }

  function ShiftRight(x: U64, k: nat): U64 {
    if k == 0 then x else ShiftRight(x, k - 1) / 2
  }

  /** Shifting seven further is dropping one base-128 digit. */
  lemma ShiftSeven(x: U64, k: nat)
    ensures ShiftRight(x, k + 7) == ShiftRight(x, k) / 128
  {
    var y := ShiftRight(x, k);
    assert ShiftRight(x, k + 2) == y / 4;
    assert ShiftRight(x, k + 4) == y / 16;
    assert ShiftRight(x, k + 6) == y / 64;
  }

  lemma ShiftBelow(x: U64, k: nat, bound: nat)
    requires ShiftRight(x, k) < 128 * bound
    ensures ShiftRight(x, k + 7) < bound
  {
    ShiftSeven(x, k);
  }

  lemma Shift70(x: U64)
    ensures ShiftRight(x, 70) == 0
  {
    ShiftBelow(x, 0, 0x200_0000_0000_0000);
    ShiftBelow(x, 7, 0x4_0000_0000_0000);
    ShiftBelow(x, 14, 0x800_0000_0000);
    ShiftBelow(x, 21, 0x10_0000_0000);
    ShiftBelow(x, 28, 0x2000_0000);
    ShiftBelow(x, 35, 0x40_0000);
    ShiftBelow(x, 42, 0x8000);
    ShiftBelow(x, 49, 0x100);
    ShiftBelow(x, 56, 2);
    ShiftBelow(x, 63, 1);
  }

  /** A byte with its high bit set. */
  function OrHighBit(b: Byte): Byte {
    if b < 128 then b + 128 else b
  }

  class VarIntEncoder {
    var data: seq<Byte>

    constructor ()
      ensures data == []
    {
      data := [];
    }

    method Push(num: U64)
      modifies this
      ensures data == old(data) + Encode(num)
    {
      var len := DigitsEnd(num);
      ghost var pushed: seq<Byte> := [];
      while len > 7
        invariant len >= 7 && (len > 7 ==> len >= 14 && ShiftRight(num, len - 7) != 0)
        invariant len % 7 == 0
        invariant pushed == Continued(ShiftRight(num, len))
        invariant data == old(data) + pushed
        decreases len
      {
        len := len - 7;
        NextByte(num, len);
        var byte := OrHighBit(ShiftRight(num, len) % 256);
        pushed := pushed + [byte];
        data := data + [byte];
      }
      ShiftSeven(num, 0);
      data := data + [num % 128];
    }
  }

  /** The least multiple of seven that shifts the number to zero. */
  method DigitsEnd(num: U64) returns (len: nat)
    ensures len % 7 == 0 && len >= 7
    ensures len > 7 ==> len >= 14 && ShiftRight(num, len - 7) != 0
    ensures Continued(ShiftRight(num, len)) == []
  {
    len := 7;
    while len != 70 && ShiftRight(num, len) != 0
      invariant 7 <= len <= 70 && len % 7 == 0
      invariant len > 7 ==> ShiftRight(num, len - 7) != 0
    {
      len := len + 7;
    }
    NothingAbove(num, len);
  }

  lemma NothingAbove(num: U64, len: nat)
    requires len == 70 || ShiftRight(num, len) == 0
    ensures Continued(ShiftRight(num, len)) == []
  {
    if len == 70 {
      Shift70(num);
    }
  }

  lemma SplitDigit(v: nat, d: nat)
    requires d < 128
    ensures (128 * v + d) / 128 == v && (128 * v + d) % 128 == d
  {
  }

  lemma HighBitOfLowByte(x: nat)
    ensures OrHighBit(x % 256) == 128 + x % 128
  {
    var q, y := x / 256, x % 256;
    var d := if y < 128 then y else y - 128;
    assert x == 128 * (2 * q + (if y < 128 then 0 else 1)) + d;
    SplitDigit(2 * q + (if y < 128 then 0 else 1), d);
  }

  /** The byte pushed at a shift is the next digit of the encoding. */
  lemma NextByte(num: U64, len: nat)
    requires ShiftRight(num, len) != 0
    ensures Continued(ShiftRight(num, len)) ==
            Continued(ShiftRight(num, len + 7)) + [OrHighBit(ShiftRight(num, len) % 256)]
    ensures len >= 7 ==> ShiftRight(num, len - 7) != 0
  {
    HighBitOfLowByte(ShiftRight(num, len));
    ShiftSeven(num, len);
    if len >= 7 {
      ShiftSeven(num, len - 7);
    }
  }

  // ---------------------------------------------------------------------------------
  // Decoding

  /** One more byte shifted in; bits pushed out of the word are lost. */
  function ShiftIn(value: U64, b: Byte): U64 {
    (value * 128) % TWO_64 + b % 128
  }

  function ReadFrom(s: seq<Byte>, value: U64): Option<(U64, seq<Byte>)> {
    if s == [] then None
    else if s[0] < 128 then Some((ShiftIn(value, s[0]), s[1..]))
    else ReadFrom(s[1..], ShiftIn(value, s[0]))
  }

  function ReadMany(s: seq<Byte>, count: nat): Option<(seq<U64>, seq<Byte>)>
    decreases count
  {
    if count == 0 then Some(([], s)) else
    match ReadFrom(s, 0)
    case None => None
    case Some((n, rest)) =>
      match ReadMany(rest, count - 1)
      case None => None
      case Some((ns, rest')) => Some(([n] + ns, rest'))
  }

  class VarIntDecoder {
    const data: seq<Byte>
    var position: nat

    ghost predicate Valid()
      reads this
    {
      position <= |data|
    }

    constructor (data: seq<Byte>)
      ensures this.data == data && position == 0 && Valid()
    {
      this.data := data;
      position := 0;
    }

    /** What `ReadFrom` finds in the rest of the data, with the cursor left after it, or at the end when it runs out. */
    method Read() returns (r: Option<U64>)
      requires Valid()
      modifies this`position
      ensures Valid()
      ensures match ReadFrom(old(data[position..]), 0)
              case None => r == None && position == |data|
              case Some((n, rest)) => r == Some(n) && data[position..] == rest
    {
      var value: U64 := 0;
      while position < |data|
        invariant Valid()
        invariant ReadFrom(data[position..], value) == ReadFrom(old(data[position..]), 0)
        decreases |data| - position
      {
        var byte := data[position];
        assert data[position..][1..] == data[position + 1..];
        position := position + 1;
        value := ShiftIn(value, byte);
        if byte < 128 {
          return Some(value);
        }
      }
      r := None;
    }
  }

  // ---------------------------------------------------------------------------------
  // Round trip

  lemma ShiftInDigit(m: nat, b: Byte)
    requires m * 128 < TWO_64
    ensures ShiftIn(m, b) == m * 128 + b % 128
  {
  }

  /** Shifting the last digit back in after the others gives the number again. */
  lemma LastDigitBack(m: U64)
    ensures ShiftIn(m / 128, m % 128) == m == ShiftIn(m / 128, 128 + m % 128)
  {
    ShiftInDigit(m / 128, m % 128);
    ShiftInDigit(m / 128, 128 + m % 128);
  }

  lemma ReadOneByte(b: Byte, rest: seq<Byte>, value: U64)
    ensures ReadFrom([b] + rest, value) ==
            if b < 128 then Some((ShiftIn(value, b), rest)) else ReadFrom(rest, ShiftIn(value, b))
  {
    assert ([b] + rest)[1..] == rest;
  }

  lemma {:induction false} ReadContinued(m: U64, rest: seq<Byte>)
    ensures ReadFrom(Continued(m) + rest, 0) == ReadFrom(rest, m)
    decreases m
  {
    if m == 0 {
      assert Continued(m) + rest == rest;
    } else {
      var b: Byte := 128 + m % 128;
      assert Continued(m) + rest == Continued(m / 128) + ([b] + rest);
      ReadContinued(m / 128, [b] + rest);
      ReadOneByte(b, rest, m / 128);
      LastDigitBack(m);
    }
  }

  /** Reading undoes writing, whatever follows. */
  lemma ReadEncoded(n: U64, rest: seq<Byte>)
    ensures ReadFrom(Encode(n) + rest, 0) == Some((n, rest))
  {
    assert Encode(n) + rest == Continued(n / 128) + ([n % 128] + rest);
    ReadContinued(n / 128, [n % 128] + rest);
    ReadOneByte(n % 128, rest, n / 128);
    LastDigitBack(n);
  }

  /** Reading as many integers as were written gives them back and leaves exactly what follows. */
  lemma {:induction false} ReadAllEncoded(ns: seq<U64>, rest: seq<Byte>)
    ensures ReadMany(EncodeAll(ns) + rest, |ns|) == Some((ns, rest))
  {
    if ns == [] {
      assert EncodeAll(ns) + rest == rest;
    } else {
      assert EncodeAll(ns) + rest == Encode(ns[0]) + (EncodeAll(ns[1..]) + rest);
      ReadEncoded(ns[0], EncodeAll(ns[1..]) + rest);
      ReadAllEncoded(ns[1..], rest);
      assert [ns[0]] + ns[1..] == ns;
    }
  }

  /** No encoding is a prefix of another. */
  lemma EncodingPrefixFree(a: U64, b: U64)
    requires Encode(a) <= Encode(b)
    ensures a == b
  {
    var rest := Encode(b)[|Encode(a)|..];
    assert Encode(b) == Encode(a) + rest;
    ReadEncoded(a, rest);
    ReadEncoded(b, []);
    assert Encode(b) + [] == Encode(b);
  }

  // ---------------------------------------------------------------------------------
  // Length

  function Pow128(k: nat): nat {
    if k == 0 then 1 else 128 * Pow128(k - 1)
  }

  lemma {:induction false} ContinuedLength(m: nat, k: nat)
    requires m < Pow128(k)
    ensures |Continued(m)| <= k
    decreases m
  {
    if m > 0 {
      ContinuedLength(m / 128, k - 1);
    }
  }

  lemma EncodeLength(n: U64, k: nat)
    requires k >= 1 && n < Pow128(k)
    ensures 1 <= |Encode(n)| <= k
  {
    ContinuedLength(n / 128, k - 1);
  }

  lemma LengthOneToTen(n: U64)
    ensures 1 <= |Encode(n)| <= 10
  {
    assert Pow128(2) == 0x4000;
    assert Pow128(4) == 0x1000_0000;
    assert Pow128(6) == 0x400_0000_0000;
    assert Pow128(8) == 0x100_0000_0000_0000;
    EncodeLength(n, 10);
  }

  /** The least number with more than `k` digits after the digits of `v`. */
  function Scaled(v: nat, k: nat): nat
    decreases k
  {
    if k == 0 then v else Scaled(128 * v, k - 1)
  }

  lemma {:induction false} ScaledMonotone(v: nat, w: nat, k: nat)
    requires v <= w
    ensures Scaled(v, k) <= Scaled(w, k)
    decreases k
  {
    if k > 0 {
      ScaledMonotone(128 * v, 128 * w, k - 1);
    }
  }

  lemma {:induction false} ScaledBy128(v: nat, k: nat)
    ensures Scaled(128 * v, k) == 128 * Scaled(v, k)
    decreases k
  {
    if k > 0 {
      ScaledBy128(128 * v, k - 1);
    }
  }

  lemma {:induction false} ScaledOne(k: nat)
    ensures Scaled(1, k) == Pow128(k)
  {
    if k > 0 {
      ScaledOne(k - 1);
      ScaledBy128(1, k - 1);
    }
  }

  lemma {:induction false} ReadBound(s: seq<Byte>, value: U64)
    requires ReadFrom(s, value).Some?
    ensures var (n, rest) := ReadFrom(s, value).value;
            |rest| < |s| && n < Scaled(value + 1, |s| - |rest|)
  {
    var value' := ShiftIn(value, s[0]);
    assert value' + 1 <= 128 * (value + 1);
    if s[0] >= 128 {
      ReadBound(s[1..], value');
      var (n, rest) := ReadFrom(s[1..], value').value;
      ScaledMonotone(value' + 1, 128 * (value + 1), |s| - 1 - |rest|);
    }
  }

  /** No byte string that reads as `n` is shorter than its encoding. */
  lemma EncodingShortest(s: seq<Byte>, n: U64)
    requires ReadFrom(s, 0) == Some((n, []))
    ensures |Encode(n)| <= |s|
  {
    ReadBound(s, 0);
    ScaledOne(|s|);
    EncodeLength(n, |s|);
  }

  // ---------------------------------------------------------------------------------
  // Canonical form

  /** The value of base-128 digits, whatever their high bits. */
  function DigitsValue(s: seq<Byte>): nat {
    if s == [] then 0 else 128 * DigitsValue(s[..|s| - 1]) + s[|s| - 1] % 128
  }

  predicate HighBitsSet(s: seq<Byte>) {
    forall i :: 0 <= i < |s| ==> s[i] >= 128
  }

  /** The value lies between its leading digit followed by zeros and the next digit followed by zeros. */
  lemma {:induction false} ValueByLead(s: seq<Byte>)
    requires s != []
    ensures Scaled(s[0] % 128, |s| - 1) <= DigitsValue(s) < Scaled(s[0] % 128 + 1, |s| - 1)
  {
    if |s| > 1 {
      var init, k := s[..|s| - 1], |s| - 2;
      ValueByLead(init);
      ScaledBy128(s[0] % 128, k);
      ScaledBy128(s[0] % 128 + 1, k);
    }
  }

  lemma {:induction false} ScaledGrows(v: nat, k: nat, l: nat)
    requires k <= l
    ensures Scaled(v, k) <= Scaled(v, l)
    decreases l
  {
    if k < l {
      ScaledGrows(v, k, l - 1);
      ScaledBy128(v, l - 1);
    }
  }

  lemma ScaledToNine(v: nat)
    ensures Scaled(v, 8) == 0x100_0000_0000_0000 * v
  {
    assert Scaled(v, 4) == 0x1000_0000 * v;
    assert Scaled(v, 8) == Scaled(0x1000_0000 * v, 4);
  }

  lemma JoinDigit(m: nat)
    ensures 128 * (m / 128) + (128 + m % 128) % 128 == m
  {
  }

  lemma ContinuedAppend(v: nat, b: Byte)
    requires b >= 128 && (v > 0 || b > 128)
    ensures Continued(128 * v + b % 128) == Continued(v) + [b]
  {
    SplitDigit(v, b % 128);
  }

  /** Digits without a leading zero are written back as they were. */
  lemma {:induction false} ContinuedBack(s: seq<Byte>)
    requires HighBitsSet(s) && (s != [] ==> s[0] != 128)
    ensures Continued(DigitsValue(s)) == s
    ensures s != [] ==> DigitsValue(s) > 0
  {
    if s != [] {
      var init, last := s[..|s| - 1], s[|s| - 1];
      ContinuedBack(init);
      ContinuedAppend(DigitsValue(init), last);
      assert s == init + [last];
    }
  }

  lemma ValueAppend(s: seq<Byte>, b: Byte)
    ensures DigitsValue(s + [b]) == 128 * DigitsValue(s) + b % 128
  {
    assert (s + [b])[..|s|] == s;
  }

  lemma {:induction false} ContinuedValue(m: nat)
    ensures DigitsValue(Continued(m)) == m
  {
    if m > 0 {
      ContinuedValue(m / 128);
      JoinDigit(m);
      ValueAppend(Continued(m / 128), 128 + m % 128);
    }
  }

  lemma {:induction false} ContinuedLead(m: nat)
    requires m > 0
    ensures Continued(m) != [] && Continued(m)[0] > 128
  {
    if m >= 128 {
      ContinuedLead(m / 128);
    } else {
      assert Continued(m / 128) == [];
    }
  }

  /** No leading zero digit, at most ten bytes, and no bit of the tenth byte back that the word loses. */
  predicate Shortest(s: seq<Byte>) {
    && |s| <= 10
    && (|s| > 1 ==> s[0] != 128)
    && (|s| == 10 ==> s[0] == 129)
  }

  lemma {:induction false} ReadToEnd(s: seq<Byte>, value: U64)
    requires ReadFrom(s, value).Some? && ReadFrom(s, value).value.1 == []
    ensures s != [] && s[|s| - 1] < 128 && HighBitsSet(s[..|s| - 1])
  {
    if s[0] >= 128 {
      ReadToEnd(s[1..], ShiftIn(value, s[0]));
      assert s[..|s| - 1] == [s[0]] + s[1..][..|s| - 2];
    }
  }

  lemma EightDigits(s: seq<Byte>)
    requires 1 <= |s| <= 8
    ensures DigitsValue(s) < 0x100_0000_0000_0000
  {
    ValueByLead(s);
    ScaledMonotone(s[0] % 128 + 1, 128, |s| - 1);
    ScaledGrows(1, |s|, 8);
    ScaledToNine(1);
  }

  /** The digits before the last of a shortest form leave room for it in the word. */
  lemma ShortestFits(s: seq<Byte>)
    requires s != [] && Shortest(s) && HighBitsSet(s[..|s| - 1])
    ensures DigitsValue(s[..|s| - 1]) < 0x200_0000_0000_0000
  {
    var init := s[..|s| - 1];
    if |init| == 9 {
      ValueByLead(init);
      ScaledToNine(2);
    } else if init != [] {
      EightDigits(init);
    }
  }

  lemma EncodeOf(v: nat, last: Byte)
    requires v < 0x200_0000_0000_0000 && last < 128
    ensures 128 * v + last <= U64_MAX && Encode(128 * v + last) == Continued(v) + [last]
  {
    SplitDigit(v, last);
  }

  lemma ShortestIsEncoding(s: seq<Byte>) returns (n: U64)
    requires s != [] && Shortest(s) && s[|s| - 1] < 128 && HighBitsSet(s[..|s| - 1])
    ensures Encode(n) == s
  {
    var init, last := s[..|s| - 1], s[|s| - 1];
    ShortestFits(s);
    ContinuedBack(init);
    EncodeOf(DigitsValue(init), last);
    n := 128 * DigitsValue(init) + last;
    assert s == init + [last];
  }

  /** Ten bytes are needed only from two to the sixty-third, where the leading digit is one. */
  lemma LeadOfTen(m: nat)
    requires m < 0x200_0000_0000_0000 && |Continued(m)| == 9
    ensures Continued(m)[0] == 129
  {
    var lead := Continued(m)[0] % 128;
    ContinuedLead(m);
    ContinuedValue(m);
    ValueByLead(Continued(m));
    ScaledToNine(lead);
  }

  lemma EncodingIsShortest(n: U64)
    ensures Shortest(Encode(n))
  {
    LengthOneToTen(n);
    if n >= 128 {
      ContinuedLead(n / 128);
    }
    if |Encode(n)| == 10 {
      LeadOfTen(n / 128);
    }
  }

  lemma ShortestReads(s: seq<Byte>, n: U64)
    requires ReadFrom(s, 0) == Some((n, [])) && Shortest(s)
    ensures Encode(n) == s
  {
    ReadToEnd(s, 0);
    var m := ShortestIsEncoding(s);
    ReadEncoded(m, []);
    assert Encode(m) + [] == s;
  }

  /** Of the byte strings that read as a number, its encoding is the one in shortest form. */
  lemma EncodingCanonical(s: seq<Byte>, n: U64)
    requires ReadFrom(s, 0) == Some((n, []))
    ensures Encode(n) == s <==> Shortest(s)
  {
    if Shortest(s) {
      ShortestReads(s, n);
    } else {
      EncodingIsShortest(n);
    }
  }

  /** The bytes up to and including the first with its high bit clear. */
  function FirstInteger(s: seq<Byte>): (f: seq<Byte>)
    ensures |f| <= |s|
  {
    if s == [] then [] else if s[0] < 128 then [s[0]] else [s[0]] + FirstInteger(s[1..])
  }

  /** Exactly `count` integers, each in shortest form, and nothing after them. */
  predicate AllShortest(s: seq<Byte>, count: nat)
    decreases count
  {
    if count == 0 then s == []
    else Shortest(FirstInteger(s)) && AllShortest(s[|FirstInteger(s)|..], count - 1)
  }

  /** The first integer of `s` is `f`, and `rest` follows it. */
  ghost predicate StartsWith(s: seq<Byte>, f: seq<Byte>, rest: seq<Byte>, value: U64, n: U64) {
    s == f + rest && ReadFrom(f, value) == Some((n, []))
  }

  lemma LastByteFirst(b: Byte, rest: seq<Byte>, value: U64)
    requires b < 128
    ensures StartsWith([b] + rest, [b], rest, value, ShiftIn(value, b))
  {
    ReadOneByte(b, [], value);
    assert [b] + [] == [b];
  }

  lemma OneByteMore(b: Byte, s: seq<Byte>, f: seq<Byte>, rest: seq<Byte>, value: U64, n: U64)
    requires b >= 128 && StartsWith(s, f, rest, ShiftIn(value, b), n)
    ensures StartsWith([b] + s, [b] + f, rest, value, n)
  {
    ReadOneByte(b, f, value);
    assert [b] + s == [b] + f + rest;
  }

  lemma {:induction false} ReadFirstInteger(s: seq<Byte>, value: U64)
    requires ReadFrom(s, value).Some?
    ensures var (n, rest) := ReadFrom(s, value).value;
            StartsWith(s, FirstInteger(s), rest, value, n)
  {
    assert s == [s[0]] + s[1..];
    if s[0] >= 128 {
      var (n, rest) := ReadFrom(s[1..], ShiftIn(value, s[0])).value;
      ReadFirstInteger(s[1..], ShiftIn(value, s[0]));
      OneByteMore(s[0], s[1..], FirstInteger(s[1..]), rest, value, n);
    } else {
      LastByteFirst(s[0], s[1..], value);
    }
  }

  /** Integers read from bytes are written back as those bytes if and only if all are in shortest form and nothing follows. */
  lemma {:induction false} AllCanonical(s: seq<Byte>, count: nat)
    requires ReadMany(s, count).Some?
    ensures EncodeAll(ReadMany(s, count).value.0) == s <==> AllShortest(s, count)
    decreases count
  {
    if count > 0 {
      var (n, rest) := ReadFrom(s, 0).value;
      var (ns, _) := ReadMany(rest, count - 1).value;
      var first := FirstInteger(s);
      ReadFirstInteger(s, 0);
      assert s[|first|..] == rest;
      EncodingCanonical(first, n);
      AllCanonical(rest, count - 1);
      assert ([n] + ns)[1..] == ns;
      if Encode(n) + EncodeAll(ns) == s {
        ReadEncoded(n, EncodeAll(ns));
        assert Encode(n) == s[..|first|] == first;
      }
    }
  }

  // ---------------------------------------------------------------------------------
  // What any byte string reads as

  lemma {:induction false} ScaledAdds(x: nat, y: nat, k: nat)
    ensures Scaled(x + y, k) == Scaled(x, k) + Scaled(y, k)
    decreases k
  {
    if k > 0 {
      ScaledAdds(128 * x, 128 * y, k - 1);
      assert 128 * (x + y) == 128 * x + 128 * y;
    }
  }

  /** So many whole words. */
  function Words(q: nat): nat {
    q * TWO_64
  }

  lemma {:induction false} ScaledWords(q: nat, k: nat)
    ensures Scaled(Words(q), k) == Words(Scaled(q, k))
    decreases k
  {
    if k > 0 {
      ScaledWords(128 * q, k - 1);
      assert 128 * Words(q) == Words(128 * q);
    }
  }

  lemma {:induction false} ValueFront(s: seq<Byte>)
    requires s != []
    ensures DigitsValue(s) == Scaled(s[0] % 128, |s| - 1) + DigitsValue(s[1..])
  {
    if |s| > 1 {
      var last := |s| - 1;
      ValueFront(s[..last]);
      ScaledBy128(s[0] % 128, last - 1);
      assert s[..last][1..] == s[1..][..last - 1];
    }
  }

  lemma ShiftInLoses(value: U64, b: Byte) returns (q: nat)
    ensures 128 * value + b % 128 == ShiftIn(value, b) + Words(q)
  {
    q := value * 128 / TWO_64;
  }

  /** Any byte string reads as the value of its digits, less the whole words that do not fit. */
  lemma {:induction false} ReadValue(s: seq<Byte>, value: U64) returns (k: nat)
    requires ReadFrom(s, value).Some? && ReadFrom(s, value).value.1 == []
    ensures Scaled(value, |s|) + DigitsValue(s) == ReadFrom(s, value).value.0 + Words(k)
  {
    var b, r := s[0], |s| - 1;
    var v := ShiftIn(value, b);
    var q := ShiftInLoses(value, b);
    ValueFront(s);
    ScaledAdds(128 * value, b % 128, r);
    ScaledAdds(v, Words(q), r);
    ScaledWords(q, r);
    if b >= 128 {
      k := ReadValue(s[1..], v);
      k := k + Scaled(q, r);
    } else {
      assert s[1..] == [];
      k := q;
    }
  }

  /** The number read is the base-128 value of the bytes, highest first, modulo the word. */
  lemma ReadIsValue(s: seq<Byte>, n: U64)
    requires ReadFrom(s, 0) == Some((n, []))
    ensures exists k: nat :: DigitsValue(s) == n + Words(k)
  {
    var k := ReadValue(s, 0);
    ScaledZero(|s|);
  }

  lemma {:induction false} ScaledZero(k: nat)
    ensures Scaled(0, k) == 0
  {
    if k > 0 {
      ScaledZero(k - 1);
    }
  }
}
