/**
 Binary addresses as laid out in CIP-19: a header byte with the address type in its high
 nibble and the network in its low one, then the payment hash, then the delegation part.
 */
module Addresses {
  import opened Base
  import opened VarInts
  import opened Cbor

  datatype PaymentPart = PaymentKeyHash(hash: Hash28) | PaymentScriptHash(hash: Hash28)

  datatype Pointer = Pointer(slot: U64, txIndex: U64, certIndex: U64)

  datatype DelegationPart =
    | NoDelegation
    | StakeKeyHash(hash: Hash28)
    | StakeScriptHash(hash: Hash28)
    | ToPointer(pointer: Pointer)

  datatype ShelleyAddress = ShelleyAddress(network: NetworkId, payment: PaymentPart, delegation: DelegationPart)

  datatype ByronAddress = ByronAddress(payload: seq<Byte>)

  datatype Address =
    | NoAddress
    | Byron(byron: ByronAddress)
    | Shelley(shelley: ShelleyAddress)
    | Stake(stake: StakeAddress)

  /** `SliceOutOfRange` is where a short input makes the node's slicing panic. */
  datatype AddressError =
    | EmptyBytes | HighBitSet | BadNetworkBits | SliceOutOfRange | VarIntRanOut | BadLength | UnknownHeader

  function NetworkBit(n: NetworkId): Byte {
    if n == Mainnet then 1 else 0
  }

  // ---------------------------------------------------------------------------------
  // Shelley addresses

  function DelegationBits(d: DelegationPart): Byte {
    match d
    case StakeKeyHash(_) => 0
    case StakeScriptHash(_) => 1
    case ToPointer(_) => 2
    case NoDelegation => 3
  }

  function PaymentBits(p: PaymentPart): Byte {
    if p.PaymentKeyHash? then 0 else 1
  }

  function ShelleyHeader(a: ShelleyAddress): Byte {
    (DelegationBits(a.delegation) * 2 + PaymentBits(a.payment)) * 16 + NetworkBit(a.network)
  }

  /** The address types of CIP-19, and the network tag below them. */
  lemma HeaderFollowsCip19(a: ShelleyAddress)
    ensures ShelleyHeader(a) % 16 == if a.network == Mainnet then 1 else 0
    ensures ShelleyHeader(a) / 16 ==
            match (a.payment, a.delegation)
            case (PaymentKeyHash(_), StakeKeyHash(_)) => 0
            case (PaymentScriptHash(_), StakeKeyHash(_)) => 1
            case (PaymentKeyHash(_), StakeScriptHash(_)) => 2
            case (PaymentScriptHash(_), StakeScriptHash(_)) => 3
            case (PaymentKeyHash(_), ToPointer(_)) => 4
            case (PaymentScriptHash(_), ToPointer(_)) => 5
            case (PaymentKeyHash(_), NoDelegation) => 6
            case (PaymentScriptHash(_), NoDelegation) => 7
  {
  }

  function DelegationBytes(d: DelegationPart): seq<Byte> {
    match d
    case NoDelegation => []
    case StakeKeyHash(hash) => hash
    case StakeScriptHash(hash) => hash
    case ToPointer(p) => EncodeAll([p.slot, p.txIndex, p.certIndex])
  }

  function ShelleyBytes(a: ShelleyAddress): seq<Byte> {
    [ShelleyHeader(a)] + a.payment.hash + DelegationBytes(a.delegation)
  }

  /** The header, the payment hash, then the delegation hash or the three integers of a pointer in order. */
  lemma ShelleyFormat(a: ShelleyAddress)
    ensures ShelleyBytes(a) ==
            [ShelleyHeader(a)] + a.payment.hash +
            match a.delegation
            case NoDelegation => []
            case StakeKeyHash(hash) => hash
            case StakeScriptHash(hash) => hash
            case ToPointer(p) => Encode(p.slot) + Encode(p.txIndex) + Encode(p.certIndex)
  {
    if a.delegation.ToPointer? {
      PointerBytes(a.delegation.pointer);
    }
  }

  function DelegationFrom(bits: int, data: seq<Byte>): Result<DelegationPart, AddressError>
    requires |data| >= 29
  {
    if bits == 0 || bits == 1 then
      if |data| < 57 then Err(SliceOutOfRange)
      else if bits == 0 then Ok(StakeKeyHash(data[29..57]))
      else Ok(StakeScriptHash(data[29..57]))
    else if bits == 2 then
      match ReadMany(data[29..], 3)
      case None => Err(VarIntRanOut)
      case Some((ns, _)) =>
        ReadManyCount(data[29..], 3);
        Ok(ToPointer(Pointer(ns[0], ns[1], ns[2])))
    else Ok(NoDelegation)
  }

  lemma {:induction false} ReadManyCount(s: seq<Byte>, count: nat)
    ensures ReadMany(s, count).Some? ==> |ReadMany(s, count).value.0| == count
    decreases count
  {
    if count > 0 && ReadFrom(s, 0).Some? {
      ReadManyCount(ReadFrom(s, 0).value.1, count - 1);
    }
  }

  /** The pointer as the node reads it, with a decoder moving along the bytes. */
  method ReadPointer(data: seq<Byte>) returns (r: Option<Pointer>)
    ensures r.Some? <==> ReadMany(data, 3).Some?
    ensures r.Some? ==> ReadMany(data, 3).value.0 == [r.value.slot, r.value.txIndex, r.value.certIndex]
  {
    var decoder := new VarIntDecoder(data);
    assert data[0..] == data;
    var slot := decoder.Read();
    if slot.None? {
      return None;
    }
    var txIndex := decoder.Read();
    if txIndex.None? {
      return None;
    }
    var certIndex := decoder.Read();
    if certIndex.None? {
      return None;
    }
    r := Some(Pointer(slot.value, txIndex.value, certIndex.value));
  }

  function ShelleyFromBytes(data: seq<Byte>): Result<ShelleyAddress, AddressError> {
    if data == [] then Err(EmptyBytes) else
    var header := data[0];
    if header >= 128 then Err(HighBitSet)
    else if header % 16 > 1 then Err(BadNetworkBits)
    else if |data| < 29 then Err(SliceOutOfRange)
    else
      var addrType := header / 16;
      var hash: Hash28 := data[1..29];
      var payment := if addrType % 2 == 0 then PaymentKeyHash(hash) else PaymentScriptHash(hash);
      match DelegationFrom(addrType / 2 % 4, data)
      case Err(e) => Err(e)
      case Ok(delegation) =>
        Ok(ShelleyAddress(if header % 16 == 0 then Testnet else Mainnet, payment, delegation))
  }

  method PushPointer(p: Pointer) returns (bytes: seq<Byte>)
    ensures bytes == EncodeAll([p.slot, p.txIndex, p.certIndex])
  {
    var encoder := new VarIntEncoder();
    encoder.Push(p.slot);
    encoder.Push(p.txIndex);
    encoder.Push(p.certIndex);
    bytes := encoder.data;
    PointerBytes(p);
  }

  method ToBytesKey(a: ShelleyAddress) returns (data: seq<Byte>)
    ensures data == ShelleyBytes(a)
  {
    data := [ShelleyHeader(a)];
    data := data + a.payment.hash;
    var tail: seq<Byte>;
    match a.delegation {
      case NoDelegation => tail := [];
      case StakeKeyHash(hash) => tail := hash;
      case StakeScriptHash(hash) => tail := hash;
      case ToPointer(p) => tail := PushPointer(p);
    }
    data := data + tail;
  }

  lemma PointerBytes(p: Pointer)
    ensures EncodeAll([p.slot, p.txIndex, p.certIndex]) == Encode(p.slot) + Encode(p.txIndex) + Encode(p.certIndex)
  {
    var ns := [p.slot, p.txIndex, p.certIndex];
    assert ns[1..] == [p.txIndex, p.certIndex];
    assert ns[1..][1..] == [p.certIndex];
    assert EncodeAll([p.certIndex]) == Encode(p.certIndex) + EncodeAll([]);
  }

  lemma HeaderParts(a: ShelleyAddress)
    ensures var h := ShelleyHeader(a);
            h < 128 && h % 16 == NetworkBit(a.network) && h / 16 % 2 == PaymentBits(a.payment)
            && h / 16 / 2 % 4 == DelegationBits(a.delegation)
  {
  }

  lemma HashRoundTrip(d: DelegationPart, data: seq<Byte>, rest: seq<Byte>)
    requires d.StakeKeyHash? || d.StakeScriptHash?
    requires |data| >= 29 && data[29..] == d.hash + rest
    ensures DelegationFrom(DelegationBits(d), data) == Ok(d)
  {
    assert data[29..57] == data[29..][..28] == d.hash;
  }

  lemma PointerRoundTrip(p: Pointer, data: seq<Byte>, rest: seq<Byte>)
    requires |data| >= 29 && data[29..] == EncodeAll([p.slot, p.txIndex, p.certIndex]) + rest
    ensures DelegationFrom(2, data) == Ok(ToPointer(p))
  {
    ReadAllEncoded([p.slot, p.txIndex, p.certIndex], rest);
  }

  lemma DelegationRoundTrip(d: DelegationPart, data: seq<Byte>, rest: seq<Byte>)
    requires |data| >= 29 && data[29..] == DelegationBytes(d) + rest
    ensures DelegationFrom(DelegationBits(d), data) == Ok(d)
  {
    match d
    case NoDelegation =>
    case ToPointer(p) => PointerRoundTrip(p, data, rest);
    case _ => HashRoundTrip(d, data, rest);
  }

  lemma Layout(header: Byte, hash: Hash28, tail: seq<Byte>)
    ensures var data := [header] + hash + tail;
            data[0] == header && data[1..29] == hash && data[29..] == tail
  {
  }

  /** Reading an address key gives back the address, for every pointer too; bytes after it are ignored. */
  lemma ShelleyRoundTrip(a: ShelleyAddress, rest: seq<Byte>)
    ensures ShelleyFromBytes(ShelleyBytes(a) + rest) == Ok(a)
  {
    var tail := DelegationBytes(a.delegation) + rest;
    var data := [ShelleyHeader(a)] + a.payment.hash + tail;
    assert ShelleyBytes(a) + rest == data;
    Layout(ShelleyHeader(a), a.payment.hash, tail);
    HeaderParts(a);
    DelegationRoundTrip(a.delegation, data, rest);
  }

  /** The delegation part is written as it must be: of its fixed length, or three shortest integers. */
  predicate CanonicalTail(bits: int, data: seq<Byte>)
    requires |data| >= 29
  {
    if bits == 2 then AllShortest(data[29..], 3)
    else if bits == 3 then |data| == 29
    else |data| == 57
  }

  lemma PointerCanonical(data: seq<Byte>)
    requires |data| >= 29 && DelegationFrom(2, data).Ok?
    ensures DelegationBytes(DelegationFrom(2, data).value) == data[29..] <==> AllShortest(data[29..], 3)
  {
    var ns := ReadMany(data[29..], 3).value.0;
    ReadManyCount(data[29..], 3);
    assert [ns[0], ns[1], ns[2]] == ns;
    AllCanonical(data[29..], 3);
  }

  lemma HashCanonical(bits: int, data: seq<Byte>)
    requires (bits == 0 || bits == 1) && |data| >= 29 && DelegationFrom(bits, data).Ok?
    ensures DelegationBytes(DelegationFrom(bits, data).value) == data[29..] <==> |data| == 57
  {
    if |data| == 57 {
      assert data[29..57] == data[29..];
    }
  }

  lemma DelegationCanonical(bits: int, data: seq<Byte>)
    requires 0 <= bits < 4 && |data| >= 29 && DelegationFrom(bits, data).Ok?
    ensures DelegationBytes(DelegationFrom(bits, data).value) == data[29..] <==> CanonicalTail(bits, data)
  {
    if bits == 2 {
      PointerCanonical(data);
    } else if bits < 2 {
      HashCanonical(bits, data);
    }
  }

  function TypeBits(data: seq<Byte>): int
    requires data != []
  {
    data[0] / 16 / 2 % 4
  }

  lemma ReadParts(data: seq<Byte>)
    requires ShelleyFromBytes(data).Ok?
    ensures |data| >= 29 && DelegationFrom(TypeBits(data), data).Ok?
    ensures var a := ShelleyFromBytes(data).value;
            && ShelleyHeader(a) == data[0] && a.payment.hash == data[1..29]
            && a.delegation == DelegationFrom(TypeBits(data), data).value
  {
  }

  /**
   A key that is read is written back byte for byte if and only if nothing follows the
   address and each pointer integer is in its shortest form.
   */
  lemma ShelleyCanonical(data: seq<Byte>)
    requires ShelleyFromBytes(data).Ok?
    ensures |data| >= 29
    ensures ShelleyBytes(ShelleyFromBytes(data).value) == data <==> CanonicalTail(TypeBits(data), data)
  {
    var a := ShelleyFromBytes(data).value;
    ReadParts(data);
    DelegationCanonical(TypeBits(data), data);
    assert data == [data[0]] + data[1..29] + data[29..];
    Layout(ShelleyHeader(a), a.payment.hash, DelegationBytes(a.delegation));
  }

  /** Bytes that end an integer. */
  function EndBytes(s: seq<Byte>): nat {
    if s == [] then 0 else (if s[0] < 128 then 1 else 0) + EndBytes(s[1..])
  }

  lemma {:induction false} ReadNeedsEnd(s: seq<Byte>, value: U64)
    ensures ReadFrom(s, value).Some? <==> EndBytes(s) >= 1
    ensures ReadFrom(s, value).Some? ==> EndBytes(ReadFrom(s, value).value.1) == EndBytes(s) - 1
  {
    if s != [] && s[0] >= 128 {
      ReadNeedsEnd(s[1..], ShiftIn(value, s[0]));
    }
  }

  lemma {:induction false} ReadManyNeedsEnds(s: seq<Byte>, count: nat)
    ensures ReadMany(s, count).Some? <==> EndBytes(s) >= count
    decreases count
  {
    if count > 0 {
      ReadNeedsEnd(s, 0);
      if ReadFrom(s, 0).Some? {
        ReadManyNeedsEnds(ReadFrom(s, 0).value.1, count - 1);
      }
    }
  }

  /** Exactly these byte strings are read as Shelley addresses. */
  lemma ShelleyAccepted(data: seq<Byte>)
    ensures ShelleyFromBytes(data).Ok? <==>
            && |data| >= 29 && data[0] < 128 && data[0] % 16 <= 1
            && (data[0] / 32 < 2 ==> |data| >= 57)
            && (data[0] / 32 == 2 ==> EndBytes(data[29..]) >= 3)
  {
    if |data| >= 29 {
      ReadManyNeedsEnds(data[29..], 3);
      if data[0] < 128 {
        HalvedType(data[0]);
      }
    }
  }

  lemma HalvedType(header: Byte)
    requires header < 128
    ensures header / 16 / 2 % 4 == header / 32
  {
  }

  // ---------------------------------------------------------------------------------
  // Stake addresses

  function StakeHeader(a: StakeAddress): Byte {
    NetworkBit(a.network) + (if a.credential.AddrKeyHash? then 14 else 15) * 16
  }

  function StakeBytes(a: StakeAddress): seq<Byte> {
    [StakeHeader(a)] + a.credential.hash
  }

  function StakeFromBinary(data: seq<Byte>): Result<StakeAddress, AddressError> {
    if |data| != 29 then Err(BadLength) else
    var network := if data[0] % 2 == 1 then Mainnet else Testnet;
    var hash: Hash28 := data[1..];
    if data[0] / 16 == 14 then Ok(StakeAddress(network, AddrKeyHash(hash)))
    else if data[0] / 16 == 15 then Ok(StakeAddress(network, ScriptHash(hash)))
    else Err(UnknownHeader)
  }

  /** The header bytes of CIP-19 for stake addresses, and the hash after them. */
  lemma StakeHeaderFollowsCip19(a: StakeAddress)
    ensures StakeBytes(a) ==
            match (a.network, a.credential)
            case (Testnet, AddrKeyHash(hash)) => [0xE0] + hash
            case (Mainnet, AddrKeyHash(hash)) => [0xE1] + hash
            case (Testnet, ScriptHash(hash)) => [0xF0] + hash
            case (Mainnet, ScriptHash(hash)) => [0xF1] + hash
  {
  }

  /** Exactly the strings of 29 bytes of one of the two stake address types are read. */
  lemma StakeAccepted(data: seq<Byte>)
    ensures StakeFromBinary(data).Ok? <==> |data| == 29 && data[0] >= 0xE0
    ensures StakeFromBinary(data).Ok? ==>
              var a := StakeFromBinary(data).value;
              && a.credential.hash == data[1..] && (a.credential.AddrKeyHash? <==> data[0] < 0xF0)
              && (a.network == Mainnet <==> data[0] % 2 == 1)
  {
  }

  lemma StakeRoundTrip(a: StakeAddress)
    ensures StakeFromBinary(StakeBytes(a)) == Ok(a)
  {
    assert StakeBytes(a)[1..] == a.credential.hash;
  }

  /**
   Reading is not the inverse on all bytes: three header bits are ignored. Writing back
   gives the input if and only if they are zero.
   */
  lemma StakeCanonical(data: seq<Byte>)
    requires StakeFromBinary(data).Ok?
    ensures StakeBytes(StakeFromBinary(data).value) == data <==> data[0] % 16 <= 1
  {
    var a := StakeFromBinary(data).value;
    assert data == [data[0]] + data[1..];
    assert StakeBytes(a)[0] == StakeHeader(a);
  }

  // ---------------------------------------------------------------------------------
  // Keys of all kinds of address

  /** A Byron key: an array of two, the payload as tagged CBOR bytes, and a checksum computed by any function. */
  function ByronBytes(b: ByronAddress, crc: seq<Byte> -> U32): seq<Byte>
    requires |b.payload| <= U64_MAX
  {
    Head(ARRAY, 2) + (Head(TAG, 24) + (Head(BYTES, |b.payload|) + (b.payload + Head(UNSIGNED, crc(b.payload)))))
  }

  /** An array of two, tag 24, the payload as a byte string, and the checksum. */
  lemma ByronFormat(b: ByronAddress, crc: seq<Byte> -> U32)
    requires |b.payload| <= U64_MAX
    ensures ByronBytes(b, crc) ==
            [0x82, 0xD8, 0x18] + (Head(BYTES, |b.payload|) + (b.payload + Head(UNSIGNED, crc(b.payload))))
  {
    HeadFormat(TAG, 24);
    BigEndianByte(24, 1, 0);
    ByronPrefix(Head(BYTES, |b.payload|) + (b.payload + Head(UNSIGNED, crc(b.payload))));
  }

  lemma ByronPrefix(rest: seq<Byte>)
    requires Head(TAG, 24) == [0xD8] + BigEndian(24, 1) && BigEndian(24, 1)[0] == 0x18 && |BigEndian(24, 1)| == 1
    ensures Head(ARRAY, 2) + (Head(TAG, 24) + rest) == [0x82, 0xD8, 0x18] + rest
  {
    assert Head(TAG, 24) == [0xD8, 0x18];
  }

  predicate Storable(a: Address) {
    a.Byron? ==> |a.byron.payload| <= U64_MAX
  }

  function AddressBytes(a: Address, crc: seq<Byte> -> U32): seq<Byte>
    requires Storable(a)
  {
    match a
    case NoAddress => []
    case Byron(b) => ByronBytes(b, crc)
    case Shelley(s) => ShelleyBytes(s)
    case Stake(s) => StakeBytes(s)
  }

  lemma ByronInjective(a: ByronAddress, b: ByronAddress, crc: seq<Byte> -> U32)
    requires |a.payload| <= U64_MAX && |b.payload| <= U64_MAX
    requires ByronBytes(a, crc) == ByronBytes(b, crc)
    ensures a == b
  {
    var ta := a.payload + Head(UNSIGNED, crc(a.payload));
    var tb := b.payload + Head(UNSIGNED, crc(b.payload));
    var ba, bb := Head(BYTES, |a.payload|) + ta, Head(BYTES, |b.payload|) + tb;
    HeadInjective(ARRAY, 2, Head(TAG, 24) + ba, ARRAY, 2, Head(TAG, 24) + bb);
    HeadInjective(TAG, 24, ba, TAG, 24, bb);
    HeadInjective(BYTES, |a.payload|, ta, BYTES, |b.payload|, tb);
    assert ta[..|a.payload|] == a.payload && tb[..|b.payload|] == b.payload;
  }

  /** The kind of an address can be read off the first byte of its key. */
  function KindOf(key: seq<Byte>): nat {
    if key == [] then 0 else if key[0] < 0x80 then 2 else if key[0] < 0xE0 then 1 else 3
  }

  lemma KeyShowsKind(a: Address, crc: seq<Byte> -> U32)
    requires Storable(a)
    ensures KindOf(AddressBytes(a, crc)) ==
            match a case NoAddress => 0 case Byron(_) => 1 case Shelley(_) => 2 case Stake(_) => 3
  {
    match a
    case Byron(b) => assert ByronBytes(b, crc)[0] == 0x82;
    case _ =>
  }

  /** Distinct addresses of any kinds have distinct keys, whatever the Byron checksum computes. */
  lemma KeysDistinct(a: Address, b: Address, crc: seq<Byte> -> U32)
    requires Storable(a) && Storable(b)
    requires AddressBytes(a, crc) == AddressBytes(b, crc)
    ensures a == b
  {
    KeyShowsKind(a, crc);
    KeyShowsKind(b, crc);
    match a
    case NoAddress =>
    case Byron(x) => ByronInjective(x, b.byron, crc);
    case Shelley(x) =>
      ShelleyRoundTrip(x, []);
      ShelleyRoundTrip(b.shelley, []);
    case Stake(x) =>
      StakeRoundTrip(x);
      StakeRoundTrip(b.stake);
  }
}
