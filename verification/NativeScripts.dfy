/**
 Native scripts: their recursive CBOR form with definite-length arrays, and their
 evaluation against the keys that signed and the validity interval.
 */
module NativeScripts {
  import opened Base
  import opened Cbor

  datatype NativeScript =
    | ScriptPubkey(hash: Hash28)
    | ScriptAll(scripts: seq<NativeScript>)
    | ScriptAny(scripts: seq<NativeScript>)
    | ScriptNOfK(n: U32, scripts: seq<NativeScript>)
    | InvalidBefore(slot: U64)
    | InvalidHereafter(slot: U64)

  /** No list at any depth is longer than `max`. */
  predicate Sized(s: NativeScript, max: int)
    decreases s, 1
  {
    match s
    case ScriptAll(v) => |v| <= max && AllSized(v, max)
    case ScriptAny(v) => |v| <= max && AllSized(v, max)
    case ScriptNOfK(_, v) => |v| <= max && AllSized(v, max)
    case _ => true
  }

  predicate AllSized(v: seq<NativeScript>, max: int)
    decreases v, 0
  {
    v == [] || (Sized(v[0], max) && AllSized(v[1..], max))
  }

  // ---------------------------------------------------------------------------------
  // Encoding

  function Variant(s: NativeScript): U32 {
    match s
    case ScriptPubkey(_) => 0
    case ScriptAll(_) => 1
    case ScriptAny(_) => 2
    case ScriptNOfK(_, _) => 3
    case InvalidBefore(_) => 4
    case InvalidHereafter(_) => 5
  }

  function ArraySize(variant: U32): U64 {
    if variant == 3 then 3 else 2
  }

  function Encode(s: NativeScript): seq<Byte>
    requires Sized(s, U64_MAX)
    decreases s, 2
  {
    Head(ARRAY, ArraySize(Variant(s))) + Head(UNSIGNED, Variant(s)) + EncodeFields(s)
  }

  function EncodeFields(s: NativeScript): seq<Byte>
    requires Sized(s, U64_MAX)
    decreases s, 1
  {
    match s
    case ScriptPubkey(hash) => Head(BYTES, |hash|) + hash
    case ScriptAll(v) => Head(ARRAY, |v|) + EncodeList(v)
    case ScriptAny(v) => Head(ARRAY, |v|) + EncodeList(v)
    case ScriptNOfK(n, v) => Head(UNSIGNED, n) + (Head(ARRAY, |v|) + EncodeList(v))
    case InvalidBefore(slot) => Head(UNSIGNED, slot)
    case InvalidHereafter(slot) => Head(UNSIGNED, slot)
  }

  function EncodeList(v: seq<NativeScript>): seq<Byte>
    requires AllSized(v, U64_MAX)
    decreases v, 0
  {
    if v == [] then [] else Encode(v[0]) + EncodeList(v[1..])
  }

  // ---------------------------------------------------------------------------------
  // Decoding

  type Decoded<+T> = Option<(T, seq<Byte>)>

  /** An item of the expected major type with an argument no larger than `max`. */
  function ReadArgument(s: seq<Byte>, major: Major, max: U64): (r: Decoded<U64>)
    ensures r.Some? ==> r.value.0 <= max && |r.value.1| < |s|
  {
    match ReadHead(s)
    case None => None
    case Some(item) =>
      if item.major == major && item.argument <= max then Some((item.argument, item.rest)) else None
  }

  function ReadHash(s: seq<Byte>): (r: Decoded<Hash28>)
    ensures r.Some? ==> |r.value.1| < |s|
  {
    match ReadArgument(s, BYTES, U64_MAX)
    case None => None
    case Some((length, rest)) =>
      if length == 28 && |rest| >= 28 then Some((rest[..28], rest[28..])) else None
  }

  function Decode(s: seq<Byte>): (r: Decoded<NativeScript>)
    ensures r.Some? ==> |r.value.1| < |s|
    decreases |s|, 1
  {
    match ReadArgument(s, ARRAY, U64_MAX)
    case None => None
    case Some((size, s1)) =>
      match ReadArgument(s1, UNSIGNED, U32_MAX)
      case None => None
      case Some((variant, s2)) =>
        if size != ArraySize(variant) then None
        else DecodeVariant(variant, s2)
  }

  function DecodeVariant(variant: U64, s: seq<Byte>): (r: Decoded<NativeScript>)
    ensures r.Some? ==> |r.value.1| < |s|
    decreases |s|, 3
  {
    match variant
    case 0 => (match ReadHash(s)
               case None => None
               case Some((hash, rest)) => Some((ScriptPubkey(hash), rest)))
    case 1 => (match DecodeArray(s)
               case None => None
               case Some((v, rest)) => Some((ScriptAll(v), rest)))
    case 2 => (match DecodeArray(s)
               case None => None
               case Some((v, rest)) => Some((ScriptAny(v), rest)))
    case 3 => (match ReadArgument(s, UNSIGNED, U32_MAX)
               case None => None
               case Some((n, s')) =>
                 match DecodeArray(s')
                 case None => None
                 case Some((v, rest)) => Some((ScriptNOfK(n, v), rest)))
    case 4 => (match ReadArgument(s, UNSIGNED, U64_MAX)
               case None => None
               case Some((slot, rest)) => Some((InvalidBefore(slot), rest)))
    case 5 => (match ReadArgument(s, UNSIGNED, U64_MAX)
               case None => None
               case Some((slot, rest)) => Some((InvalidHereafter(slot), rest)))
    case _ => None
  }

  function DecodeArray(s: seq<Byte>): (r: Decoded<seq<NativeScript>>)
    ensures r.Some? ==> |r.value.1| < |s|
    decreases |s|, 2
  {
    match ReadArgument(s, ARRAY, U64_MAX)
    case None => None
    case Some((count, rest)) => DecodeItems(count, rest)
  }

  function DecodeItems(count: nat, s: seq<Byte>): (r: Decoded<seq<NativeScript>>)
    ensures r.Some? ==> |r.value.1| <= |s|
    decreases |s|, 2
  {
    if count == 0 then Some(([], s)) else
    match Decode(s)
    case None => None
    case Some((script, s1)) =>
      match DecodeItems(count - 1, s1)
      case None => None
      case Some((v, rest)) => Some(([script] + v, rest))
  }

  // ---------------------------------------------------------------------------------
  // Round trip

  lemma ArgumentRoundTrip(major: Major, n: U64, max: U64, rest: seq<Byte>)
    requires n <= max
    ensures ReadArgument(Head(major, n) + rest, major, max) == Some((n, rest))
  {
    HeadRoundTrip(major, n, rest);
  }

  lemma HashRoundTrip(hash: Hash28, rest: seq<Byte>)
    ensures ReadHash(Head(BYTES, |hash|) + hash + rest) == Some((hash, rest))
  {
    assert Head(BYTES, |hash|) + hash + rest == Head(BYTES, |hash|) + (hash + rest);
    ArgumentRoundTrip(BYTES, 28, U64_MAX, hash + rest);
    assert (hash + rest)[..28] == hash && (hash + rest)[28..] == rest;
  }

  lemma PrefixRoundTrip(variant: U32, fields: seq<Byte>)
    ensures Decode(Head(ARRAY, ArraySize(variant)) + Head(UNSIGNED, variant) + fields) == DecodeVariant(variant, fields)
  {
    var size := ArraySize(variant);
    assert Head(ARRAY, size) + Head(UNSIGNED, variant) + fields == Head(ARRAY, size) + (Head(UNSIGNED, variant) + fields);
    ArgumentRoundTrip(ARRAY, size, U64_MAX, Head(UNSIGNED, variant) + fields);
    ArgumentRoundTrip(UNSIGNED, variant, U32_MAX, fields);
  }

  lemma {:induction false} ArrayRoundTrip(v: seq<NativeScript>, rest: seq<Byte>)
    requires |v| <= U64_MAX && AllSized(v, U64_MAX)
    ensures DecodeArray(Head(ARRAY, |v|) + EncodeList(v) + rest) == Some((v, rest))
    decreases v, 1
  {
    var head, items := Head(ARRAY, |v|), EncodeList(v);
    assert head + items + rest == head + (items + rest);
    ArgumentRoundTrip(ARRAY, |v|, U64_MAX, items + rest);
    ItemsRoundTrip(v, rest);
  }

  lemma {:induction false} ItemsRoundTrip(v: seq<NativeScript>, rest: seq<Byte>)
    requires AllSized(v, U64_MAX)
    ensures DecodeItems(|v|, EncodeList(v) + rest) == Some((v, rest))
    decreases v, 0
  {
    if v == [] {
      assert EncodeList(v) + rest == rest;
    } else {
      assert EncodeList(v) + rest == Encode(v[0]) + (EncodeList(v[1..]) + rest);
      RoundTrip(v[0], EncodeList(v[1..]) + rest);
      ItemsRoundTrip(v[1..], rest);
      assert [v[0]] + v[1..] == v;
    }
  }

  lemma {:induction false} FieldsRoundTrip(s: NativeScript, rest: seq<Byte>)
    requires Sized(s, U64_MAX)
    ensures DecodeVariant(Variant(s), EncodeFields(s) + rest) == Some((s, rest))
    decreases s, 2
  {
    match s
    case ScriptPubkey(hash) => HashRoundTrip(hash, rest);
    case ScriptAll(v) => ArrayRoundTrip(v, rest);
    case ScriptAny(v) => ArrayRoundTrip(v, rest);
    case ScriptNOfK(n, v) =>
      var items := Head(ARRAY, |v|) + EncodeList(v);
      assert Head(UNSIGNED, n) + items + rest == Head(UNSIGNED, n) + (items + rest);
      ArgumentRoundTrip(UNSIGNED, n, U32_MAX, items + rest);
      ArrayRoundTrip(v, rest);
    case InvalidBefore(slot) => ArgumentRoundTrip(UNSIGNED, slot, U64_MAX, rest);
    case InvalidHereafter(slot) => ArgumentRoundTrip(UNSIGNED, slot, U64_MAX, rest);
  }

  /** Decoding an encoded script gives it back and leaves exactly the bytes that follow. */
  lemma {:induction false} RoundTrip(s: NativeScript, rest: seq<Byte>)
    requires Sized(s, U64_MAX)
    ensures Decode(Encode(s) + rest) == Some((s, rest))
    decreases s, 3
  {
    var variant := Variant(s);
    assert Encode(s) + rest == Head(ARRAY, ArraySize(variant)) + Head(UNSIGNED, variant) + (EncodeFields(s) + rest);
    PrefixRoundTrip(variant, EncodeFields(s) + rest);
    FieldsRoundTrip(s, rest);
  }

  /** Script hashes are taken over the encoding: different scripts have different encodings, neither a prefix of the other. */
  lemma EncodingPrefixFree(a: NativeScript, b: NativeScript)
    requires Sized(a, U64_MAX) && Sized(b, U64_MAX) && Encode(a) <= Encode(b)
    ensures a == b
  {
    var rest := Encode(b)[|Encode(a)|..];
    assert Encode(b) == Encode(a) + rest;
    RoundTrip(a, rest);
    RoundTrip(b, []);
    assert Encode(b) + [] == Encode(b);
  }

  lemma TwoHeads(size: U64, tag: U64, fields: seq<Byte>)
    requires size < 24 && tag < 24
    ensures Head(ARRAY, size) + Head(UNSIGNED, tag) + fields == [0x80 + size, tag] + fields
  {
  }

  lemma HashFormat(hash: Hash28)
    ensures [0x82, 0x00] + (Head(BYTES, |hash|) + hash) == [0x82, 0x00, 0x58, 0x1C] + hash
  {
    HeadFormat(BYTES, 28);
    BigEndianByte(28, 1, 0);
    assert Head(BYTES, 28) == [0x58, 0x1C];
  }

  /** The bytes of a script: an array of two or three, the tag, and the fields. */
  lemma WireFormat(s: NativeScript)
    requires Sized(s, U64_MAX)
    ensures Encode(s) ==
            match s
            case ScriptPubkey(hash) => [0x82, 0x00, 0x58, 0x1C] + hash
            case ScriptAll(v) => [0x82, 0x01] + (Head(ARRAY, |v|) + EncodeList(v))
            case ScriptAny(v) => [0x82, 0x02] + (Head(ARRAY, |v|) + EncodeList(v))
            case ScriptNOfK(n, v) => [0x83, 0x03] + (Head(UNSIGNED, n) + (Head(ARRAY, |v|) + EncodeList(v)))
            case InvalidBefore(slot) => [0x82, 0x04] + Head(UNSIGNED, slot)
            case InvalidHereafter(slot) => [0x82, 0x05] + Head(UNSIGNED, slot)
  {
    TwoHeads(ArraySize(Variant(s)), Variant(s), EncodeFields(s));
    if s.ScriptPubkey? {
      HashFormat(s.hash);
    }
  }

  lemma OneListed(s: NativeScript)
    requires Sized(s, U64_MAX)
    ensures AllSized([s], U64_MAX) && EncodeList([s]) == Encode(s)
  {
    assert [s][1..] == [];
    assert AllSized([], U64_MAX) && EncodeList([]) == [];
  }

  lemma ListFront(s: NativeScript, v: seq<NativeScript>)
    requires Sized(s, U64_MAX) && AllSized(v, U64_MAX)
    ensures AllSized([s] + v, U64_MAX) && EncodeList([s] + v) == Encode(s) + EncodeList(v)
  {
    assert ([s] + v)[1..] == v;
  }

  lemma Associates(a: seq<Byte>, b: seq<Byte>, c: seq<Byte>)
    ensures a + (b + c) == a + b + c
  {
  }

  /** The scripts of a list follow each other in order. */
  lemma {:induction false} ListInOrder(v: seq<NativeScript>, w: seq<NativeScript>)
    requires AllSized(v, U64_MAX) && AllSized(w, U64_MAX)
    ensures AllSized(v + w, U64_MAX) && EncodeList(v + w) == EncodeList(v) + EncodeList(w)
    decreases |v|
  {
    if v == [] {
      assert v + w == w;
    } else {
      var s, rest := v[0], v[1..];
      ListInOrder(rest, w);
      assert v == [s] + rest && v + w == [s] + (rest + w);
      ListFront(s, rest);
      ListFront(s, rest + w);
      Associates(Encode(s), EncodeList(rest), EncodeList(w));
    }
  }

  /** A script is read only from an array of the size its tag calls for, and no other tag is known. */
  lemma DecodeNeedsShape(s: seq<Byte>)
    requires Decode(s).Some?
    ensures ReadArgument(s, ARRAY, U64_MAX).Some?
    ensures var (size, s1) := ReadArgument(s, ARRAY, U64_MAX).value;
            && ReadArgument(s1, UNSIGNED, U32_MAX).Some?
            && var tag := ReadArgument(s1, UNSIGNED, U32_MAX).value.0;
               && tag <= 5 && size == (if tag == 3 then 3 else 2)
               && tag == match Decode(s).value.0
                         case ScriptPubkey(_) => 0
                         case ScriptAll(_) => 1
                         case ScriptAny(_) => 2
                         case ScriptNOfK(_, _) => 3
                         case InvalidBefore(_) => 4
                         case InvalidHereafter(_) => 5
  {
  }

  // ---------------------------------------------------------------------------------
  // The decoder's moving position

  class Decoder {
    const data: seq<Byte>
    var position: nat

    ghost predicate Valid()
      reads this
    {
      position <= |data|
    }

    ghost function Rest(): seq<Byte>
      requires Valid()
      reads this
    {
      data[position..]
    }

    constructor (data: seq<Byte>)
      ensures this.data == data && position == 0 && Valid()
    {
      this.data := data;
      position := 0;
    }

    /** On success the position stands after the item; on failure it may stand anywhere. */
    ghost predicate Follows<T(!new)>(spec: Decoded<T>, r: Option<T>)
      reads this
    {
      && Valid()
      && (r.Some? <==> spec.Some?)
      && (r.Some? ==> spec.value == (r.value, Rest()))
    }

    method Argument(major: Major, max: U64) returns (r: Option<U64>)
      requires Valid()
      modifies this`position
      ensures Follows(ReadArgument(old(Rest()), major, max), r)
      ensures r.Some? ==> position > old(position)
    {
      match ReadHead(data[position..])
      case None => r := None;
      case Some(item) =>
        HeadRest(data[position..]);
        if item.major == major && item.argument <= max {
          r := Some(item.argument);
          position := |data| - |item.rest|;
        } else {
          r := None;
        }
    }

    method Hash() returns (r: Option<Hash28>)
      requires Valid()
      modifies this`position
      ensures Follows(ReadHash(old(Rest())), r)
    {
      var length := Argument(BYTES, U64_MAX);
      if length == Some(28) && |data| - position >= 28 {
        r := Some(data[position..][..28]);
        position := position + 28;
      } else {
        r := None;
      }
    }

    method Script() returns (r: Option<NativeScript>)
      requires Valid()
      modifies this`position
      ensures Follows(Decode(old(Rest())), r)
      ensures r.Some? ==> position > old(position)
      decreases |data| - position, 1
    {
      var size := Argument(ARRAY, U64_MAX);
      if size.None? {
        return None;
      }
      var variant := Argument(UNSIGNED, U32_MAX);
      if variant.None? || size.value != ArraySize(variant.value) {
        return None;
      }
      r := Variant(variant.value);
    }

    method Variant(variant: U64) returns (r: Option<NativeScript>)
      requires Valid()
      modifies this`position
      ensures Follows(DecodeVariant(variant, old(Rest())), r)
      decreases |data| - position, 5
    {
      match variant
      case 0 =>
        var hash := Hash();
        r := if hash.Some? then Some(ScriptPubkey(hash.value)) else None;
      case 1 =>
        var v := Scripts();
        r := if v.Some? then Some(ScriptAll(v.value)) else None;
      case 2 =>
        var v := Scripts();
        r := if v.Some? then Some(ScriptAny(v.value)) else None;
      case 3 =>
        var n := Argument(UNSIGNED, U32_MAX);
        if n.None? {
          return None;
        }
        var v := Scripts();
        r := if v.Some? then Some(ScriptNOfK(n.value, v.value)) else None;
      case 4 =>
        var slot := Argument(UNSIGNED, U64_MAX);
        r := if slot.Some? then Some(InvalidBefore(slot.value)) else None;
      case 5 =>
        var slot := Argument(UNSIGNED, U64_MAX);
        r := if slot.Some? then Some(InvalidHereafter(slot.value)) else None;
      case _ => r := None;
    }

    method Scripts() returns (r: Option<seq<NativeScript>>)
      requires Valid()
      modifies this`position
      ensures Follows(DecodeArray(old(Rest())), r)
      decreases |data| - position, 4
    {
      var count := Argument(ARRAY, U64_MAX);
      if count.None? {
        return None;
      }
      r := Items(count.value);
    }

    /** One more script after those already decoded. */
    method Item(v: seq<NativeScript>, ghost left: nat, ghost spec: Decoded<seq<NativeScript>>)
      returns (r: Option<seq<NativeScript>>)
      requires Valid() && left > 0 && StillToCome(spec, v, left, Rest())
      modifies this`position
      ensures Valid()
      ensures r.None? ==> spec.None?
      ensures r.Some? ==> position > old(position) && StillToCome(spec, r.value, left - 1, Rest())
      decreases |data| - position, 2
    {
      AfterOne(v, left, Rest());
      var script := Script();
      r := if script.Some? then Some(v + [script.value]) else None;
    }

    method Items(count: nat) returns (r: Option<seq<NativeScript>>)
      requires Valid()
      modifies this`position
      ensures Follows(DecodeItems(count, old(Rest())), r)
      decreases |data| - position, 3
    {
      ghost var spec := DecodeItems(count, Rest());
      var v: seq<NativeScript> := [];
      var left := count;
      NothingYet(count, Rest());
      while left > 0
        invariant Valid() && position >= old(position)
        invariant StillToCome(spec, v, left, Rest())
        decreases left
      {
        var longer := Item(v, left, spec);
        if longer.None? {
          return None;
        }
        v := longer.value;
        left := left - 1;
      }
      NothingLeft(spec, v, Rest());
      r := Some(v);
    }
  }

  /** The scripts already decoded, followed by what the rest decodes to. */
  function After(v: seq<NativeScript>, d: Decoded<seq<NativeScript>>): Decoded<seq<NativeScript>> {
    match d
    case None => None
    case Some((w, rest)) => Some((v + w, rest))
  }

  /** What is decoded in all is what was decoded so far and what the rest decodes to. */
  ghost predicate StillToCome(spec: Decoded<seq<NativeScript>>, v: seq<NativeScript>, left: nat, s: seq<Byte>) {
    spec == After(v, DecodeItems(left, s))
  }

  lemma NothingYet(count: nat, s: seq<Byte>)
    ensures StillToCome(DecodeItems(count, s), [], count, s)
  {
    if DecodeItems(count, s).Some? {
      assert [] + DecodeItems(count, s).value.0 == DecodeItems(count, s).value.0;
    }
  }

  lemma NothingLeft(spec: Decoded<seq<NativeScript>>, v: seq<NativeScript>, s: seq<Byte>)
    requires StillToCome(spec, v, 0, s)
    ensures spec == Some((v, s))
  {
    assert v + [] == v;
  }

  lemma AfterOne(v: seq<NativeScript>, left: nat, s: seq<Byte>)
    requires left > 0
    ensures Decode(s).None? ==> After(v, DecodeItems(left, s)) == None
    ensures Decode(s).Some? ==>
              After(v, DecodeItems(left, s)) == After(v + [Decode(s).value.0], DecodeItems(left - 1, Decode(s).value.1))
  {
    if Decode(s).Some? {
      var (x, s1) := Decode(s).value;
      if DecodeItems(left - 1, s1).Some? {
        var w := DecodeItems(left - 1, s1).value.0;
        assert v + ([x] + w) == v + [x] + w;
      }
    }
  }

  /** What is left after a head is a suffix of the input. */
  lemma HeadRest(s: seq<Byte>)
    requires ReadHead(s).Some?
    ensures var rest := ReadHead(s).value.rest; |rest| < |s| && rest == s[|s| - |rest|..]
  {
  }

  // ---------------------------------------------------------------------------------
  // Evaluation

  function WrapU32(x: nat): U32 {
    x % 0x1_0000_0000
  }

  predicate Eval(s: NativeScript, keys: set<Hash28>, low: Option<U64>, upp: Option<U64>)
    decreases s, 1
  {
    match s
    case ScriptAll(v) => EvalAll(v, keys, low, upp)
    case ScriptAny(v) => EvalAny(v, keys, low, upp)
    case ScriptPubkey(hash) => hash in keys
    case ScriptNOfK(n, v) => WrapU32(Count(v, keys, low, upp)) >= n
    case InvalidBefore(slot) => low.Some? && slot <= low.value
    case InvalidHereafter(slot) => upp.Some? && slot >= upp.value
  }

  predicate EvalAll(v: seq<NativeScript>, keys: set<Hash28>, low: Option<U64>, upp: Option<U64>)
    decreases v, 0
  {
    v == [] || (EvalAll(v[..|v| - 1], keys, low, upp) && Eval(v[|v| - 1], keys, low, upp))
  }

  predicate EvalAny(v: seq<NativeScript>, keys: set<Hash28>, low: Option<U64>, upp: Option<U64>)
    decreases v, 0
  {
    v != [] && (EvalAny(v[..|v| - 1], keys, low, upp) || Eval(v[|v| - 1], keys, low, upp))
  }

  function Count(v: seq<NativeScript>, keys: set<Hash28>, low: Option<U64>, upp: Option<U64>): (count: nat)
    ensures count <= |v|
    decreases v, 0
  {
    if v == [] then 0
    else Count(v[..|v| - 1], keys, low, upp) + (if Eval(v[|v| - 1], keys, low, upp) then 1 else 0)
  }

  /** The later lower bound: a missing one may be supplied, a present one raised. */
  predicate Raised(low: Option<U64>, low': Option<U64>) {
    low.Some? ==> low'.Some? && low.value <= low'.value
  }

  predicate Lowered(upp: Option<U64>, upp': Option<U64>) {
    upp.Some? ==> upp'.Some? && upp'.value <= upp.value
  }

  ghost predicate EachSized(v: seq<NativeScript>, max: int) {
    forall i | 0 <= i < |v| :: Sized(v[i], max)
  }

  lemma {:induction false} SizedEach(v: seq<NativeScript>, max: int)
    requires AllSized(v, max)
    ensures EachSized(v, max)
    decreases |v|
  {
    if v != [] {
      SizedEach(v[1..], max);
      assert forall i | 0 < i < |v| :: v[i] == v[1..][i - 1];
    }
  }

  /** More keys and tighter bounds never turn a script from true to false. */
  lemma {:induction false} EvalMonotone(s: NativeScript, keys: set<Hash28>, low: Option<U64>, upp: Option<U64>,
                                        keys': set<Hash28>, low': Option<U64>, upp': Option<U64>)
    requires Sized(s, U32_MAX) && keys <= keys' && Raised(low, low') && Lowered(upp, upp')
    ensures Eval(s, keys, low, upp) ==> Eval(s, keys', low', upp')
    decreases s, 1
  {
    match s
    case ScriptAll(v) => SizedEach(v, U32_MAX); ListMonotone(v, keys, low, upp, keys', low', upp');
    case ScriptAny(v) => SizedEach(v, U32_MAX); ListMonotone(v, keys, low, upp, keys', low', upp');
    case ScriptNOfK(_, v) => SizedEach(v, U32_MAX); ListMonotone(v, keys, low, upp, keys', low', upp');
    case _ =>
  }

  lemma {:induction false} ListMonotone(v: seq<NativeScript>, keys: set<Hash28>, low: Option<U64>, upp: Option<U64>,
                                        keys': set<Hash28>, low': Option<U64>, upp': Option<U64>)
    requires EachSized(v, U32_MAX) && keys <= keys' && Raised(low, low') && Lowered(upp, upp')
    ensures EvalAll(v, keys, low, upp) ==> EvalAll(v, keys', low', upp')
    ensures EvalAny(v, keys, low, upp) ==> EvalAny(v, keys', low', upp')
    ensures Count(v, keys, low, upp) <= Count(v, keys', low', upp')
    decreases v, 0
  {
    if v != [] {
      EvalMonotone(v[|v| - 1], keys, low, upp, keys', low', upp');
      ListMonotone(v[..|v| - 1], keys, low, upp, keys', low', upp');
    }
  }

  /** The validity interval, lower end included and upper end excluded. */
  predicate Contains(low: Option<U64>, upp: Option<U64>, slot: U64) {
    && (low.Some? ==> low.value <= slot)
    && (upp.Some? ==> slot < upp.value)
  }

  /** What a script means when the slot is known. */
  ghost predicate HoldsAt(s: NativeScript, keys: set<Hash28>, slot: U64)
    decreases s, 1
  {
    match s
    case ScriptAll(v) => forall i | 0 <= i < |v| :: HoldsAt(v[i], keys, slot)
    case ScriptAny(v) => exists i | 0 <= i < |v| :: HoldsAt(v[i], keys, slot)
    case ScriptNOfK(n, v) => |Holding(v, keys, slot)| >= n
    case ScriptPubkey(hash) => hash in keys
    case InvalidBefore(first) => first <= slot
    case InvalidHereafter(end) => slot < end
  }

  /** Which of the scripts hold. */
  ghost function Holding(v: seq<NativeScript>, keys: set<Hash28>, slot: U64): set<int>
    decreases v, 0
  {
    set i | 0 <= i < |v| && HoldsAt(v[i], keys, slot)
  }

  lemma {:induction false} AllByIndex(v: seq<NativeScript>, keys: set<Hash28>, low: Option<U64>, upp: Option<U64>)
    ensures EvalAll(v, keys, low, upp) <==> forall i | 0 <= i < |v| :: Eval(v[i], keys, low, upp)
    decreases |v|
  {
    if v != [] {
      AllByIndex(v[..|v| - 1], keys, low, upp);
    }
  }

  lemma {:induction false} AnyByIndex(v: seq<NativeScript>, keys: set<Hash28>, low: Option<U64>, upp: Option<U64>)
    ensures EvalAny(v, keys, low, upp) <==> exists i | 0 <= i < |v| :: Eval(v[i], keys, low, upp)
    decreases |v|
  {
    if v != [] {
      AnyByIndex(v[..|v| - 1], keys, low, upp);
      assert forall i | 0 <= i < |v| - 1 :: v[..|v| - 1][i] == v[i];
    }
  }

  ghost function TrueOnes(v: seq<NativeScript>, keys: set<Hash28>, low: Option<U64>, upp: Option<U64>): set<int> {
    set i | 0 <= i < |v| && Eval(v[i], keys, low, upp)
  }

  lemma LastOne(v: seq<NativeScript>, keys: set<Hash28>, low: Option<U64>, upp: Option<U64>)
    requires v != []
    ensures var last := |v| - 1;
            TrueOnes(v, keys, low, upp) ==
            TrueOnes(v[..last], keys, low, upp) + (if Eval(v[last], keys, low, upp) then {last} else {})
  {
    assert forall i | 0 <= i < |v| - 1 :: v[..|v| - 1][i] == v[i];
  }

  lemma {:induction false} CountByIndex(v: seq<NativeScript>, keys: set<Hash28>, low: Option<U64>, upp: Option<U64>)
    ensures Count(v, keys, low, upp) == |TrueOnes(v, keys, low, upp)|
    decreases |v|
  {
    if v != [] {
      CountByIndex(v[..|v| - 1], keys, low, upp);
      LastOne(v, keys, low, upp);
      assert |v| - 1 !in TrueOnes(v[..|v| - 1], keys, low, upp);
    }
  }

  /** The first slot after a slot, if the word has one. */
  function SlotEnd(slot: U64): Option<U64> {
    if slot < U64_MAX then Some(slot + 1) else None
  }

  /** On the interval of a single slot, the last slot of the word too, evaluation is exactly the meaning at that slot. */
  lemma {:induction false} EvalAtSlot(s: NativeScript, keys: set<Hash28>, slot: U64)
    requires Sized(s, U32_MAX)
    ensures Eval(s, keys, Some(slot), SlotEnd(slot)) <==> HoldsAt(s, keys, slot)
    decreases s, 1
  {
    match s
    case ScriptAll(v) =>
      EachAtSlot(v, keys, slot);
      AllByIndex(v, keys, Some(slot), SlotEnd(slot));
    case ScriptAny(v) =>
      EachAtSlot(v, keys, slot);
      AnyByIndex(v, keys, Some(slot), SlotEnd(slot));
    case ScriptNOfK(_, v) =>
      EachAtSlot(v, keys, slot);
      CountByIndex(v, keys, Some(slot), SlotEnd(slot));
      assert TrueOnes(v, keys, Some(slot), SlotEnd(slot)) == Holding(v, keys, slot);
    case _ =>
  }

  lemma {:induction false} EachAtSlot(v: seq<NativeScript>, keys: set<Hash28>, slot: U64)
    requires AllSized(v, U32_MAX)
    ensures forall i | 0 <= i < |v| :: Eval(v[i], keys, Some(slot), SlotEnd(slot)) <==> HoldsAt(v[i], keys, slot)
    decreases v, 0
  {
    SizedEach(v, U32_MAX);
    forall i | 0 <= i < |v| ensures Eval(v[i], keys, Some(slot), SlotEnd(slot)) <==> HoldsAt(v[i], keys, slot) {
      EvalAtSlot(v[i], keys, slot);
    }
  }

  /**
   A script that evaluates to true on a validity interval holds at every slot the interval
   contains: the interval is a sound stand-in for the slot the transaction lands in.
   */
  lemma EvalSoundForSlot(s: NativeScript, keys: set<Hash28>, low: Option<U64>, upp: Option<U64>, slot: U64)
    requires Sized(s, U32_MAX) && Contains(low, upp, slot)
    ensures Eval(s, keys, low, upp) ==> HoldsAt(s, keys, slot)
  {
    EvalMonotone(s, keys, low, upp, keys, Some(slot), SlotEnd(slot));
    EvalAtSlot(s, keys, slot);
  }

  // ---------------------------------------------------------------------------------
  // Evaluation on an interval, exactly

  ghost predicate NonEmpty(low: Option<U64>, upp: Option<U64>) {
    exists slot: U64 :: Contains(low, upp, slot)
  }

  /** What a script means on an interval: a time lock must hold at every slot of it. */
  ghost predicate HoldsOn(s: NativeScript, keys: set<Hash28>, low: Option<U64>, upp: Option<U64>)
    decreases s, 1
  {
    match s
    case ScriptAll(v) => forall i | 0 <= i < |v| :: HoldsOn(v[i], keys, low, upp)
    case ScriptAny(v) => exists i | 0 <= i < |v| :: HoldsOn(v[i], keys, low, upp)
    case ScriptNOfK(n, v) => |HoldingOn(v, keys, low, upp)| >= n
    case ScriptPubkey(hash) => hash in keys
    case InvalidBefore(first) => forall slot: U64 | Contains(low, upp, slot) :: first <= slot
    case InvalidHereafter(end) => forall slot: U64 | Contains(low, upp, slot) :: slot < end
  }

  ghost function HoldingOn(v: seq<NativeScript>, keys: set<Hash28>, low: Option<U64>, upp: Option<U64>): set<int>
    decreases v, 0
  {
    set i | 0 <= i < |v| && HoldsOn(v[i], keys, low, upp)
  }

  /** The first and the last slot of an interval. */
  function FirstSlot(low: Option<U64>): U64 {
    if low.Some? then low.value else 0
  }

  function LastSlot(upp: Option<U64>): int {
    if upp.Some? then upp.value - 1 else U64_MAX
  }

  lemma EndsAreContained(low: Option<U64>, upp: Option<U64>)
    requires NonEmpty(low, upp)
    ensures 0 <= LastSlot(upp) && Contains(low, upp, FirstSlot(low)) && Contains(low, upp, LastSlot(upp))
  {
    var slot: U64 :| Contains(low, upp, slot);
  }

  /** A time lock is evaluated as it holds on a non-empty interval, but for a lock from slot zero without a lower bound. */
  lemma LockExact(s: NativeScript, keys: set<Hash28>, low: Option<U64>, upp: Option<U64>)
    requires s.InvalidBefore? || s.InvalidHereafter?
    requires NonEmpty(low, upp)
    ensures (Eval(s, keys, low, upp) <==> HoldsOn(s, keys, low, upp)) <==> !(s == InvalidBefore(0) && low.None?)
  {
    EndsAreContained(low, upp);
  }

  /** The script with every lock from slot zero replaced by one that never opens. */
  function Strict(s: NativeScript): NativeScript
    decreases s, 1
  {
    match s
    case ScriptAll(v) => ScriptAll(StrictAll(v))
    case ScriptAny(v) => ScriptAny(StrictAll(v))
    case ScriptNOfK(n, v) => ScriptNOfK(n, StrictAll(v))
    case InvalidBefore(first) => if first == 0 then ScriptAny([]) else s
    case _ => s
  }

  function StrictAll(v: seq<NativeScript>): (w: seq<NativeScript>)
    ensures |w| == |v| && forall i | 0 <= i < |v| :: w[i] == Strict(v[i])
    decreases v, 0
  {
    if v == [] then [] else StrictAll(v[..|v| - 1]) + [Strict(v[|v| - 1])]
  }

  /** How a script is read: as it is with a lower bound, and strictly without one. */
  function Read(s: NativeScript, low: Option<U64>): NativeScript {
    if low.Some? then s else Strict(s)
  }

  lemma ReadLeaf(s: NativeScript, keys: set<Hash28>, low: Option<U64>, upp: Option<U64>)
    requires s.InvalidBefore? || s.InvalidHereafter? || s.ScriptPubkey?
    requires NonEmpty(low, upp)
    ensures Eval(s, keys, low, upp) <==> HoldsOn(Read(s, low), keys, low, upp)
  {
    if !s.ScriptPubkey? {
      LockExact(s, keys, low, upp);
    }
  }

  ghost predicate EachExact(v: seq<NativeScript>, w: seq<NativeScript>, keys: set<Hash28>, low: Option<U64>, upp: Option<U64>) {
    |v| == |w| && forall i | 0 <= i < |v| :: Eval(v[i], keys, low, upp) <==> HoldsOn(w[i], keys, low, upp)
  }

  lemma CountExact(n: U32, v: seq<NativeScript>, w: seq<NativeScript>, keys: set<Hash28>, low: Option<U64>, upp: Option<U64>)
    requires EachExact(v, w, keys, low, upp) && |v| <= U32_MAX
    ensures Eval(ScriptNOfK(n, v), keys, low, upp) <==> HoldsOn(ScriptNOfK(n, w), keys, low, upp)
  {
    CountByIndex(v, keys, low, upp);
    assert TrueOnes(v, keys, low, upp) == HoldingOn(w, keys, low, upp);
  }

  lemma AllExact(v: seq<NativeScript>, w: seq<NativeScript>, keys: set<Hash28>, low: Option<U64>, upp: Option<U64>)
    requires EachExact(v, w, keys, low, upp)
    ensures EvalAll(v, keys, low, upp) <==> HoldsOn(ScriptAll(w), keys, low, upp)
    ensures EvalAny(v, keys, low, upp) <==> HoldsOn(ScriptAny(w), keys, low, upp)
  {
    AllByIndex(v, keys, low, upp);
    AnyByIndex(v, keys, low, upp);
  }

  function ReadEach(v: seq<NativeScript>, low: Option<U64>): seq<NativeScript> {
    if low.Some? then v else StrictAll(v)
  }

  /**
   On every non-empty interval and for every script tree, evaluation is the meaning on the
   interval; without a lower bound, a lock from slot zero counts as closed.
   */
  lemma {:induction false} EvalOnInterval(s: NativeScript, keys: set<Hash28>, low: Option<U64>, upp: Option<U64>)
    requires Sized(s, U32_MAX) && NonEmpty(low, upp)
    ensures Eval(s, keys, low, upp) <==> HoldsOn(Read(s, low), keys, low, upp)
    decreases s, 1
  {
    match s
    case ScriptAll(v) =>
      EachOnInterval(v, keys, low, upp);
      AllExact(v, ReadEach(v, low), keys, low, upp);
      assert Read(s, low) == ScriptAll(ReadEach(v, low));
    case ScriptAny(v) =>
      EachOnInterval(v, keys, low, upp);
      AllExact(v, ReadEach(v, low), keys, low, upp);
      assert Read(s, low) == ScriptAny(ReadEach(v, low));
    case ScriptNOfK(n, v) =>
      EachOnInterval(v, keys, low, upp);
      CountExact(n, v, ReadEach(v, low), keys, low, upp);
      assert Read(s, low) == ScriptNOfK(n, ReadEach(v, low));
    case _ => ReadLeaf(s, keys, low, upp);
  }

  lemma {:induction false} EachOnInterval(v: seq<NativeScript>, keys: set<Hash28>, low: Option<U64>, upp: Option<U64>)
    requires AllSized(v, U32_MAX) && NonEmpty(low, upp)
    ensures EachExact(v, ReadEach(v, low), keys, low, upp)
    decreases v, 0
  {
    SizedEach(v, U32_MAX);
    forall i | 0 <= i < |v| ensures Eval(v[i], keys, low, upp) <==> HoldsOn(ReadEach(v, low)[i], keys, low, upp) {
      EvalOnInterval(v[i], keys, low, upp);
    }
  }

  /** No lock from slot zero anywhere in the tree. */
  predicate NoZeroLock(s: NativeScript) {
    Strict(s) == s
  }

  /** With a lower bound, or without a lock from slot zero, evaluation is the meaning of the script as it stands. */
  lemma EvalExact(s: NativeScript, keys: set<Hash28>, low: Option<U64>, upp: Option<U64>)
    requires Sized(s, U32_MAX) && NonEmpty(low, upp) && (low.Some? || NoZeroLock(s))
    ensures Eval(s, keys, low, upp) <==> HoldsOn(s, keys, low, upp)
  {
    EvalOnInterval(s, keys, low, upp);
  }

  lemma {:induction false} CountDecides(v: seq<NativeScript>, keys: set<Hash28>, low: Option<U64>, upp: Option<U64>)
    ensures EvalAll(v, keys, low, upp) <==> Count(v, keys, low, upp) == |v|
    ensures EvalAny(v, keys, low, upp) <==> Count(v, keys, low, upp) >= 1
    decreases v
  {
    if v != [] {
      CountDecides(v[..|v| - 1], keys, low, upp);
    }
  }

  /** All is N-of-K with N the length of the list, and Any is N-of-K with N one. */
  lemma AllAndAnyAreNOfK(v: seq<NativeScript>, keys: set<Hash28>, low: Option<U64>, upp: Option<U64>)
    requires |v| <= U32_MAX
    ensures Eval(ScriptAll(v), keys, low, upp) <==> Eval(ScriptNOfK(|v|, v), keys, low, upp)
    ensures Eval(ScriptAny(v), keys, low, upp) <==> Eval(ScriptNOfK(1, v), keys, low, upp)
  {
    CountDecides(v, keys, low, upp);
  }
}
