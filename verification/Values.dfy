/**
 Multi-asset values in their two forms: a list of policies with lists of assets, and nested
 maps. Both denote an amount for every policy and asset name.
 */
module Values {
  import opened Base
  import opened Sums

  type PolicyId = Hash28

  type AssetName = s: seq<Byte> | |s| <= 32 witness []

  datatype NativeAsset = NativeAsset(name: AssetName, amount: U64)

  type AssetList = seq<NativeAsset>

  datatype PolicyAssets = PolicyAssets(policy: PolicyId, assets: AssetList)

  datatype Value = Value(lovelace: U64, assets: seq<PolicyAssets>)

  type AssetMap = map<AssetName, U64>

  datatype ValueMap = ValueMap(lovelace: U64, assets: map<PolicyId, AssetMap>)

  const ZERO_VALUE := Value(0, [])
  const ZERO_MAP := ValueMap(0, map[])

  // ---------------------------------------------------------------------------------
  // Meaning

  function InList(list: AssetList, n: AssetName): nat {
    if list == [] then 0 else
    InList(list[..|list| - 1], n) + (if list[|list| - 1].name == n then list[|list| - 1].amount else 0)
  }

  function Contribution(entry: PolicyAssets, p: PolicyId, n: AssetName): nat {
    if entry.policy == p then InList(entry.assets, n) else 0
  }

  /** The amount a list form denotes: all entries for the policy and name together. */
  function Amount(assets: seq<PolicyAssets>, p: PolicyId, n: AssetName): nat {
    if assets == [] then 0 else
    Amount(assets[..|assets| - 1], p, n) + Contribution(assets[|assets| - 1], p, n)
  }

  ghost function NameTerm(list: AssetList, n: AssetName): int -> int {
    j => if 0 <= j < |list| && list[j].name == n then list[j].amount else 0
  }

  ghost function PolicyTerm(assets: seq<PolicyAssets>, p: PolicyId, n: AssetName): int -> int {
    i => if 0 <= i < |assets| && assets[i].policy == p then InList(assets[i].assets, n) else 0
  }

  lemma {:induction false} InListByPosition(list: AssetList, n: AssetName)
    ensures InList(list, n) == SumOver(Below(|list|), NameTerm(list, n))
  {
    if list != [] {
      var last := |list| - 1;
      InListByPosition(list[..last], n);
      NextPosition(last, NameTerm(list[..last], n), NameTerm(list, n));
    }
  }

  /** Every position of every list of the policy counts once. */
  lemma {:induction false} AmountByPosition(assets: seq<PolicyAssets>, p: PolicyId, n: AssetName)
    ensures Amount(assets, p, n) == SumOver(Below(|assets|), PolicyTerm(assets, p, n))
  {
    if assets != [] {
      var last := |assets| - 1;
      AmountByPosition(assets[..last], p, n);
      NextPosition(last, PolicyTerm(assets[..last], p, n), PolicyTerm(assets, p, n));
    }
  }

  function MapAmount(assets: map<PolicyId, AssetMap>, p: PolicyId, n: AssetName): nat {
    if p in assets && n in assets[p] then assets[p][n] else 0
  }

  // Which policies and names are mentioned, even with a zero amount or an empty list.

  function ListNames(list: AssetList): set<AssetName> {
    set i | 0 <= i < |list| :: list[i].name
  }

  function Policies(assets: seq<PolicyAssets>): set<PolicyId> {
    set i | 0 <= i < |assets| :: assets[i].policy
  }

  function Names(assets: seq<PolicyAssets>, p: PolicyId): set<AssetName> {
    if assets == [] then {} else
    Names(assets[..|assets| - 1], p) +
    (if assets[|assets| - 1].policy == p then ListNames(assets[|assets| - 1].assets) else {})
  }

  ghost predicate NamedAt(assets: seq<PolicyAssets>, p: PolicyId, n: AssetName, i: int) {
    0 <= i < |assets| && assets[i].policy == p && exists j :: 0 <= j < |assets[i].assets| && assets[i].assets[j].name == n
  }

  /** A name is mentioned under a policy exactly if some entry of some list of the policy has it. */
  lemma {:induction false} NamesByPosition(assets: seq<PolicyAssets>, p: PolicyId, n: AssetName)
    ensures n in Names(assets, p) <==> exists i :: NamedAt(assets, p, n, i)
  {
    if assets != [] {
      var last := |assets| - 1;
      var front := assets[..last];
      NamesByPosition(front, p, n);
      if i :| NamedAt(front, p, n, i) {
        assert NamedAt(assets, p, n, i);
      }
      if i :| NamedAt(assets, p, n, i) {
        assert i == last || NamedAt(front, p, n, i);
      }
      assert n in ListNames(assets[last].assets) <==>
             exists j :: 0 <= j < |assets[last].assets| && assets[last].assets[j].name == n;
      assert assets[last].policy == p && n in ListNames(assets[last].assets) ==> NamedAt(assets, p, n, last);
    }
  }

  function MapNames(assets: map<PolicyId, AssetMap>, p: PolicyId): set<AssetName> {
    if p in assets then assets[p].Keys else {}
  }

  ghost predicate DistinctNames(list: AssetList) {
    forall i, j | 0 <= i < j < |list| :: list[i].name != list[j].name
  }

  ghost predicate DuplicateFree(v: Value) {
    && (forall i, j | 0 <= i < j < |v.assets| :: v.assets[i].policy != v.assets[j].policy)
    && (forall i | 0 <= i < |v.assets| :: DistinctNames(v.assets[i].assets))
  }

  // ---------------------------------------------------------------------------------
  // Lists under update

  lemma InListAppend(list: AssetList, x: NativeAsset, n: AssetName)
    ensures InList(list + [x], n) == InList(list, n) + (if x.name == n then x.amount else 0)
  {
    assert (list + [x])[..|list|] == list;
  }

  lemma {:induction false} InListUpdate(list: AssetList, i: nat, amount: U64, n: AssetName)
    requires i < |list|
    ensures InList(list[i := list[i].(amount := amount)], n) ==
            InList(list, n) + (if list[i].name == n then amount - list[i].amount else 0)
  {
    var last := |list| - 1;
    var list' := list[i := list[i].(amount := amount)];
    if i == last {
      assert list'[..last] == list[..last];
    } else {
      InListUpdate(list[..last], i, amount, n);
      assert list'[..last] == list[..last][i := list[i].(amount := amount)];
    }
  }

  lemma {:induction false} InListAbsent(list: AssetList, n: AssetName)
    requires forall i | 0 <= i < |list| :: list[i].name != n
    ensures InList(list, n) == 0
  {
    if list != [] {
      InListAbsent(list[..|list| - 1], n);
    }
  }

  lemma {:induction false} InListAt(list: AssetList, i: nat)
    requires i < |list|
    ensures list[i].amount <= InList(list, list[i].name)
    ensures DistinctNames(list) ==> list[i].amount == InList(list, list[i].name)
  {
    var last := |list| - 1;
    if i < last {
      InListAt(list[..last], i);
    } else if DistinctNames(list) {
      InListAbsent(list[..last], list[i].name);
    }
  }

  lemma {:induction false} InListPrefix(list: AssetList, k: nat, n: AssetName)
    requires k <= |list|
    ensures InList(list[..k], n) <= InList(list, n)
  {
    if k < |list| {
      InListPrefix(list[..|list| - 1], k, n);
      assert list[..|list| - 1][..k] == list[..k];
    } else {
      assert list[..k] == list;
    }
  }

  lemma AmountAppend(assets: seq<PolicyAssets>, x: PolicyAssets, p: PolicyId, n: AssetName)
    ensures Amount(assets + [x], p, n) == Amount(assets, p, n) + Contribution(x, p, n)
    ensures Names(assets + [x], p) == Names(assets, p) + (if x.policy == p then ListNames(x.assets) else {})
  {
    assert (assets + [x])[..|assets|] == assets;
  }

  lemma {:induction false} AmountUpdate(assets: seq<PolicyAssets>, i: nat, x: PolicyAssets, p: PolicyId, n: AssetName)
    requires i < |assets|
    ensures Amount(assets[i := x], p, n) ==
            Amount(assets, p, n) - Contribution(assets[i], p, n) + Contribution(x, p, n)
  {
    var last := |assets| - 1;
    if i == last {
      assert assets[i := x][..last] == assets[..last];
    } else {
      AmountUpdate(assets[..last], i, x, p, n);
      assert assets[i := x][..last] == assets[..last][i := x];
    }
  }

  lemma {:induction false} NamesUpdate(assets: seq<PolicyAssets>, i: nat, list: AssetList, p: PolicyId)
    requires i < |assets| && ListNames(assets[i].assets) <= ListNames(list)
    ensures Names(assets[i := assets[i].(assets := list)], p) ==
            Names(assets, p) + (if assets[i].policy == p then ListNames(list) else {})
  {
    var last := |assets| - 1;
    var x := assets[i].(assets := list);
    if i == last {
      assert assets[i := x][..last] == assets[..last];
    } else {
      NamesUpdate(assets[..last], i, list, p);
      assert assets[i := x][..last] == assets[..last][i := x];
    }
  }

  lemma {:induction false} AmountAt(assets: seq<PolicyAssets>, i: nat, n: AssetName)
    requires i < |assets|
    ensures InList(assets[i].assets, n) <= Amount(assets, assets[i].policy, n)
  {
    var last := |assets| - 1;
    if i < last {
      AmountAt(assets[..last], i, n);
    }
  }

  lemma {:induction false} AmountAbsent(assets: seq<PolicyAssets>, p: PolicyId, n: AssetName)
    requires forall i | 0 <= i < |assets| :: assets[i].policy != p
    ensures Amount(assets, p, n) == 0
  {
    if assets != [] {
      AmountAbsent(assets[..|assets| - 1], p, n);
    }
  }

  lemma {:induction false} AmountAtDistinct(assets: seq<PolicyAssets>, i: nat, n: AssetName)
    requires i < |assets|
    requires forall j, k | 0 <= j < k < |assets| :: assets[j].policy != assets[k].policy
    ensures Amount(assets, assets[i].policy, n) == InList(assets[i].assets, n)
  {
    var last := |assets| - 1;
    if i < last {
      AmountAtDistinct(assets[..last], i, n);
    } else {
      AmountAbsent(assets[..last], assets[i].policy, n);
    }
  }

  lemma {:induction false} AmountPrefix(assets: seq<PolicyAssets>, k: nat, p: PolicyId, n: AssetName)
    requires k <= |assets|
    ensures Amount(assets[..k], p, n) <= Amount(assets, p, n)
  {
    if k < |assets| {
      AmountPrefix(assets[..|assets| - 1], k, p, n);
      assert assets[..|assets| - 1][..k] == assets[..k];
    } else {
      assert assets[..k] == assets;
    }
  }

  // ---------------------------------------------------------------------------------
  // List addition

  method FindName(list: AssetList, n: AssetName) returns (i: nat)
    ensures i <= |list| && (i < |list| ==> list[i].name == n)
    ensures forall j | 0 <= j < i :: list[j].name != n
  {
    i := 0;
    while i < |list| && list[i].name != n
      invariant i <= |list| && forall j | 0 <= j < i :: list[j].name != n
    {
      i := i + 1;
    }
  }

  method FindPolicy(assets: seq<PolicyAssets>, p: PolicyId) returns (i: nat)
    ensures i <= |assets| && (i < |assets| ==> assets[i].policy == p)
    ensures forall j | 0 <= j < i :: assets[j].policy != p
  {
    i := 0;
    while i < |assets| && assets[i].policy != p
      invariant i <= |assets| && forall j | 0 <= j < i :: assets[j].policy != p
    {
      i := i + 1;
    }
  }

  /** One asset joins a list: added to the first entry of its name, or put at the end. */
  method AddAsset(list: AssetList, x: NativeAsset) returns (r: AssetList)
    requires InList(list, x.name) + x.amount <= U64_MAX
    ensures forall n :: InList(r, n) == InList(list, n) + (if x.name == n then x.amount else 0)
    ensures ListNames(r) == ListNames(list) + {x.name}
    ensures DistinctNames(list) ==> DistinctNames(r)
  {
    var i := FindName(list, x.name);
    if i < |list| {
      InListAt(list, i);
      r := list[i := list[i].(amount := list[i].amount + x.amount)];
      forall n { InListUpdate(list, i, list[i].amount + x.amount, n); }
      assert forall j | 0 <= j < |list| :: r[j].name == list[j].name;
      assert ListNames(r) == ListNames(list) + {x.name} by {
        assert list[i].name in ListNames(list);
        forall y | y in ListNames(list) ensures y in ListNames(r) {
          var j :| 0 <= j < |list| && list[j].name == y;
          assert r[j].name == y;
        }
      }
    } else {
      r := list + [x];
      forall n { InListAppend(list, x, n); }
      NamesAppend(list, x);
    }
  }

  lemma NamesAppend(list: AssetList, x: NativeAsset)
    ensures ListNames(list + [x]) == ListNames(list) + {x.name}
  {
    var r := list + [x];
    assert r[|list|] == x;
    forall y | y in ListNames(list) ensures y in ListNames(r) {
      var j :| 0 <= j < |list| && list[j].name == y;
      assert r[j].name == y;
    }
  }

  ghost predicate Merged(a: AssetList, b: AssetList, r: AssetList) {
    && (forall n :: InList(r, n) == InList(a, n) + InList(b, n))
    && ListNames(r) == ListNames(a) + ListNames(b)
  }

  lemma MergedGrows(a: AssetList, b: AssetList, r: AssetList, x: NativeAsset, r': AssetList)
    requires Merged(a, b, r) && ListNames(r') == ListNames(r) + {x.name}
    requires forall n :: InList(r', n) == InList(r, n) + if x.name == n then x.amount else 0
    ensures Merged(a, b + [x], r')
  {
    NamesAppend(b, x);
    forall n ensures InList(r', n) == InList(a, n) + InList(b + [x], n) {
      InListAppend(b, x, n);
      assert InList(r, n) == InList(a, n) + InList(b, n);
    }
  }

  lemma RoomForAsset(a: AssetList, b: AssetList, k: nat, r: AssetList)
    requires k < |b| && Merged(a, b[..k], r)
    requires InList(a, b[k].name) + InList(b, b[k].name) <= U64_MAX
    ensures InList(r, b[k].name) + b[k].amount <= U64_MAX
  {
    assert b[..k + 1] == b[..k] + [b[k]];
    InListAppend(b[..k], b[k], b[k].name);
    InListPrefix(b, k + 1, b[k].name);
  }

  /** The assets of a policy present in both values. */
  method MergeAssets(existing: AssetList, other: AssetList) returns (r: AssetList)
    requires forall n :: InList(existing, n) + InList(other, n) <= U64_MAX
    ensures forall n :: InList(r, n) == InList(existing, n) + InList(other, n)
    ensures ListNames(r) == ListNames(existing) + ListNames(other)
    ensures DistinctNames(existing) ==> DistinctNames(r)
  {
    r := existing;
    for k := 0 to |other|
      invariant Merged(existing, other[..k], r)
      invariant DistinctNames(existing) ==> DistinctNames(r)
    {
      var x := other[k];
      RoomForAsset(existing, other, k, r);
      assert other[..k + 1] == other[..k] + [x];
      ghost var sum := r;
      r := AddAsset(r, x);
      MergedGrows(existing, other[..k], sum, x, r);
    }
    assert other[..|other|] == other;
  }

  /** `r` denotes the pointwise sum of `a` and `b` and mentions what either mentions. */
  ghost predicate ListSum(a: seq<PolicyAssets>, b: seq<PolicyAssets>, r: seq<PolicyAssets>) {
    && (forall p, n :: Amount(r, p, n) == Amount(a, p, n) + Amount(b, p, n))
    && (forall p :: Names(r, p) == Names(a, p) + Names(b, p))
    && Policies(r) == Policies(a) + Policies(b)
  }

  ghost predicate AssetsDuplicateFree(assets: seq<PolicyAssets>) {
    DuplicateFree(Value(0, assets))
  }

  lemma PoliciesAppend(assets: seq<PolicyAssets>, x: PolicyAssets)
    ensures Policies(assets + [x]) == Policies(assets) + {x.policy}
  {
    var r := assets + [x];
    assert r[|assets|] == x;
    forall y | y in Policies(assets) ensures y in Policies(r) {
      var j :| 0 <= j < |assets| && assets[j].policy == y;
      assert r[j].policy == y;
    }
  }

  lemma PoliciesUpdate(assets: seq<PolicyAssets>, i: nat, x: PolicyAssets)
    requires i < |assets| && x.policy == assets[i].policy
    ensures Policies(assets[i := x]) == Policies(assets) == Policies(assets) + {x.policy}
  {
    var r := assets[i := x];
    assert forall j | 0 <= j < |assets| :: r[j].policy == assets[j].policy;
    forall y | y in Policies(assets) ensures y in Policies(r) {
      var j :| 0 <= j < |assets| && assets[j].policy == y;
      assert r[j].policy == y;
    }
    assert assets[i].policy in Policies(assets);
  }

  method AddPolicy(assets: seq<PolicyAssets>, x: PolicyAssets) returns (r: seq<PolicyAssets>)
    requires forall n :: Amount(assets, x.policy, n) + InList(x.assets, n) <= U64_MAX
    ensures AddsPolicy(assets, x, r)
    ensures AssetsDuplicateFree(assets) && DistinctNames(x.assets) ==> AssetsDuplicateFree(r)
  {
    var i := FindPolicy(assets, x.policy);
    if i < |assets| {
      forall n { AmountAt(assets, i, n); }
      var merged := MergeAssets(assets[i].assets, x.assets);
      var entry := assets[i].(assets := merged);
      r := assets[i := entry];
      forall p, n { AmountUpdate(assets, i, entry, p, n); }
      forall p ensures Names(r, p) == Names(assets, p) + (if x.policy == p then ListNames(x.assets) else {}) {
        NamesUpdate(assets, i, merged, p);
        if p == x.policy { NamesContain(assets, i); }
      }
      PoliciesUpdate(assets, i, entry);
    } else {
      r := assets + [x];
      forall p, n { AmountAppend(assets, x, p, n); }
      PoliciesAppend(assets, x);
    }
  }

  lemma {:induction false} NamesContain(assets: seq<PolicyAssets>, i: nat)
    requires i < |assets|
    ensures ListNames(assets[i].assets) <= Names(assets, assets[i].policy)
  {
    if i < |assets| - 1 {
      NamesContain(assets[..|assets| - 1], i);
    }
  }

  ghost predicate AddsPolicy(assets: seq<PolicyAssets>, x: PolicyAssets, r: seq<PolicyAssets>) {
    && (forall p, n :: Amount(r, p, n) == Amount(assets, p, n) + Contribution(x, p, n))
    && (forall p :: Names(r, p) == Names(assets, p) + (if x.policy == p then ListNames(x.assets) else {}))
    && Policies(r) == Policies(assets) + {x.policy}
  }

  lemma ListSumGrows(a: seq<PolicyAssets>, b: seq<PolicyAssets>, sum: seq<PolicyAssets>, x: PolicyAssets, r: seq<PolicyAssets>)
    requires ListSum(a, b, sum) && AddsPolicy(sum, x, r)
    ensures ListSum(a, b + [x], r)
  {
    PoliciesAppend(b, x);
    forall p, n ensures Amount(r, p, n) == Amount(a, p, n) + Amount(b + [x], p, n) {
      AmountAppend(b, x, p, n);
    }
    forall p ensures Names(r, p) == Names(a, p) + Names(b + [x], p) {
      AmountAppend(b, x, p, []);
      assert Names(sum, p) == Names(a, p) + Names(b, p);
    }
  }

  /** `a += &b` on the list form, for amounts whose sums fit the word. */
  method AddAssign(a: Value, b: Value) returns (r: Value)
    requires a.lovelace + b.lovelace <= U64_MAX
    requires forall p, n :: Amount(a.assets, p, n) + Amount(b.assets, p, n) <= U64_MAX
    ensures r.lovelace == a.lovelace + b.lovelace
    ensures ListSum(a.assets, b.assets, r.assets)
    ensures DuplicateFree(a) && DuplicateFree(b) ==> DuplicateFree(r)
  {
    var assets := a.assets;
    for k := 0 to |b.assets|
      invariant ListSum(a.assets, b.assets[..k], assets)
      invariant DuplicateFree(a) && DuplicateFree(b) ==> AssetsDuplicateFree(assets)
    {
      var x := b.assets[k];
      assert b.assets[..k + 1] == b.assets[..k] + [x];
      forall n ensures Amount(assets, x.policy, n) + InList(x.assets, n) <= U64_MAX {
        RoomForNext(a.assets, b.assets, k, assets, n);
      }
      ghost var sum := assets;
      assets := AddPolicy(assets, x);
      ListSumGrows(a.assets, b.assets[..k], sum, x, assets);
    }
    assert b.assets[..|b.assets|] == b.assets;
    r := Value(a.lovelace + b.lovelace, assets);
  }

  lemma RoomForNext(a: seq<PolicyAssets>, b: seq<PolicyAssets>, k: nat, sum: seq<PolicyAssets>, n: AssetName)
    requires k < |b|
    requires Amount(sum, b[k].policy, n) == Amount(a, b[k].policy, n) + Amount(b[..k], b[k].policy, n)
    requires Amount(a, b[k].policy, n) + Amount(b, b[k].policy, n) <= U64_MAX
    ensures Amount(sum, b[k].policy, n) + InList(b[k].assets, n) <= U64_MAX
  {
    assert b[..k + 1] == b[..k] + [b[k]];
    AmountAppend(b[..k], b[k], b[k].policy, n);
    AmountPrefix(b, k + 1, b[k].policy, n);
  }

  /** The first entry of the first list of the policy; in a duplicate-free value, all there is. */
  method TokenAmount(v: Value, p: PolicyId, n: AssetName) returns (amount: U64)
    ensures amount <= Amount(v.assets, p, n)
    ensures DuplicateFree(v) ==> amount == Amount(v.assets, p, n)
  {
    var i := FindPolicy(v.assets, p);
    if i == |v.assets| {
      AmountAbsent(v.assets, p, n);
      return 0;
    }
    AmountAt(v.assets, i, n);
    if DuplicateFree(v) {
      AmountAtDistinct(v.assets, i, n);
    }
    var list := v.assets[i].assets;
    var j := FindName(list, n);
    if j == |list| {
      InListAbsent(list, n);
      return 0;
    }
    InListAt(list, j);
    amount := list[j].amount;
  }

  // ---------------------------------------------------------------------------------
  // Map form

  /** Same lovelace, same policies, same names and same amounts: the same map. */
  lemma MapExtensional(a: map<PolicyId, AssetMap>, b: map<PolicyId, AssetMap>)
    requires a.Keys == b.Keys
    requires forall p | p in a :: MapNames(a, p) == MapNames(b, p)
    requires forall p, n :: MapAmount(a, p, n) == MapAmount(b, p, n)
    ensures a == b
  {
    forall p | p in a ensures a[p] == b[p] {
      assert a[p].Keys == MapNames(a, p) == MapNames(b, p) == b[p].Keys;
      forall n | n in a[p] ensures a[p][n] == b[p][n] {
        assert MapAmount(a, p, n) == MapAmount(b, p, n);
      }
    }
  }

  /** The map form of a list: what the list mentions, with its amounts cut at the word. */
  ghost predicate MapOf(assets: seq<PolicyAssets>, m: map<PolicyId, AssetMap>) {
    && m.Keys == Policies(assets)
    && (forall p :: MapNames(m, p) == Names(assets, p))
    && (forall p, n :: MapAmount(m, p, n) == Min(Amount(assets, p, n), U64_MAX))
  }

  lemma MapOfUnique(assets: seq<PolicyAssets>, m1: map<PolicyId, AssetMap>, m2: map<PolicyId, AssetMap>)
    requires MapOf(assets, m1) && MapOf(assets, m2)
    ensures m1 == m2
  {
    MapExtensional(m1, m2);
  }

  ghost predicate MapSum(a: map<PolicyId, AssetMap>, b: map<PolicyId, AssetMap>, r: map<PolicyId, AssetMap>) {
    && r.Keys == a.Keys + b.Keys
    && (forall p :: MapNames(r, p) == MapNames(a, p) + MapNames(b, p))
    && (forall p, n :: MapAmount(r, p, n) == MapAmount(a, p, n) + MapAmount(b, p, n))
  }

  ghost predicate SaturatedSum(m: map<PolicyId, AssetMap>, assets: seq<PolicyAssets>, r: map<PolicyId, AssetMap>) {
    && r.Keys == m.Keys + Policies(assets)
    && (forall p :: MapNames(r, p) == MapNames(m, p) + Names(assets, p))
    && (forall p, n :: MapAmount(r, p, n) == Min(MapAmount(m, p, n) + Amount(assets, p, n), U64_MAX))
  }

  ghost predicate AssetsAdded(m: AssetMap, list: AssetList, r: AssetMap) {
    && r.Keys == m.Keys + ListNames(list)
    && (forall n | n in r :: r[n] == Min((if n in m then m[n] else 0) + InList(list, n), U64_MAX))
  }

  lemma AssetsAddedGrows(m: AssetMap, list: AssetList, r: AssetMap, x: NativeAsset)
    requires AssetsAdded(m, list, r)
    ensures AssetsAdded(m, list + [x], r[x.name := SaturatingAdd(if x.name in r then r[x.name] else 0, x.amount)])
  {
    NamesAppend(list, x);
    if x.name !in r {
      InListUnmentioned(list, x.name);
    }
    forall n | n in r || n == x.name
      ensures InList(list + [x], n) == InList(list, n) + (if x.name == n then x.amount else 0)
    {
      InListAppend(list, x, n);
    }
  }

  method AddAssetsToMap(m: AssetMap, list: AssetList) returns (r: AssetMap)
    ensures AssetsAdded(m, list, r)
  {
    r := m;
    for k := 0 to |list|
      invariant AssetsAdded(m, list[..k], r)
    {
      var x := list[k];
      assert list[..k + 1] == list[..k] + [x];
      AssetsAddedGrows(m, list[..k], r, x);
      r := r[x.name := SaturatingAdd(if x.name in r then r[x.name] else 0, x.amount)];
    }
    assert list[..|list|] == list;
  }

  lemma InListUnmentioned(list: AssetList, n: AssetName)
    requires n !in ListNames(list)
    ensures InList(list, n) == 0
  {
    forall i | 0 <= i < |list| ensures list[i].name != n {
      assert list[i].name in ListNames(list);
    }
    InListAbsent(list, n);
  }

  ghost predicate AddsPolicyToMap(m: map<PolicyId, AssetMap>, x: PolicyAssets, r: map<PolicyId, AssetMap>) {
    && r.Keys == m.Keys + {x.policy}
    && (forall p :: MapNames(r, p) == MapNames(m, p) + (if x.policy == p then ListNames(x.assets) else {}))
    && (forall p, n :: MapAmount(r, p, n) == Min(MapAmount(m, p, n) + Contribution(x, p, n), U64_MAX))
  }

  lemma SaturatedAmountGrows(m: map<PolicyId, AssetMap>, b: seq<PolicyAssets>, sum: map<PolicyId, AssetMap>,
                             x: PolicyAssets, r: map<PolicyId, AssetMap>, p: PolicyId, n: AssetName)
    requires MapAmount(sum, p, n) == Min(MapAmount(m, p, n) + Amount(b, p, n), U64_MAX)
    requires MapAmount(r, p, n) == Min(MapAmount(sum, p, n) + Contribution(x, p, n), U64_MAX)
    ensures MapAmount(r, p, n) == Min(MapAmount(m, p, n) + Amount(b + [x], p, n), U64_MAX)
  {
    AmountAppend(b, x, p, n);
  }

  lemma SaturatedSumGrows(m: map<PolicyId, AssetMap>, b: seq<PolicyAssets>, sum: map<PolicyId, AssetMap>,
                          x: PolicyAssets, r: map<PolicyId, AssetMap>)
    requires SaturatedSum(m, b, sum) && AddsPolicyToMap(sum, x, r)
    ensures SaturatedSum(m, b + [x], r)
  {
    PoliciesAppend(b, x);
    forall p, n ensures MapAmount(r, p, n) == Min(MapAmount(m, p, n) + Amount(b + [x], p, n), U64_MAX) {
      SaturatedAmountGrows(m, b, sum, x, r, p, n);
    }
    forall p ensures MapNames(r, p) == MapNames(m, p) + Names(b + [x], p) {
      AmountAppend(b, x, p, []);
    }
  }

  lemma PolicyAmountAdded(m: map<PolicyId, AssetMap>, x: PolicyAssets, merged: AssetMap, p: PolicyId, n: AssetName)
    requires AssetsAdded(if x.policy in m then m[x.policy] else map[], x.assets, merged)
    ensures MapAmount(m[x.policy := merged], p, n) == Min(MapAmount(m, p, n) + Contribution(x, p, n), U64_MAX)
  {
    if p == x.policy && n !in merged {
      InListUnmentioned(x.assets, n);
    }
  }

  lemma PolicyAdded(m: map<PolicyId, AssetMap>, x: PolicyAssets, merged: AssetMap)
    requires AssetsAdded(if x.policy in m then m[x.policy] else map[], x.assets, merged)
    ensures AddsPolicyToMap(m, x, m[x.policy := merged])
  {
    var r := m[x.policy := merged];
    assert forall p :: MapNames(r, p) == MapNames(m, p) + (if x.policy == p then ListNames(x.assets) else {});
    forall p, n ensures MapAmount(r, p, n) == Min(MapAmount(m, p, n) + Contribution(x, p, n), U64_MAX) {
      PolicyAmountAdded(m, x, merged, p, n);
    }
  }

  method AddPolicyToMap(m: map<PolicyId, AssetMap>, x: PolicyAssets) returns (r: map<PolicyId, AssetMap>)
    ensures AddsPolicyToMap(m, x, r)
  {
    var entry := if x.policy in m then m[x.policy] else map[];
    var merged := AddAssetsToMap(entry, x.assets);
    PolicyAdded(m, x, merged);
    r := m[x.policy := merged];
  }

  /** Adding a value to a map never fails: it is the pointwise sum, cut at the word. */
  method AddValue(m: ValueMap, v: Value) returns (r: ValueMap)
    ensures r.lovelace == Min(m.lovelace + v.lovelace, U64_MAX)
    ensures SaturatedSum(m.assets, v.assets, r.assets)
  {
    var assets := m.assets;
    for k := 0 to |v.assets|
      invariant SaturatedSum(m.assets, v.assets[..k], assets)
    {
      var x := v.assets[k];
      assert v.assets[..k + 1] == v.assets[..k] + [x];
      ghost var sum := assets;
      assets := AddPolicyToMap(assets, x);
      SaturatedSumGrows(m.assets, v.assets[..k], sum, x, assets);
    }
    assert v.assets[..|v.assets|] == v.assets;
    r := ValueMap(SaturatingAdd(m.lovelace, v.lovelace), assets);
  }

  method ToMap(v: Value) returns (m: ValueMap)
    ensures m.lovelace == v.lovelace && MapOf(v.assets, m.assets)
  {
    m := AddValue(ZERO_MAP, v);
  }

  /** The sum so far, with the policies in `todo` still to come. */
  ghost predicate MapSumSoFar(a: map<PolicyId, AssetMap>, b: map<PolicyId, AssetMap>, todo: set<PolicyId>,
                              r: map<PolicyId, AssetMap>)
  {
    MapSum(a, b - todo, r)
  }

  /** What one policy's merged entry does to one amount of the sum. */
  lemma MergedAmount(a: map<PolicyId, AssetMap>, part: map<PolicyId, AssetMap>, m: map<PolicyId, AssetMap>,
                     p: PolicyId, added: AssetMap, merged: AssetMap, q: PolicyId, n: AssetName)
    requires p !in part && MapAmount(m, q, n) == MapAmount(a, q, n) + MapAmount(part, q, n)
    requires merged.Keys == MapNames(m, p) + added.Keys
    requires n in merged ==> merged[n] == MapAmount(m, p, n) + if n in added then added[n] else 0
    ensures MapAmount(m[p := merged], q, n) == MapAmount(a, q, n) + MapAmount(part[p := added], q, n)
  {
  }

  lemma MergedNames(a: map<PolicyId, AssetMap>, part: map<PolicyId, AssetMap>, m: map<PolicyId, AssetMap>,
                    p: PolicyId, added: AssetMap, merged: AssetMap, q: PolicyId)
    requires p !in part && MapNames(m, q) == MapNames(a, q) + MapNames(part, q)
    requires merged.Keys == MapNames(m, p) + added.Keys
    ensures MapNames(m[p := merged], q) == MapNames(a, q) + MapNames(part[p := added], q)
  {
  }

  lemma AddPolicyMapSum(a: map<PolicyId, AssetMap>, b: map<PolicyId, AssetMap>, todo: set<PolicyId>,
                        m: map<PolicyId, AssetMap>, p: PolicyId, merged: AssetMap)
    requires p in todo && p in b && MapSumSoFar(a, b, todo, m)
    requires merged.Keys == MapNames(m, p) + b[p].Keys
    requires forall n | n in merged :: merged[n] == MapAmount(m, p, n) + MapAmount(b, p, n)
    ensures MapSumSoFar(a, b, todo - {p}, m[p := merged])
  {
    var r, part := m[p := merged], b - todo;
    var part' := part[p := b[p]];
    assert b - (todo - {p}) == part';
    forall q ensures MapNames(r, q) == MapNames(a, q) + MapNames(part', q) {
      MergedNames(a, part, m, p, b[p], merged, q);
    }
    forall q, n ensures MapAmount(r, q, n) == MapAmount(a, q, n) + MapAmount(part', q, n) {
      MergedAmount(a, part, m, p, b[p], merged, q, n);
    }
    assert r.Keys == a.Keys + part'.Keys;
  }

  method AddPolicyMap(ghost a: map<PolicyId, AssetMap>, b: map<PolicyId, AssetMap>, ghost todo: set<PolicyId>,
                      m: map<PolicyId, AssetMap>, p: PolicyId) returns (r: map<PolicyId, AssetMap>)
    requires p in todo && p in b && MapSumSoFar(a, b, todo, m)
    requires forall n :: MapAmount(a, p, n) + MapAmount(b, p, n) <= U64_MAX
    ensures MapSumSoFar(a, b, todo - {p}, r)
  {
    var entry := if p in m then m[p] else map[];
    forall n | n in entry && n in b[p] ensures entry[n] + b[p][n] <= U64_MAX {
      assert MapAmount(m, p, n) == MapAmount(a, p, n) + MapAmount(b - todo, p, n);
      assert MapAmount(a, p, n) + MapAmount(b, p, n) <= U64_MAX;
    }
    var merged := MergeMaps(entry, b[p]);
    AddPolicyMapSum(a, b, todo, m, p, merged);
    r := m[p := merged];
  }

  /** `a += b` on the map form, for amounts whose sums fit the word. */
  method AddAssignMap(a: ValueMap, b: ValueMap) returns (r: ValueMap)
    requires a.lovelace + b.lovelace <= U64_MAX
    requires forall p, n :: MapAmount(a.assets, p, n) + MapAmount(b.assets, p, n) <= U64_MAX
    ensures r.lovelace == a.lovelace + b.lovelace
    ensures MapSum(a.assets, b.assets, r.assets)
  {
    var assets := a.assets;
    var todo := b.assets.Keys;
    while todo != {}
      invariant todo <= b.assets.Keys
      invariant MapSumSoFar(a.assets, b.assets, todo, assets)
      decreases todo
    {
      var p :| p in todo;
      assets := AddPolicyMap(a.assets, b.assets, todo, assets, p);
      todo := todo - {p};
    }
    assert b.assets - todo == b.assets;
    r := ValueMap(a.lovelace + b.lovelace, assets);
  }

  method MergeMaps(a: AssetMap, b: AssetMap) returns (r: AssetMap)
    requires forall n | n in a && n in b :: a[n] + b[n] <= U64_MAX
    ensures r.Keys == a.Keys + b.Keys
    ensures forall n | n in r :: r[n] == (if n in a then a[n] else 0) + (if n in b then b[n] else 0)
  {
    r := a;
    var todo := b.Keys;
    while todo != {}
      invariant todo <= b.Keys && r.Keys == a.Keys + (b.Keys - todo)
      invariant forall n | n in r ::
          r[n] == (if n in a then a[n] else 0) + (if n in b && n !in todo then b[n] else 0)
      decreases todo
    {
      var n :| n in todo;
      r := r[n := (if n in r then r[n] else 0) + b[n]];
      todo := todo - {n};
    }
  }

  lemma CutSum(x: nat, y: nat)
    requires x + y <= U64_MAX
    ensures Min(x + y, U64_MAX) == Min(x, U64_MAX) + Min(y, U64_MAX)
  {
  }

  lemma AmountCommutes(a: seq<PolicyAssets>, b: seq<PolicyAssets>, sum: seq<PolicyAssets>,
                       ma: map<PolicyId, AssetMap>, mb: map<PolicyId, AssetMap>,
                       ofSum: map<PolicyId, AssetMap>, sumOf: map<PolicyId, AssetMap>, p: PolicyId, n: AssetName)
    requires Amount(a, p, n) + Amount(b, p, n) <= U64_MAX
    requires ListSum(a, b, sum) && MapOf(a, ma) && MapOf(b, mb)
    requires MapOf(sum, ofSum) && MapSum(ma, mb, sumOf)
    ensures MapAmount(ofSum, p, n) == MapAmount(sumOf, p, n)
  {
    assert MapAmount(ofSum, p, n) == Min(Amount(sum, p, n), U64_MAX);
    assert MapAmount(sumOf, p, n) == MapAmount(ma, p, n) + MapAmount(mb, p, n);
    CutSum(Amount(a, p, n), Amount(b, p, n));
  }

  lemma NamesCommute(a: seq<PolicyAssets>, b: seq<PolicyAssets>, sum: seq<PolicyAssets>,
                     ma: map<PolicyId, AssetMap>, mb: map<PolicyId, AssetMap>,
                     ofSum: map<PolicyId, AssetMap>, sumOf: map<PolicyId, AssetMap>, p: PolicyId)
    requires ListSum(a, b, sum) && MapOf(a, ma) && MapOf(b, mb)
    requires MapOf(sum, ofSum) && MapSum(ma, mb, sumOf)
    ensures MapNames(ofSum, p) == MapNames(sumOf, p)
  {
    assert MapNames(ofSum, p) == Names(sum, p);
    assert MapNames(sumOf, p) == MapNames(ma, p) + MapNames(mb, p);
  }

  /** Converting to the map form commutes with addition: the map of the sum is the sum of the maps. */
  lemma ConversionCommutes(a: seq<PolicyAssets>, b: seq<PolicyAssets>, sum: seq<PolicyAssets>,
                           ma: map<PolicyId, AssetMap>, mb: map<PolicyId, AssetMap>,
                           ofSum: map<PolicyId, AssetMap>, sumOf: map<PolicyId, AssetMap>)
    requires forall p, n :: Amount(a, p, n) + Amount(b, p, n) <= U64_MAX
    requires ListSum(a, b, sum) && MapOf(a, ma) && MapOf(b, mb)
    requires MapOf(sum, ofSum) && MapSum(ma, mb, sumOf)
    ensures ofSum == sumOf
  {
    forall p, n ensures MapAmount(ofSum, p, n) == MapAmount(sumOf, p, n) {
      AmountCommutes(a, b, sum, ma, mb, ofSum, sumOf, p, n);
    }
    forall p ensures MapNames(ofSum, p) == MapNames(sumOf, p) {
      NamesCommute(a, b, sum, ma, mb, ofSum, sumOf, p);
    }
    MapExtensional(ofSum, sumOf);
  }

  // ---------------------------------------------------------------------------------
  // Back to a list

  method AssetsToList(m: AssetMap) returns (list: AssetList)
    ensures ListNames(list) == m.Keys && DistinctNames(list)
    ensures forall n :: InList(list, n) == if n in m then m[n] else 0
  {
    list := [];
    var todo := m.Keys;
    while todo != {}
      invariant todo <= m.Keys
      invariant ListNames(list) == m.Keys - todo && DistinctNames(list)
      invariant forall n :: InList(list, n) == if n in m && n !in todo then m[n] else 0
      decreases todo
    {
      var n :| n in todo;
      var x := NativeAsset(n, m[n]);
      NamesAppend(list, x);
      forall k { InListAppend(list, x, k); }
      assert forall i | 0 <= i < |list| :: list[i].name in ListNames(list);
      list := list + [x];
      todo := todo - {n};
    }
  }

  /** The list so far names exactly the policies that are no longer to come. */
  ghost predicate ListedSoFar(m: map<PolicyId, AssetMap>, todo: set<PolicyId>, assets: seq<PolicyAssets>) {
    && Policies(assets) == m.Keys - todo
    && AssetsDuplicateFree(assets)
    && (forall p :: Names(assets, p) == if p in todo then {} else MapNames(m, p))
    && (forall p, n :: Amount(assets, p, n) == if p in todo then 0 else MapAmount(m, p, n))
  }

  lemma ListedAmount(m: map<PolicyId, AssetMap>, todo: set<PolicyId>, assets: seq<PolicyAssets>,
                     x: PolicyAssets, q: PolicyId, n: AssetName)
    requires x.policy in todo && x.policy in m
    requires Amount(assets, q, n) == if q in todo then 0 else MapAmount(m, q, n)
    requires InList(x.assets, n) == if n in m[x.policy] then m[x.policy][n] else 0
    ensures Amount(assets + [x], q, n) == if q in todo - {x.policy} then 0 else MapAmount(m, q, n)
  {
    AmountAppend(assets, x, q, n);
  }

  lemma ListedNames(m: map<PolicyId, AssetMap>, todo: set<PolicyId>, assets: seq<PolicyAssets>,
                    x: PolicyAssets, q: PolicyId)
    requires x.policy in todo && x.policy in m && ListNames(x.assets) == m[x.policy].Keys
    requires Names(assets, q) == if q in todo then {} else MapNames(m, q)
    ensures Names(assets + [x], q) == if q in todo - {x.policy} then {} else MapNames(m, q)
  {
    AmountAppend(assets, x, q, []);
  }

  lemma StaysDuplicateFree(assets: seq<PolicyAssets>, x: PolicyAssets)
    requires AssetsDuplicateFree(assets) && x.policy !in Policies(assets) && DistinctNames(x.assets)
    ensures AssetsDuplicateFree(assets + [x])
  {
    assert forall i | 0 <= i < |assets| :: assets[i].policy in Policies(assets);
  }

  lemma ListPolicy(m: map<PolicyId, AssetMap>, todo: set<PolicyId>, assets: seq<PolicyAssets>, p: PolicyId, list: AssetList)
    requires ListedSoFar(m, todo, assets) && p in todo && p in m
    requires ListNames(list) == m[p].Keys && DistinctNames(list)
    requires forall n :: InList(list, n) == if n in m[p] then m[p][n] else 0
    ensures ListedSoFar(m, todo - {p}, assets + [PolicyAssets(p, list)])
  {
    var x := PolicyAssets(p, list);
    PoliciesAppend(assets, x);
    StaysDuplicateFree(assets, x);
    forall q, n ensures Amount(assets + [x], q, n) == if q in todo - {p} then 0 else MapAmount(m, q, n) {
      ListedAmount(m, todo, assets, x, q, n);
    }
    forall q ensures Names(assets + [x], q) == if q in todo - {p} then {} else MapNames(m, q) {
      ListedNames(m, todo, assets, x, q);
    }
  }

  /** The list form of a map, in any order: duplicate-free, and its map form is the map again. */
  method ToValue(m: ValueMap) returns (v: Value)
    ensures v.lovelace == m.lovelace
    ensures DuplicateFree(v) && MapOf(v.assets, m.assets)
  {
    var assets: seq<PolicyAssets> := [];
    var todo := m.assets.Keys;
    while todo != {}
      invariant todo <= m.assets.Keys
      invariant ListedSoFar(m.assets, todo, assets)
      decreases todo
    {
      var p :| p in todo;
      var list := AssetsToList(m.assets[p]);
      ListPolicy(m.assets, todo, assets, p, list);
      assets := assets + [PolicyAssets(p, list)];
      todo := todo - {p};
    }
    v := Value(m.lovelace, assets);
  }

  /** Map to list and back is the identity. */
  method MapRoundTrip(m: ValueMap) returns (m': ValueMap)
    ensures m' == m
  {
    var v := ToValue(m);
    m' := ToMap(v);
    MapOfUnique(v.assets, m.assets, m'.assets);
  }

  // ---------------------------------------------------------------------------------
  // Normal form

  function NonZero(assets: AssetMap): AssetMap {
    map n | n in assets && assets[n] != 0 :: assets[n]
  }

  function RemoveZeroAmounts(m: ValueMap): ValueMap {
    m.(assets := map p | p in m.assets && NonZero(m.assets[p]) != map[] :: NonZero(m.assets[p]))
  }

  predicate Normal(m: ValueMap) {
    forall p | p in m.assets :: m.assets[p] != map[] && forall n | n in m.assets[p] :: m.assets[p][n] != 0
  }

  /** Removing zeros leaves the meaning alone and brings every map to normal form. */
  lemma RemoveZeroAmountsNormalizes(m: ValueMap)
    ensures Normal(RemoveZeroAmounts(m))
    ensures RemoveZeroAmounts(m).lovelace == m.lovelace
    ensures forall p, n :: MapAmount(RemoveZeroAmounts(m).assets, p, n) == MapAmount(m.assets, p, n)
  {
    var r := RemoveZeroAmounts(m);
    forall p, n ensures MapAmount(r.assets, p, n) == MapAmount(m.assets, p, n) {
      if p in m.assets && n in m.assets[p] && m.assets[p][n] != 0 {
        assert n in NonZero(m.assets[p]);
      }
    }
  }

  /** Between normal forms, equality of maps is equality of every amount. */
  lemma NormalEquality(a: ValueMap, b: ValueMap)
    requires Normal(a) && Normal(b)
    ensures a == b <==>
            a.lovelace == b.lovelace && forall p, n :: MapAmount(a.assets, p, n) == MapAmount(b.assets, p, n)
  {
    if a.lovelace == b.lovelace && forall p, n :: MapAmount(a.assets, p, n) == MapAmount(b.assets, p, n) {
      NormalIncluded(a, b);
      NormalIncluded(b, a);
      MapExtensional(a.assets, b.assets);
    }
  }

  lemma NormalIncluded(a: ValueMap, b: ValueMap)
    requires Normal(a)
    requires forall p, n :: MapAmount(a.assets, p, n) == MapAmount(b.assets, p, n)
    ensures a.assets.Keys <= b.assets.Keys
    ensures forall p | p in a.assets :: MapNames(a.assets, p) <= MapNames(b.assets, p)
  {
    forall p, n | p in a.assets && n in a.assets[p] ensures p in b.assets && n in b.assets[p] {
      assert MapAmount(a.assets, p, n) == MapAmount(b.assets, p, n);
    }
    forall p | p in a.assets ensures p in b.assets {
      var n :| n in a.assets[p];
    }
  }
}
