/**
 Epoch snapshots: per pool, the list of delegators with their stake, the total, and the
 registration data rewards are computed from. One is built from the account map at an epoch
 boundary, the other from the raw maps of a bootstrap file.
 */
module Snapshots {
  import opened Base
  import opened Sums
  import opened Accounts
  import opened StakeAddresses
  import opened Distributions

  datatype Ratio = Ratio(numerator: U64, denominator: U64)

  datatype PoolRegistration = PoolRegistration(
    pledge: U64, cost: U64, margin: Ratio, rewardAccount: StakeAddress, poolOwners: seq<StakeAddress>)

  type DelegatorList = seq<(StakeAddress, U64)>

  datatype SnapshotSPO = SnapshotSPO(
    delegators: DelegatorList, totalStake: U64,
    pledge: U64, fixedCost: U64, margin: Ratio, blocksProduced: nat,
    rewardAccount: StakeAddress, poolOwners: seq<StakeAddress>,
    twoPreviousRewardAccountIsRegistered: bool)

  datatype EpochSnapshot = EpochSnapshot(epoch: U64, spos: map<PoolId, SnapshotSPO>, blocks: nat)

  function ZeroHash(): Hash28 {
    seq(28, _ => 0)
  }

  function DefaultSpo(): SnapshotSPO {
    SnapshotSPO([], 0, 0, 0, Ratio(0, 0), 0, StakeAddress(Mainnet, AddrKeyHash(ZeroHash())), [], false)
  }

  // ---------------------------------------------------------------------------------
  // Delegator lists

  /** The list names each address of `who` exactly once, with its amount, and nobody else. */
  ghost predicate Lists(list: DelegatorList, who: set<StakeAddress>, amount: StakeAddress -> int)
    decreases |list|
  {
    if list == [] then who == {} else
    var (a, x) := list[|list| - 1];
    a in who && x == amount(a) && Lists(list[..|list| - 1], who - {a}, amount)
  }

  function ListTotal(list: DelegatorList): nat {
    if list == [] then 0 else ListTotal(list[..|list| - 1]) + list[|list| - 1].1
  }

  lemma ListsPush(list: DelegatorList, who: set<StakeAddress>, amount: StakeAddress -> int, a: StakeAddress, x: U64)
    requires Lists(list, who, amount) && a !in who && x == amount(a)
    ensures Lists(list + [(a, x)], who + {a}, amount)
  {
    assert (list + [(a, x)])[..|list|] == list;
    assert who + {a} - {a} == who;
  }

  lemma {:induction false} ListTotalIsSum(list: DelegatorList, who: set<StakeAddress>, amount: StakeAddress -> int)
    requires Lists(list, who, amount)
    ensures ListTotal(list) == SumOver(who, amount)
    decreases |list|
  {
    if list != [] {
      var a := list[|list| - 1].0;
      ListTotalIsSum(list[..|list| - 1], who - {a}, amount);
      SumRemove(who, amount, a);
    }
  }

  lemma {:induction false} ListedOnce(list: DelegatorList, who: set<StakeAddress>, amount: StakeAddress -> int, e: (StakeAddress, U64))
    requires Lists(list, who, amount)
    ensures multiset(list)[e] == if e.0 in who && e.1 == amount(e.0) then 1 else 0
    decreases |list|
  {
    if list != [] {
      var last := |list| - 1;
      assert list == list[..last] + [list[last]];
      ListedOnce(list[..last], who - {list[last].0}, amount, e);
    }
  }

  /** Whatever the visiting order, two lists of the same delegators are permutations of each other. */
  lemma ListsArePermutations(l1: DelegatorList, l2: DelegatorList, who: set<StakeAddress>, amount: StakeAddress -> int)
    requires Lists(l1, who, amount) && Lists(l2, who, amount)
    ensures multiset(l1) == multiset(l2)
  {
    forall e: (StakeAddress, U64) ensures multiset(l1)[e] == multiset(l2)[e] {
      ListedOnce(l1, who, amount, e);
      ListedOnce(l2, who, amount, e);
    }
  }

  /** A pool's list and total describe exactly the delegators in `who`. */
  ghost predicate Filled(list: DelegatorList, total: int, who: set<StakeAddress>, amount: StakeAddress -> int) {
    Lists(list, who, amount) && total == ListTotal(list) == SumOver(who, amount)
  }

  lemma FilledPush(list: DelegatorList, total: int, who: set<StakeAddress>, amount: StakeAddress -> int, a: StakeAddress, x: U64)
    requires Filled(list, total, who, amount) && a !in who && x == amount(a)
    ensures Filled(list + [(a, x)], total + x, who + {a}, amount)
  {
    ListsPush(list, who, amount, a, x);
    ListTotalIsSum(list + [(a, x)], who + {a}, amount);
    SumAdd(who, amount, a);
  }

  // ---------------------------------------------------------------------------------
  // Snapshot at an epoch boundary

  ghost function ActiveDelegators(m: Accounts, pool: PoolId): set<StakeAddress> {
    set a | a in m && m[a].registered && StakeOf(m, a) > 0 && m[a].delegatedSpo == Some(pool)
  }

  /** A snapshot lists exactly the registered delegators of the pool with their positive stake, each once. */
  lemma ListedExactly(m: Accounts, pool: PoolId, list: DelegatorList, total: int, a: StakeAddress, x: U64)
    requires Filled(list, total, ActiveDelegators(m, pool), StakeTerm(m))
    ensures (a, x) in list <==>
            a in m && m[a].registered && m[a].delegatedSpo == Some(pool) && x == m[a].utxoValue + m[a].rewards && x > 0
    ensures multiset(list)[(a, x)] <= 1
  {
    ListedOnce(list, ActiveDelegators(m, pool), StakeTerm(m), (a, x));
    assert (a, x) in list <==> (a, x) in multiset(list);
  }

  function SeedSpo(m: Accounts, spos: map<PoolId, PoolRegistration>, blockCounts: map<PoolId, nat>,
                   twoPrevious: EpochSnapshot, id: PoolId): SnapshotSPO
  {
    var blocksProduced := if id in blockCounts then blockCounts[id] else 0;
    var stillRegistered :=
      id in twoPrevious.spos && GetOrDefault(m, twoPrevious.spos[id].rewardAccount).registered;
    if id in spos then
      var spo := spos[id];
      SnapshotSPO([], 0, spo.pledge, spo.cost, spo.margin, blocksProduced,
                  spo.rewardAccount, spo.poolOwners, stillRegistered)
    else
      DefaultSpo().(blocksProduced := blocksProduced, twoPreviousRewardAccountIsRegistered := stillRegistered)
  }

  /**
   The entry carries the pool's registration, or defaults for a pool that is no longer
   registered, its blocks, and whether the reward account it had two epochs ago is
   registered now.
   */
  ghost predicate Described(m: Accounts, spos: map<PoolId, PoolRegistration>, blockCounts: map<PoolId, nat>,
                            twoPrevious: EpochSnapshot, id: PoolId, spo: SnapshotSPO)
  {
    && (id in spos ==>
          && spo.pledge == spos[id].pledge && spo.fixedCost == spos[id].cost && spo.margin == spos[id].margin
          && spo.rewardAccount == spos[id].rewardAccount && spo.poolOwners == spos[id].poolOwners)
    && (id !in spos ==>
          && spo.pledge == 0 && spo.fixedCost == 0 && spo.margin == Ratio(0, 0)
          && spo.rewardAccount == DefaultSpo().rewardAccount && spo.poolOwners == [])
    && (id in blockCounts ==> spo.blocksProduced == blockCounts[id])
    && (id !in blockCounts ==> spo.blocksProduced == 0)
    && (spo.twoPreviousRewardAccountIsRegistered <==>
          id in twoPrevious.spos &&
          twoPrevious.spos[id].rewardAccount in m && m[twoPrevious.spos[id].rewardAccount].registered)
  }

  /** A snapshot entry differs from its seed only in the delegators posted to it. */
  ghost predicate SpoSoFar(m: Accounts, seed: SnapshotSPO, done: set<StakeAddress>, pool: PoolId, spo: SnapshotSPO) {
    && spo == seed.(delegators := spo.delegators, totalStake := spo.totalStake)
    && Filled(spo.delegators, spo.totalStake, ActiveDelegators(m, pool) * done, StakeTerm(m))
  }

  lemma PostToSpo(m: Accounts, seed: SnapshotSPO, done: set<StakeAddress>, pool: PoolId, spo: SnapshotSPO, a: StakeAddress)
    requires StakeFits(m) && a in m && a !in done
    requires SpoSoFar(m, seed, done, pool, spo)
    ensures a !in ActiveDelegators(m, pool) ==> SpoSoFar(m, seed, done + {a}, pool, spo)
    ensures a in ActiveDelegators(m, pool) ==>
              && 0 <= StakeOf(m, a) && spo.totalStake + StakeOf(m, a) <= U64_MAX
              && SpoSoFar(m, seed, done + {a}, pool, spo.(delegators := spo.delegators + [(a, StakeOf(m, a))],
                                                           totalStake := spo.totalStake + StakeOf(m, a)))
  {
    var who := ActiveDelegators(m, pool) * done;
    if a in ActiveDelegators(m, pool) {
      assert ActiveDelegators(m, pool) * (done + {a}) == who + {a};
      SumAdd(who, StakeTerm(m), a);
      SumSubset(who + {a}, m.Keys, StakeTerm(m));
      SumNonNegative(who, StakeTerm(m));
      FilledPush(spo.delegators, spo.totalStake, who, StakeTerm(m), a, StakeOf(m, a));
    } else {
      assert ActiveDelegators(m, pool) * (done + {a}) == who;
    }
  }

  method SeedPools(m: Accounts, spos: map<PoolId, PoolRegistration>, blockCounts: map<PoolId, nat>,
                   twoPrevious: EpochSnapshot) returns (seeded: map<PoolId, SnapshotSPO>)
    ensures seeded.Keys == spos.Keys + blockCounts.Keys
    ensures forall p | p in seeded :: seeded[p] == SeedSpo(m, spos, blockCounts, twoPrevious, p)
  {
    seeded := map[];
    var todo := spos.Keys + blockCounts.Keys;
    while todo != {}
      invariant seeded.Keys + todo == spos.Keys + blockCounts.Keys
      invariant forall p | p in seeded :: seeded[p] == SeedSpo(m, spos, blockCounts, twoPrevious, p)
      decreases todo
    {
      var id :| id in todo;
      seeded := seeded[id := SeedSpo(m, spos, blockCounts, twoPrevious, id)];
      todo := todo - {id};
    }
  }

  ghost predicate PoolsSoFar(m: Accounts, seeded: map<PoolId, SnapshotSPO>, done: set<StakeAddress>,
                             pools: map<PoolId, SnapshotSPO>)
  {
    && pools.Keys == seeded.Keys
    && forall p | p in pools :: SpoSoFar(m, seeded[p], done, p, pools[p])
  }

  method PostAccount(m: Accounts, ghost seeded: map<PoolId, SnapshotSPO>, ghost done: set<StakeAddress>,
                     pools: map<PoolId, SnapshotSPO>, a: StakeAddress) returns (pools': map<PoolId, SnapshotSPO>)
    requires StakeFits(m) && a in m && a !in done && PoolsSoFar(m, seeded, done, pools)
    ensures PoolsSoFar(m, seeded, done + {a}, pools')
  {
    SumMember(m.Keys, StakeTerm(m), a);
    var activeStake: U64 := m[a].utxoValue + m[a].rewards;
    pools' := pools;
    if m[a].registered && activeStake > 0 && m[a].delegatedSpo.Some? && m[a].delegatedSpo.value in pools {
      var id := m[a].delegatedSpo.value;
      PostToSpo(m, seeded[id], done, id, pools[id], a);
      pools' := pools[id := pools[id].(delegators := pools[id].delegators + [(a, activeStake)],
                                       totalStake := pools[id].totalStake + activeStake)];
    }
    forall p | p in pools' ensures SpoSoFar(m, seeded[p], done + {a}, p, pools'[p]) {
      PostToSpo(m, seeded[p], done, p, pools[p], a);
    }
  }

  /** All accounts posted to the seeded entries. */
  method PostStake(m: Accounts, seeded: map<PoolId, SnapshotSPO>) returns (pools: map<PoolId, SnapshotSPO>)
    requires StakeFits(m)
    requires forall p | p in seeded :: seeded[p].delegators == [] && seeded[p].totalStake == 0
    ensures pools.Keys == seeded.Keys
    ensures forall p | p in pools ::
        && pools[p] == seeded[p].(delegators := pools[p].delegators, totalStake := pools[p].totalStake)
        && Filled(pools[p].delegators, pools[p].totalStake, ActiveDelegators(m, p), StakeTerm(m))
  {
    pools := seeded;
    var todo := m.Keys;
    ghost var done: set<StakeAddress> := {};
    forall p | p in pools ensures SpoSoFar(m, seeded[p], done, p, pools[p]) {
      assert ActiveDelegators(m, p) * done == {};
    }
    while todo != {}
      invariant done !! todo && done + todo == m.Keys
      invariant PoolsSoFar(m, seeded, done, pools)
      decreases todo
    {
      var a :| a in todo;
      pools := PostAccount(m, seeded, done, pools, a);
      todo := todo - {a};
      done := done + {a};
    }
    assert forall p :: ActiveDelegators(m, p) * done == ActiveDelegators(m, p);
  }

  /**
   Every registered or block-producing pool has an entry; its list holds exactly the
   registered accounts with positive stake delegated to it, and its total is their stake.
   */
  method NewSnapshot(epoch: U64, m: Accounts, spos: map<PoolId, PoolRegistration>, blockCounts: map<PoolId, nat>,
                     blocks: nat, twoPrevious: EpochSnapshot) returns (snapshot: EpochSnapshot)
    requires StakeFits(m)
    ensures snapshot.epoch == epoch && snapshot.blocks == blocks
    ensures snapshot.spos.Keys == spos.Keys + blockCounts.Keys
    ensures forall p | p in snapshot.spos ::
        var spo := snapshot.spos[p];
        && Filled(spo.delegators, spo.totalStake, ActiveDelegators(m, p), StakeTerm(m))
        && Described(m, spos, blockCounts, twoPrevious, p, spo)
  {
    var seeded := SeedPools(m, spos, blockCounts, twoPrevious);
    var pools := PostStake(m, seeded);
    forall p | p in pools ensures Described(m, spos, blockCounts, twoPrevious, p, pools[p]) {
      SeedDescribed(m, spos, blockCounts, twoPrevious, p, pools[p]);
    }

    // The pass that would add block producers without an entry finds none.
    var producers := blockCounts.Keys;
    while producers != {}
      invariant producers <= blockCounts.Keys
      decreases producers
    {
      var id :| id in producers;
      if blockCounts[id] > 0 && id !in pools {
        assert false;
      }
      producers := producers - {id};
    }
    snapshot := EpochSnapshot(epoch, pools, blocks);
  }

  lemma SeedDescribed(m: Accounts, spos: map<PoolId, PoolRegistration>, blockCounts: map<PoolId, nat>,
                      twoPrevious: EpochSnapshot, id: PoolId, spo: SnapshotSPO)
    requires spo == SeedSpo(m, spos, blockCounts, twoPrevious, id)
                      .(delegators := spo.delegators, totalStake := spo.totalStake)
    ensures Described(m, spos, blockCounts, twoPrevious, id, spo)
  {
  }

  // ---------------------------------------------------------------------------------
  // Agreement with the stake pool distribution

  /**
   The snapshot leaves unregistered accounts out and the pool distribution does not: they
   give a pool the same stake if and only if its unregistered delegators hold nothing.
   */
  lemma SnapshotAgreesWithSpdd(m: Accounts, pool: PoolId)
    ensures SumOver(ActiveDelegators(m, pool), StakeTerm(m)) == PoolStake(m, pool) <==>
            (forall a | a in Delegators(m, pool) && !m[a].registered :: StakeOf(m, a) == 0)
  {
    var active, all := ActiveDelegators(m, pool), Delegators(m, pool);
    SumUnion(active, all - active, StakeTerm(m));
    assert active + (all - active) == all;
    if a :| a in all && !m[a].registered && StakeOf(m, a) != 0 {
      assert a in all - active;
      SumMember(all - active, StakeTerm(m), a);
    } else {
      SumZero(all - active, StakeTerm(m));
    }
  }

  /**
   In every state reached by a run whose raw writes store no delegated but unregistered
   account, the snapshot and the distribution agree on every pool.
   */
  lemma ReachableSnapshotAgrees(ops: seq<Op>, pool: PoolId)
    requires RunRespects(map[], ops)
    ensures var m := Run(EMPTY, ops).0.inner;
            SumOver(ActiveDelegators(m, pool), StakeTerm(m)) == PoolStake(m, pool)
  {
    IndexedRunRefinesPlainRun(ops);
    DelegatedIsRegistered(ops);
    SnapshotAgreesWithSpdd(Run(EMPTY, ops).0.inner, pool);
  }

  /** The three ways of totalling a pool, computed side by side on a reachable account map. */
  method CompareTotals(ghost ops: seq<Op>, accounts: StakeAddressMap, spos: map<PoolId, PoolRegistration>,
                       blockCounts: map<PoolId, nat>, twoPrevious: EpochSnapshot, pool: PoolId)
    returns (fromSnapshot: U64, fromList: nat, fromSpdd: U64)
    requires RunRespects(map[], ops) && accounts.State() == Run(EMPTY, ops).0
    requires StakeFits(accounts.inner) && (pool in spos || pool in blockCounts)
    ensures fromSnapshot == fromList == fromSpdd
  {
    var snapshot := NewSnapshot(0, accounts.inner, spos, blockCounts, 0, twoPrevious);
    var spdd := GenerateSpdd(accounts.inner);
    fromSnapshot := snapshot.spos[pool].totalStake;
    fromList := ListTotal(snapshot.spos[pool].delegators);
    fromSpdd := PoolTotal(spdd, pool).active;
    ReachableSnapshotAgrees(ops, pool);
  }

  // ---------------------------------------------------------------------------------
  // Stake of some addresses in a pool

  function StakeIn(list: DelegatorList, addresses: set<StakeAddress>): nat {
    if list == [] then 0 else
    var (a, x) := list[|list| - 1];
    StakeIn(list[..|list| - 1], addresses) + (if a in addresses then x else 0)
  }

  lemma {:induction false} StakeInIsSum(list: DelegatorList, who: set<StakeAddress>, amount: StakeAddress -> int,
                                        addresses: set<StakeAddress>)
    requires Lists(list, who, amount)
    ensures StakeIn(list, addresses) == SumOver(who * addresses, amount)
    decreases |list|
  {
    if list == [] {
      assert who * addresses == {};
    } else {
      var a := list[|list| - 1].0;
      StakeInIsSum(list[..|list| - 1], who - {a}, amount, addresses);
      if a in addresses {
        SumRemove(who * addresses, amount, a);
        assert (who - {a}) * addresses == who * addresses - {a};
      } else {
        assert (who - {a}) * addresses == who * addresses;
      }
    }
  }

  lemma {:induction false} StakeInWithinTotal(list: DelegatorList, addresses: set<StakeAddress>)
    ensures StakeIn(list, addresses) <= ListTotal(list)
  {
    if list != [] {
      StakeInWithinTotal(list[..|list| - 1], addresses);
    }
  }

  /** Asking for an address twice counts it once, and no list of addresses holds more than the pool. */
  method GetStakeDelegatedToSpoByAddresses(snapshot: EpochSnapshot, pool: PoolId, addresses: seq<StakeAddress>,
                                           ghost who: set<StakeAddress>, ghost amount: StakeAddress -> int)
    returns (stake: U64)
    requires pool in snapshot.spos ==> ListTotal(snapshot.spos[pool].delegators) <= U64_MAX
    ensures pool !in snapshot.spos ==> stake == 0
    ensures pool in snapshot.spos ==> stake <= ListTotal(snapshot.spos[pool].delegators)
    ensures pool in snapshot.spos && Lists(snapshot.spos[pool].delegators, who, amount) ==>
              stake == SumOver(who * (set a | a in addresses), amount)
  {
    if pool !in snapshot.spos {
      return 0;
    }
    var addressSet := set a | a in addresses;
    var list := snapshot.spos[pool].delegators;
    StakeInWithinTotal(list, addressSet);
    stake := StakeIn(list, addressSet);
    if Lists(list, who, amount) {
      StakeInIsSum(list, who, amount, addressSet);
    }
  }

  // ---------------------------------------------------------------------------------
  // Snapshot from raw bootstrap maps

  function RawStake(stakes: map<Credential, I64>, network: NetworkId, a: StakeAddress): nat {
    if a.network == network && a.credential in stakes then Max(stakes[a.credential], 0) else 0
  }

  ghost function RawTerm(stakes: map<Credential, I64>, network: NetworkId): StakeAddress -> int {
    a => RawStake(stakes, network, a)
  }

  ghost function Addresses(credentials: set<Credential>, network: NetworkId): set<StakeAddress> {
    set c | c in credentials :: StakeAddress(network, c)
  }

  /** A direct scan of the delegation map for one pool. */
  ghost function RawDelegators(stakes: map<Credential, I64>, delegations: map<Credential, PoolId>,
                               network: NetworkId, pool: PoolId): set<StakeAddress>
  {
    set c | c in delegations && delegations[c] == pool && c in stakes && stakes[c] > 0 :: StakeAddress(network, c)
  }

  /** A pool's list from raw maps has exactly its delegators with positive stake, on the given network, each once. */
  lemma RawListedExactly(stakes: map<Credential, I64>, delegations: map<Credential, PoolId>, network: NetworkId, pool: PoolId,
                         list: DelegatorList, total: int, a: StakeAddress, x: U64)
    requires Filled(list, total, RawDelegators(stakes, delegations, network, pool), RawTerm(stakes, network))
    ensures (a, x) in list <==>
            && a.network == network && a.credential in delegations && delegations[a.credential] == pool
            && a.credential in stakes && stakes[a.credential] == x && x > 0
    ensures multiset(list)[(a, x)] <= 1
  {
    ListedOnce(list, RawDelegators(stakes, delegations, network, pool), RawTerm(stakes, network), (a, x));
    assert (a, x) in list <==> (a, x) in multiset(list);
    assert a == StakeAddress(a.network, a.credential);
  }

  ghost predicate RawStakeFits(stakes: map<Credential, I64>, delegations: map<Credential, PoolId>, network: NetworkId) {
    SumOver(Addresses(delegations.Keys, network), RawTerm(stakes, network)) <= U64_MAX
  }

  datatype Grouped = Grouped(delegators: map<PoolId, DelegatorList>, stake: map<PoolId, U64>)

  function ListOf(g: Grouped, p: PoolId): DelegatorList {
    if p in g.delegators then g.delegators[p] else []
  }

  function StakeOfPool(g: Grouped, p: PoolId): U64 {
    if p in g.stake then g.stake[p] else 0
  }

  ghost predicate GroupSoFar(stakes: map<Credential, I64>, delegations: map<Credential, PoolId>, network: NetworkId,
                             done: set<StakeAddress>, g: Grouped, p: PoolId)
  {
    Filled(ListOf(g, p), StakeOfPool(g, p), RawDelegators(stakes, delegations, network, p) * done,
           RawTerm(stakes, network))
  }

  lemma PostToGroup(stakes: map<Credential, I64>, delegations: map<Credential, PoolId>, network: NetworkId,
                    done: set<StakeAddress>, g: Grouped, p: PoolId, a: StakeAddress)
    requires RawStakeFits(stakes, delegations, network)
    requires a in Addresses(delegations.Keys, network) && a !in done
    requires GroupSoFar(stakes, delegations, network, done, g, p)
    ensures var who := RawDelegators(stakes, delegations, network, p);
            var x := RawStake(stakes, network, a);
            && (a !in who ==> GroupSoFar(stakes, delegations, network, done + {a}, g, p))
            && (a in who ==> StakeOfPool(g, p) + x <= U64_MAX &&
                             Filled(ListOf(g, p) + [(a, x)], StakeOfPool(g, p) + x, who * (done + {a}), RawTerm(stakes, network)))
  {
    var who, f := RawDelegators(stakes, delegations, network, p), RawTerm(stakes, network);
    var x := RawStake(stakes, network, a);
    if a in who {
      assert who * (done + {a}) == (who * done) + {a};
      SumAdd(who * done, f, a);
      SumSubset((who * done) + {a}, Addresses(delegations.Keys, network), f);
      SumNonNegative(who * done, f);
      FilledPush(ListOf(g, p), StakeOfPool(g, p), who * done, f, a, x);
    } else {
      assert who * (done + {a}) == who * done;
    }
  }

  method GroupOne(stakes: map<Credential, I64>, delegations: map<Credential, PoolId>, network: NetworkId,
                  ghost done: set<StakeAddress>, g: Grouped, c: Credential) returns (g': Grouped)
    requires RawStakeFits(stakes, delegations, network)
    requires c in delegations && StakeAddress(network, c) !in done
    requires forall p :: GroupSoFar(stakes, delegations, network, done, g, p)
    ensures forall p :: GroupSoFar(stakes, delegations, network, done + {StakeAddress(network, c)}, g', p)
  {
    var a, pool := StakeAddress(network, c), delegations[c];
    assert a in Addresses(delegations.Keys, network);
    g' := g;
    if c in stakes && Max(stakes[c], 0) > 0 {
      assert GroupSoFar(stakes, delegations, network, done, g, pool);
      PostToGroup(stakes, delegations, network, done, g, pool, a);
      assert a in RawDelegators(stakes, delegations, network, pool);
      g' := Grouped(g.delegators[pool := ListOf(g, pool) + [(a, Max(stakes[c], 0))]],
                    g.stake[pool := StakeOfPool(g, pool) + Max(stakes[c], 0)]);
    }
    forall p ensures GroupSoFar(stakes, delegations, network, done + {a}, g', p) {
      assert GroupSoFar(stakes, delegations, network, done, g, p);
      PostToGroup(stakes, delegations, network, done, g, p, a);
    }
  }

  method GroupByPool(stakes: map<Credential, I64>, delegations: map<Credential, PoolId>, network: NetworkId)
    returns (g: Grouped)
    requires RawStakeFits(stakes, delegations, network)
    ensures forall p :: Filled(ListOf(g, p), StakeOfPool(g, p), RawDelegators(stakes, delegations, network, p),
                               RawTerm(stakes, network))
  {
    g := Grouped(map[], map[]);
    var todo := delegations.Keys;
    ghost var done: set<StakeAddress> := {};
    while todo != {}
      invariant todo <= delegations.Keys
      invariant forall c :: c in delegations ==> (StakeAddress(network, c) in done <==> c !in todo)
      invariant forall p :: GroupSoFar(stakes, delegations, network, done, g, p)
      decreases todo
    {
      var c :| c in todo;
      g := GroupOne(stakes, delegations, network, done, g, c);
      todo := todo - {c};
      done := done + {StakeAddress(network, c)};
    }
    forall p
      ensures Filled(ListOf(g, p), StakeOfPool(g, p), RawDelegators(stakes, delegations, network, p), RawTerm(stakes, network))
    {
      assert GroupSoFar(stakes, delegations, network, done, g, p);
      var who := RawDelegators(stakes, delegations, network, p);
      forall a | a in who ensures a in done {
        assert a.credential in delegations && StakeAddress(network, a.credential) in done;
      }
      assert who * done == who;
    }
  }

  function BlocksOf(blockCounts: map<PoolId, nat>, p: PoolId): nat {
    if p in blockCounts then blockCounts[p] else 0
  }

  ghost function BlocksTerm(blockCounts: map<PoolId, nat>): PoolId -> int {
    p => BlocksOf(blockCounts, p)
  }

  function RawSpo(reg: PoolRegistration, list: DelegatorList, total: U64, blocksProduced: nat): SnapshotSPO {
    SnapshotSPO(list, total, reg.pledge, reg.cost, reg.margin, blocksProduced, reg.rewardAccount, reg.poolOwners, true)
  }

  ghost predicate EntryBuilt(params: map<PoolId, PoolRegistration>, g: Grouped, blockCounts: map<PoolId, nat>,
                             spos: map<PoolId, SnapshotSPO>, p: PoolId)
  {
    p in params && p in spos &&
    spos[p] == RawSpo(params[p], ListOf(g, p), StakeOfPool(g, p), BlocksOf(blockCounts, p))
  }

  /** The groups with one pool's list taken out. */
  function TakeOut(g: Grouped, p: PoolId): (g': Grouped)
    ensures g'.stake == g.stake
    ensures forall q | q != p :: ListOf(g', q) == ListOf(g, q)
  {
    g.(delegators := g.delegators - {p})
  }

  lemma EntriesGrow(params: map<PoolId, PoolRegistration>, g: Grouped, blockCounts: map<PoolId, nat>,
                    spos: map<PoolId, SnapshotSPO>, p: PoolId, spos': map<PoolId, SnapshotSPO>)
    requires p in params && forall q | q in spos :: EntryBuilt(params, g, blockCounts, spos, q)
    requires spos' == spos[p := RawSpo(params[p], ListOf(g, p), StakeOfPool(g, p), BlocksOf(blockCounts, p))]
    ensures forall q | q in spos' :: EntryBuilt(params, g, blockCounts, spos', q)
  {
    forall q | q in spos' ensures EntryBuilt(params, g, blockCounts, spos', q) {
      if q != p {
        assert EntryBuilt(params, g, blockCounts, spos, q);
      }
    }
  }

  /** The lists still in the groups are those of the pools to come. */
  ghost predicate ListsLeft(grouped: Grouped, g: Grouped, todo: set<PoolId>) {
    g.stake == grouped.stake && forall p | p in todo :: ListOf(g, p) == ListOf(grouped, p)
  }

  method BuildEntry(reg: PoolRegistration, ghost grouped: Grouped, g: Grouped, ghost todo: set<PoolId>, p: PoolId, blocks: nat)
    returns (spo: SnapshotSPO, g': Grouped)
    requires p in todo && ListsLeft(grouped, g, todo)
    ensures spo == RawSpo(reg, ListOf(grouped, p), StakeOfPool(grouped, p), blocks)
    ensures ListsLeft(grouped, g', todo - {p})
  {
    spo := RawSpo(reg, ListOf(g, p), StakeOfPool(g, p), blocks);
    g' := TakeOut(g, p);
  }

  /** The second pass takes each pool's list out of the groups as it goes. */
  method BuildEntries(params: map<PoolId, PoolRegistration>, grouped: Grouped, blockCounts: map<PoolId, nat>)
    returns (spos: map<PoolId, SnapshotSPO>, totalBlocks: nat)
    ensures spos.Keys == params.Keys
    ensures forall p | p in params :: EntryBuilt(params, grouped, blockCounts, spos, p)
    ensures totalBlocks == SumOver(params.Keys, BlocksTerm(blockCounts))
  {
    var g := grouped;
    spos, totalBlocks := map[], 0;
    var todo := params.Keys;
    ghost var done: set<PoolId> := {};
    while todo != {}
      invariant todo !! done && todo + done == params.Keys && spos.Keys == done
      invariant ListsLeft(grouped, g, todo)
      invariant forall p | p in spos :: EntryBuilt(params, grouped, blockCounts, spos, p)
      invariant totalBlocks == SumOver(done, BlocksTerm(blockCounts))
      decreases todo
    {
      var p :| p in todo;
      SumAdd(done, BlocksTerm(blockCounts), p);
      var spo;
      spo, g := BuildEntry(params[p], grouped, g, todo, p, BlocksOf(blockCounts, p));
      EntriesGrow(params, grouped, blockCounts, spos, p, spos[p := spo]);
      totalBlocks := totalBlocks + spo.blocksProduced;
      spos := spos[p := spo];
      todo := todo - {p};
      done := done + {p};
    }
    assert done == params.Keys;
  }

  /**
   The two-pass grouping gives every pool of the parameter map the delegators, stake and
   blocks that a scan of the delegation map for that pool alone would find.
   */
  method FromRaw(epoch: U64, stakes: map<Credential, I64>, delegations: map<Credential, PoolId>,
                 params: map<PoolId, PoolRegistration>, blockCounts: map<PoolId, nat>, network: NetworkId)
    returns (snapshot: EpochSnapshot)
    requires RawStakeFits(stakes, delegations, network)
    ensures snapshot.epoch == epoch && snapshot.spos.Keys == params.Keys
    ensures forall p | p in params ::
        var spo := snapshot.spos[p];
        && Filled(spo.delegators, spo.totalStake, RawDelegators(stakes, delegations, network, p), RawTerm(stakes, network))
        && spo.pledge == params[p].pledge && spo.fixedCost == params[p].cost && spo.margin == params[p].margin
        && spo.rewardAccount == params[p].rewardAccount && spo.poolOwners == params[p].poolOwners
        && spo.blocksProduced == (if p in blockCounts then blockCounts[p] else 0)
        && spo.twoPreviousRewardAccountIsRegistered
    ensures snapshot.blocks == SumOver(params.Keys, BlocksTerm(blockCounts))
  {
    var g := GroupByPool(stakes, delegations, network);
    var spos, totalBlocks := BuildEntries(params, g, blockCounts);
    snapshot := EpochSnapshot(epoch, spos, totalBlocks);
  }
}
