/**
 The stake distributions drawn from the account map: per pool, per DRep, and live. The node
 visits the accounts in an arbitrary, possibly parallel order; the loops below pick an
 arbitrary account each time, and their results do not depend on the choice.
 */
module Distributions {
  import opened Base
  import opened Sums
  import opened Accounts

  datatype DelegatedStake = DelegatedStake(active: U64, activeDelegatorsCount: nat)

  function StakeOf(m: Accounts, a: StakeAddress): int {
    GetOrDefault(m, a).utxoValue + GetOrDefault(m, a).rewards
  }

  ghost function StakeTerm(m: Accounts): StakeAddress -> int {
    a => StakeOf(m, a)
  }

  /** All stake together fits an unsigned word. */
  ghost predicate StakeFits(m: Accounts) {
    SumOver(m.Keys, StakeTerm(m)) <= U64_MAX
  }

  ghost function Delegators(m: Accounts, pool: PoolId): set<StakeAddress> {
    set a | a in m && m[a].delegatedSpo == Some(pool)
  }

  ghost function PoolStake(m: Accounts, pool: PoolId): int {
    SumOver(Delegators(m, pool), StakeTerm(m))
  }

  ghost function PoolTerm(m: Accounts, pool: PoolId): StakeAddress -> int {
    Restricted(Delegators(m, pool), StakeTerm(m))
  }

  ghost function CountTerm(m: Accounts, pool: PoolId): StakeAddress -> int {
    Restricted(Delegators(m, pool), Ones())
  }

  function PoolTotal(spdd: map<PoolId, DelegatedStake>, pool: PoolId): DelegatedStake {
    if pool in spdd then spdd[pool] else DelegatedStake(0, 0)
  }

  ghost predicate PoolSoFar(m: Accounts, done: set<StakeAddress>, spdd: map<PoolId, DelegatedStake>, p: PoolId) {
    && PoolTotal(spdd, p).active == SumOver(done, PoolTerm(m, p))
    && PoolTotal(spdd, p).activeDelegatorsCount == SumOver(done, CountTerm(m, p))
    && (p in spdd <==> PoolTotal(spdd, p).activeDelegatorsCount > 0)
  }

  /** The pools' totals after the accounts in `done` have been visited. */
  ghost predicate SpddSoFar(m: Accounts, done: set<StakeAddress>, spdd: map<PoolId, DelegatedStake>) {
    forall p :: PoolSoFar(m, done, spdd, p)
  }

  lemma VisitForPool(m: Accounts, done: set<StakeAddress>, a: StakeAddress, p: PoolId)
    requires StakeFits(m) && done <= m.Keys && a in m && a !in done
    ensures m[a].delegatedSpo == Some(p) ==>
              && SumOver(done + {a}, PoolTerm(m, p)) == SumOver(done, PoolTerm(m, p)) + StakeOf(m, a) <= U64_MAX
              && SumOver(done + {a}, CountTerm(m, p)) == SumOver(done, CountTerm(m, p)) + 1
    ensures m[a].delegatedSpo != Some(p) ==>
              && SumOver(done + {a}, PoolTerm(m, p)) == SumOver(done, PoolTerm(m, p))
              && SumOver(done + {a}, CountTerm(m, p)) == SumOver(done, CountTerm(m, p))
  {
    VisitNext(m.Keys, done, a, PoolTerm(m, p));
    VisitNext(m.Keys, done, a, CountTerm(m, p));
    SumBelow(m.Keys, PoolTerm(m, p), StakeTerm(m));
  }

  method AddToPool(m: Accounts, ghost done: set<StakeAddress>, a: StakeAddress, spdd: map<PoolId, DelegatedStake>)
    returns (spdd': map<PoolId, DelegatedStake>)
    requires StakeFits(m) && done <= m.Keys && a in m && a !in done && SpddSoFar(m, done, spdd)
    ensures SpddSoFar(m, done + {a}, spdd')
  {
    spdd' := spdd;
    if m[a].delegatedSpo.Some? {
      var spo := m[a].delegatedSpo.value;
      VisitForPool(m, done, a, spo);
      assert PoolSoFar(m, done, spdd, spo);
      SumMember(m.Keys, StakeTerm(m), a);
      var totalStake: U64 := m[a].utxoValue + m[a].rewards;
      if spo in spdd {
        spdd' := spdd[spo := DelegatedStake(spdd[spo].active + totalStake, spdd[spo].activeDelegatorsCount + 1)];
      } else {
        spdd' := spdd[spo := DelegatedStake(totalStake, 1)];
      }
    }
    forall p ensures PoolSoFar(m, done + {a}, spdd', p) {
      assert PoolSoFar(m, done, spdd, p);
      VisitForPool(m, done, a, p);
    }
  }

  method GenerateSpdd(m: Accounts) returns (spdd: map<PoolId, DelegatedStake>)
    requires StakeFits(m)
    ensures forall p :: p in spdd <==> Delegators(m, p) != {}
    ensures forall p :: PoolTotal(spdd, p).active == PoolStake(m, p)
    ensures forall p :: PoolTotal(spdd, p).activeDelegatorsCount == |Delegators(m, p)|
    ensures SumOver(spdd.Keys, ActiveTerm(spdd)) + SumOver(Undelegated(m), StakeTerm(m)) ==
            SumOver(m.Keys, UtxoTerm(m)) + SumOver(m.Keys, RewardsTerm(m))
  {
    spdd := map[];
    var todo := m.Keys;
    ghost var done: set<StakeAddress> := {};
    while todo != {}
      invariant done !! todo && done + todo == m.Keys
      invariant SpddSoFar(m, done, spdd)
      decreases todo
    {
      var a :| a in todo;
      spdd := AddToPool(m, done, a, spdd);
      todo := todo - {a};
      done := done + {a};
    }
    forall p
      ensures p in spdd <==> Delegators(m, p) != {}
      ensures PoolTotal(spdd, p).active == PoolStake(m, p)
      ensures PoolTotal(spdd, p).activeDelegatorsCount == |Delegators(m, p)|
    {
      assert PoolSoFar(m, done, spdd, p) && done == m.Keys;
      AllVisited(m, p);
    }
    SpddAccountsForStake(m, spdd);
  }

  lemma AllVisited(m: Accounts, p: PoolId)
    ensures SumOver(m.Keys, PoolTerm(m, p)) == PoolStake(m, p)
    ensures SumOver(m.Keys, CountTerm(m, p)) == |Delegators(m, p)|
  {
    SumRestricted(Delegators(m, p), m.Keys, StakeTerm(m));
    SumRestricted(Delegators(m, p), m.Keys, Ones());
    SumOnes(Delegators(m, p));
  }

  // ---------------------------------------------------------------------------------
  // The pools together

  /** Stake is UTXO value and rewards together. */
  lemma StakeSplits(m: Accounts, who: set<StakeAddress>)
    ensures SumOver(who, StakeTerm(m)) == SumOver(who, UtxoTerm(m)) + SumOver(who, RewardsTerm(m))
  {
    SumPlus(who, UtxoTerm(m), RewardsTerm(m), StakeTerm(m));
  }

  ghost function Undelegated(m: Accounts): set<StakeAddress> {
    set a | a in m && m[a].delegatedSpo == None
  }

  ghost function DelegatorsByPool(m: Accounts): PoolId -> set<StakeAddress> {
    p => Delegators(m, p)
  }

  ghost function ActiveTerm(spdd: map<PoolId, DelegatedStake>): PoolId -> int {
    p => PoolTotal(spdd, p).active
  }

  lemma DelegatedOrNot(m: Accounts, pools: set<PoolId>)
    requires forall p :: p in pools <==> Delegators(m, p) != {}
    ensures m.Keys == Gathered(pools, DelegatorsByPool(m)) + Undelegated(m)
    ensures Gathered(pools, DelegatorsByPool(m)) !! Undelegated(m)
  {
    forall a | a in m && m[a].delegatedSpo.Some? ensures a in Gathered(pools, DelegatorsByPool(m)) {
      var p := m[a].delegatedSpo.value;
      assert a in Delegators(m, p);
      assert p in pools && a in DelegatorsByPool(m)(p);
    }
  }

  /** The distribution and the undelegated accounts account for every lovelace of UTXO value and rewards. */
  lemma SpddAccountsForStake(m: Accounts, spdd: map<PoolId, DelegatedStake>)
    requires forall p :: p in spdd <==> Delegators(m, p) != {}
    requires forall p :: PoolTotal(spdd, p).active == PoolStake(m, p)
    ensures SumOver(spdd.Keys, ActiveTerm(spdd)) + SumOver(Undelegated(m), StakeTerm(m)) ==
            SumOver(m.Keys, UtxoTerm(m)) + SumOver(m.Keys, RewardsTerm(m))
  {
    SumByClass(spdd.Keys, DelegatorsByPool(m), StakeTerm(m), ActiveTerm(spdd));
    DelegatedOrNot(m, spdd.Keys);
    SumUnion(Gathered(spdd.Keys, DelegatorsByPool(m)), Undelegated(m), StakeTerm(m));
    StakeSplits(m, m.Keys);
  }

  // ---------------------------------------------------------------------------------
  // Live stake

  lemma VisitForTotal(m: Accounts, done: set<StakeAddress>, a: StakeAddress)
    requires StakeFits(m) && done <= m.Keys && a in m && a !in done
    ensures SumOver(done + {a}, UtxoTerm(m)) == SumOver(done, UtxoTerm(m)) + m[a].utxoValue <= U64_MAX
    ensures StakeOf(m, a) <= U64_MAX
  {
    VisitNext(m.Keys, done, a, UtxoTerm(m));
    SumBelow(m.Keys, UtxoTerm(m), StakeTerm(m));
    SumMember(m.Keys, StakeTerm(m), a);
  }

  /** The totals of the live view after the accounts in `done` have been visited. */
  ghost predicate LiveSoFar(m: Accounts, done: set<StakeAddress>, spo: PoolId, stake: int, delegators: int, total: int) {
    && stake == SumOver(done, PoolTerm(m, spo))
    && delegators == SumOver(done, CountTerm(m, spo))
    && total == SumOver(done, UtxoTerm(m))
  }

  lemma LiveNext(m: Accounts, done: set<StakeAddress>, a: StakeAddress, spo: PoolId, stake: int, delegators: int, total: int)
    requires StakeFits(m) && done <= m.Keys && a in m && a !in done
    requires LiveSoFar(m, done, spo, stake, delegators, total)
    ensures total + m[a].utxoValue <= U64_MAX
    ensures m[a].delegatedSpo == Some(spo) ==>
              && stake + StakeOf(m, a) <= U64_MAX
              && LiveSoFar(m, done + {a}, spo, stake + StakeOf(m, a), delegators + 1, total + m[a].utxoValue)
    ensures m[a].delegatedSpo != Some(spo) ==>
              LiveSoFar(m, done + {a}, spo, stake, delegators, total + m[a].utxoValue)
  {
    VisitForPool(m, done, a, spo);
    VisitForTotal(m, done, a);
  }

  /** The live view of one pool agrees with the distribution over all pools. */
  method GetPoolLiveStakeInfo(m: Accounts, spo: PoolId)
    returns (liveStake: U64, liveDelegators: nat, totalLiveStakes: U64)
    requires StakeFits(m)
    ensures liveStake == PoolStake(m, spo)
    ensures liveDelegators == |Delegators(m, spo)|
    ensures totalLiveStakes == SumOver(m.Keys, UtxoTerm(m))
  {
    liveStake, liveDelegators, totalLiveStakes := 0, 0, 0;
    var todo := m.Keys;
    ghost var done: set<StakeAddress> := {};
    while todo != {}
      invariant done !! todo && done + todo == m.Keys
      invariant LiveSoFar(m, done, spo, liveStake, liveDelegators, totalLiveStakes)
      decreases todo
    {
      var a :| a in todo;
      LiveNext(m, done, a, spo, liveStake, liveDelegators, totalLiveStakes);
      totalLiveStakes := totalLiveStakes + m[a].utxoValue;
      if m[a].delegatedSpo == Some(spo) {
        liveStake := liveStake + (m[a].utxoValue + m[a].rewards);
        liveDelegators := liveDelegators + 1;
      }
      todo := todo - {a};
      done := done + {a};
    }
    assert done == m.Keys;
    AllVisited(m, spo);
  }

  // ---------------------------------------------------------------------------------
  // DRep delegation distribution

  ghost function VoteTerm(m: Accounts, deposits: map<StakeAddress, U64>): StakeAddress -> int {
    a => StakeOf(m, a) + (if a in deposits then deposits[a] else 0)
  }

  ghost function DepositTerm(deposits: map<StakeAddress, U64>): StakeAddress -> int {
    a => if a in deposits then deposits[a] else 0
  }

  /** Voting stake is UTXO value, rewards and proposal deposits together. */
  lemma VotesSplit(m: Accounts, deposits: map<StakeAddress, U64>, who: set<StakeAddress>)
    ensures SumOver(who, VoteTerm(m, deposits)) ==
            SumOver(who, UtxoTerm(m)) + SumOver(who, RewardsTerm(m)) + SumOver(who, DepositTerm(deposits))
  {
    SumPlus(who, StakeTerm(m), DepositTerm(deposits), VoteTerm(m, deposits));
    StakeSplits(m, who);
  }

  ghost function Choosing(m: Accounts, choice: DRepChoice): set<StakeAddress> {
    set a | a in m && m[a].delegatedDrep == Some(choice)
  }

  ghost function DelegatorsOf(m: Accounts, c: Credential): set<StakeAddress> {
    set a | a in m && CredentialOf(m[a].delegatedDrep) == Some(c)
  }

  /** Accounts whose choice is a special DRep or a registered one. */
  ghost function Represented(m: Accounts, dreps: map<Credential, U64>): set<StakeAddress> {
    set a | a in m && m[a].delegatedDrep.Some? &&
            (CredentialOf(m[a].delegatedDrep).Some? ==> CredentialOf(m[a].delegatedDrep).value in dreps)
  }

  datatype Drdd = Drdd(abstain: U64, noConfidence: U64, dreps: map<Credential, U64>)

  ghost function ChoosingTerm(m: Accounts, deposits: map<StakeAddress, U64>, choice: DRepChoice): StakeAddress -> int {
    Restricted(Choosing(m, choice), VoteTerm(m, deposits))
  }

  ghost function DRepTerm(m: Accounts, deposits: map<StakeAddress, U64>, c: Credential): StakeAddress -> int {
    Restricted(DelegatorsOf(m, c), VoteTerm(m, deposits))
  }

  ghost predicate DRepSoFar(m: Accounts, deposits: map<StakeAddress, U64>, done: set<StakeAddress>, d: Drdd, c: Credential) {
    c in d.dreps ==> d.dreps[c] == SumOver(done, DRepTerm(m, deposits, c))
  }

  /** The three kinds of total after the accounts in `done` have been visited. */
  ghost predicate DrddSoFar(m: Accounts, dreps: map<Credential, U64>, deposits: map<StakeAddress, U64>,
                            done: set<StakeAddress>, d: Drdd)
  {
    && d.dreps.Keys == dreps.Keys
    && d.abstain == SumOver(done, ChoosingTerm(m, deposits, Abstain))
    && d.noConfidence == SumOver(done, ChoosingTerm(m, deposits, NoConfidence))
    && forall c :: DRepSoFar(m, deposits, done, d, c)
  }

  ghost predicate VotesFit(m: Accounts, deposits: map<StakeAddress, U64>) {
    SumOver(m.Keys, VoteTerm(m, deposits)) <= U64_MAX
  }

  lemma VisitForVotes(m: Accounts, deposits: map<StakeAddress, U64>, done: set<StakeAddress>, a: StakeAddress,
                      who: set<StakeAddress>)
    requires VotesFit(m, deposits) && done <= m.Keys && a in m && a !in done && who <= m.Keys
    ensures var f := Restricted(who, VoteTerm(m, deposits));
            && SumOver(done + {a}, f) == SumOver(done, f) + f(a) <= U64_MAX
            && 0 <= SumOver(done, f)
  {
    var f := Restricted(who, VoteTerm(m, deposits));
    VisitNext(m.Keys, done, a, f);
    SumBelow(m.Keys, f, VoteTerm(m, deposits));
  }

  method AddToDRep(m: Accounts, deposits: map<StakeAddress, U64>, ghost done: set<StakeAddress>, a: StakeAddress,
                   d: Drdd, c: Credential, stake: int) returns (d': Drdd)
    requires VotesFit(m, deposits) && done <= m.Keys && a in m && a !in done
    requires CredentialOf(m[a].delegatedDrep) == Some(c) && stake == VoteTerm(m, deposits)(a)
    requires forall c' :: DRepSoFar(m, deposits, done, d, c')
    ensures d' == d.(dreps := d'.dreps) && d'.dreps.Keys == d.dreps.Keys
    ensures forall c' :: DRepSoFar(m, deposits, done + {a}, d', c')
  {
    d' := d;
    VisitForVotes(m, deposits, done, a, DelegatorsOf(m, c));
    assert DRepSoFar(m, deposits, done, d, c);
    if c in d.dreps {
      d' := d.(dreps := d.dreps[c := d.dreps[c] + stake]);
    }
    forall c' ensures DRepSoFar(m, deposits, done + {a}, d', c') {
      assert DRepSoFar(m, deposits, done, d, c');
      VisitForVotes(m, deposits, done, a, DelegatorsOf(m, c'));
    }
  }

  lemma NoDRepChange(m: Accounts, deposits: map<StakeAddress, U64>, done: set<StakeAddress>, a: StakeAddress, d: Drdd)
    requires VotesFit(m, deposits) && done <= m.Keys && a in m && a !in done
    requires CredentialOf(m[a].delegatedDrep) == None
    requires forall c :: DRepSoFar(m, deposits, done, d, c)
    ensures forall c :: DRepSoFar(m, deposits, done + {a}, d, c)
  {
    forall c ensures DRepSoFar(m, deposits, done + {a}, d, c) {
      assert DRepSoFar(m, deposits, done, d, c);
      VisitForVotes(m, deposits, done, a, DelegatorsOf(m, c));
    }
  }

  method VisitAccount(m: Accounts, ghost dreps: map<Credential, U64>, deposits: map<StakeAddress, U64>,
                      ghost done: set<StakeAddress>, a: StakeAddress, d: Drdd) returns (d': Drdd)
    requires VotesFit(m, deposits) && done <= m.Keys && a in m && a !in done
    requires DrddSoFar(m, dreps, deposits, done, d)
    ensures DrddSoFar(m, dreps, deposits, done + {a}, d')
  {
    VisitForVotes(m, deposits, done, a, Choosing(m, Abstain));
    VisitForVotes(m, deposits, done, a, Choosing(m, NoConfidence));
    d' := d;
    if m[a].delegatedDrep.None? {
      NoDRepChange(m, deposits, done, a, d);
    } else {
      var stake := m[a].utxoValue + m[a].rewards + (if a in deposits then deposits[a] else 0);
      match m[a].delegatedDrep.value
      case Key(hash) => d' := AddToDRep(m, deposits, done, a, d, AddrKeyHash(hash), stake);
      case Script(hash) => d' := AddToDRep(m, deposits, done, a, d, ScriptHash(hash), stake);
      case Abstain =>
        d' := d.(abstain := d.abstain + stake);
        NoDRepChange(m, deposits, done, a, d);
        assert forall c :: DRepSoFar(m, deposits, done + {a}, d, c) ==> DRepSoFar(m, deposits, done + {a}, d', c);
      case NoConfidence =>
        d' := d.(noConfidence := d.noConfidence + stake);
        NoDRepChange(m, deposits, done, a, d);
        assert forall c :: DRepSoFar(m, deposits, done + {a}, d, c) ==> DRepSoFar(m, deposits, done + {a}, d', c);
    }
  }

  ghost function ListedTerm(d: Drdd): Credential -> int {
    c => if c in d.dreps then d.dreps[c] else 0
  }

  /**
   Every listed DRep is registered and has exactly its own delegators' stake, which is not
   zero; nothing else is listed. Together with the two special totals the list accounts for
   all represented stake.
   */
  method GenerateDrdd(m: Accounts, dreps: map<Credential, U64>, deposits: map<StakeAddress, U64>) returns (d: Drdd)
    requires VotesFit(m, deposits)
    ensures d.abstain == SumOver(Choosing(m, Abstain), VoteTerm(m, deposits))
    ensures d.noConfidence == SumOver(Choosing(m, NoConfidence), VoteTerm(m, deposits))
    ensures forall c :: c in d.dreps <==> c in dreps && SumOver(DelegatorsOf(m, c), VoteTerm(m, deposits)) > 0
    ensures forall c | c in d.dreps :: d.dreps[c] == SumOver(DelegatorsOf(m, c), VoteTerm(m, deposits))
    ensures d.abstain + d.noConfidence + SumOver(d.dreps.Keys, ListedTerm(d)) ==
            SumOver(Represented(m, dreps), VoteTerm(m, deposits))
  {
    d := Drdd(0, 0, map c | c in dreps :: 0);
    var todo := m.Keys;
    ghost var done: set<StakeAddress> := {};
    while todo != {}
      invariant done !! todo && done + todo == m.Keys
      invariant DrddSoFar(m, dreps, deposits, done, d)
      decreases todo
    {
      var a :| a in todo;
      d := VisitAccount(m, dreps, deposits, done, a, d);
      todo := todo - {a};
      done := done + {a};
    }
    assert done == m.Keys;
    ghost var all := d;
    AllVotesCounted(m, dreps, deposits, all);
    d := d.(dreps := map c | c in d.dreps && d.dreps[c] > 0 :: d.dreps[c]);
    DrddPartitions(m, dreps, deposits, all, d);
  }

  /** Each total is its own accounts' stake once every account has been visited. */
  lemma AllVotesCounted(m: Accounts, dreps: map<Credential, U64>, deposits: map<StakeAddress, U64>, d: Drdd)
    requires DrddSoFar(m, dreps, deposits, m.Keys, d)
    ensures d.abstain == SumOver(Choosing(m, Abstain), VoteTerm(m, deposits))
    ensures d.noConfidence == SumOver(Choosing(m, NoConfidence), VoteTerm(m, deposits))
    ensures forall c | c in d.dreps :: d.dreps[c] == SumOver(DelegatorsOf(m, c), VoteTerm(m, deposits))
  {
    SumRestricted(Choosing(m, Abstain), m.Keys, VoteTerm(m, deposits));
    SumRestricted(Choosing(m, NoConfidence), m.Keys, VoteTerm(m, deposits));
    forall c | c in d.dreps ensures d.dreps[c] == SumOver(DelegatorsOf(m, c), VoteTerm(m, deposits)) {
      assert DRepSoFar(m, deposits, m.Keys, d, c);
      SumRestricted(DelegatorsOf(m, c), m.Keys, VoteTerm(m, deposits));
    }
  }

  /** Leaving out the zero totals, the distribution still accounts for all represented stake. */
  lemma DrddPartitions(m: Accounts, dreps: map<Credential, U64>, deposits: map<StakeAddress, U64>, all: Drdd, d: Drdd)
    requires all.dreps.Keys == dreps.Keys
    requires forall c | c in dreps :: all.dreps[c] == SumOver(DelegatorsOf(m, c), VoteTerm(m, deposits))
    requires d.abstain == SumOver(Choosing(m, Abstain), VoteTerm(m, deposits))
    requires d.noConfidence == SumOver(Choosing(m, NoConfidence), VoteTerm(m, deposits))
    requires d.dreps == map c | c in all.dreps && all.dreps[c] > 0 :: all.dreps[c]
    ensures d.abstain + d.noConfidence + SumOver(d.dreps.Keys, ListedTerm(d)) ==
            SumOver(Represented(m, dreps), VoteTerm(m, deposits))
  {
    ListedSum(m, dreps, deposits, all, d);
    RepresentedByChoice(m, dreps);
    ThreeParts(Gathered(dreps.Keys, DelegatorsFunction(m)), Choosing(m, Abstain), Choosing(m, NoConfidence),
               VoteTerm(m, deposits));
  }

  lemma ThreeParts(x: set<StakeAddress>, y: set<StakeAddress>, z: set<StakeAddress>, f: StakeAddress -> int)
    requires x !! y && (x + y) !! z
    ensures SumOver(x + y + z, f) == SumOver(x, f) + SumOver(y, f) + SumOver(z, f)
  {
    SumUnion(x, y, f);
    SumUnion(x + y, z, f);
  }

  ghost function DelegatorsFunction(m: Accounts): Credential -> set<StakeAddress> {
    c => DelegatorsOf(m, c)
  }

  lemma ListedSum(m: Accounts, dreps: map<Credential, U64>, deposits: map<StakeAddress, U64>, all: Drdd, d: Drdd)
    requires all.dreps.Keys == dreps.Keys
    requires forall c | c in dreps :: all.dreps[c] == SumOver(DelegatorsOf(m, c), VoteTerm(m, deposits))
    requires d.dreps == map c | c in all.dreps && all.dreps[c] > 0 :: all.dreps[c]
    ensures SumOver(d.dreps.Keys, ListedTerm(d)) ==
            SumOver(Gathered(dreps.Keys, DelegatorsFunction(m)), VoteTerm(m, deposits))
  {
    SumByClass(dreps.Keys, DelegatorsFunction(m), VoteTerm(m, deposits), ListedTerm(all));
    ZerosLeftOut(all, d);
  }

  lemma ZerosLeftOut(all: Drdd, d: Drdd)
    requires forall c | c in all.dreps :: all.dreps[c] >= 0
    requires d.dreps == map c | c in all.dreps && all.dreps[c] > 0 :: all.dreps[c]
    ensures SumOver(d.dreps.Keys, ListedTerm(d)) == SumOver(all.dreps.Keys, ListedTerm(all))
  {
    var zeros := all.dreps.Keys - d.dreps.Keys;
    SumUnion(d.dreps.Keys, zeros, ListedTerm(all));
    assert d.dreps.Keys + zeros == all.dreps.Keys;
    SumZero(zeros, ListedTerm(all));
    SumExt(d.dreps.Keys, ListedTerm(all), ListedTerm(d));
  }

  lemma RepresentedByChoice(m: Accounts, dreps: map<Credential, U64>)
    ensures Represented(m, dreps) ==
            Gathered(dreps.Keys, DelegatorsFunction(m)) + Choosing(m, Abstain) + Choosing(m, NoConfidence)
    ensures Gathered(dreps.Keys, DelegatorsFunction(m)) !! Choosing(m, Abstain)
    ensures Gathered(dreps.Keys, DelegatorsFunction(m)) + Choosing(m, Abstain) !! Choosing(m, NoConfidence)
  {
    forall a | a in Represented(m, dreps) && CredentialOf(m[a].delegatedDrep).Some?
      ensures a in Gathered(dreps.Keys, DelegatorsFunction(m))
    {
      assert a in DelegatorsFunction(m)(CredentialOf(m[a].delegatedDrep).value);
    }
  }
}
