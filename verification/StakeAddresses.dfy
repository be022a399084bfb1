/**
 The account map with its reverse index from DRep credential to delegators. The index may
 hold addresses that no longer delegate; it never misses one that does.
 */
module StakeAddresses {
  import opened Base
  import opened Accounts

  type Index = map<Credential, set<StakeAddress>>

  datatype IndexedMap = IndexedMap(inner: Accounts, index: Index)

  const EMPTY := IndexedMap(map[], map[])

  /** Every current delegator is in its credential's bucket, and no bucket is empty. */
  predicate Indexed(s: IndexedMap) {
    && (forall a | a in s.inner && CredentialOf(s.inner[a].delegatedDrep).Some? ::
          var c := CredentialOf(s.inner[a].delegatedDrep).value;
          c in s.index && a in s.index[c])
    && (forall c | c in s.index :: s.index[c] != {})
  }

  function RemoveDelegate(index: Index, a: StakeAddress, choice: Option<DRepChoice>): Index {
    match CredentialOf(choice)
    case None => index
    case Some(c) =>
      if c !in index then index
      else if index[c] - {a} == {} then index - {c}
      else index[c := index[c] - {a}]
  }

  function AddDelegate(index: Index, a: StakeAddress, choice: Option<DRepChoice>): Index {
    match CredentialOf(choice)
    case None => index
    case Some(c) => index[c := (if c in index then index[c] else {}) + {a}]
  }

  function Reindex(index: Index, a: StakeAddress, from: Option<DRepChoice>, to: Option<DRepChoice>): Index {
    if from == to then index else AddDelegate(RemoveDelegate(index, a, from), a, to)
  }

  function ChoiceOf(m: Accounts, a: StakeAddress): Option<DRepChoice> {
    if a in m then m[a].delegatedDrep else None
  }

  /** Only the accounts in the bucket are looked at. */
  function ClearBucket(m: Accounts, bucket: set<StakeAddress>, c: Credential): Accounts {
    map a | a in m :: if a in bucket then ClearDRep(m[a], c) else m[a]
  }

  function Step(s: IndexedMap, op: Op): (IndexedMap, Outcome) {
    match op
    case DeregisterDRep(c) =>
      if c in s.index
      then (IndexedMap(ClearBucket(s.inner, s.index[c], c), s.index - {c}), Done)
      else (s, Done)
    case _ =>
      var (inner, outcome) := PlainStep(s.inner, op);
      var index :=
        match op
        case Insert(a, state) => Reindex(s.index, a, ChoiceOf(s.inner, a), state.delegatedDrep)
        case Remove(a) => RemoveDelegate(s.index, a, ChoiceOf(s.inner, a))
        case DelegateDRep(a, drep) =>
          if outcome.Failed? then s.index else Reindex(s.index, a, ChoiceOf(s.inner, a), Some(drep))
        case _ => s.index;
      (IndexedMap(inner, index), outcome)
  }

  function Run(s: IndexedMap, ops: seq<Op>): (IndexedMap, seq<Outcome>)
    decreases |ops|
  {
    if ops == [] then (s, []) else
    var (before, outcomes) := Run(s, ops[..|ops| - 1]);
    var (after, outcome) := Step(before, ops[|ops| - 1]);
    (after, outcomes + [outcome])
  }

  // ---------------------------------------------------------------------------------
  // The index is sound

  lemma ReindexKeepsIndexed(s: IndexedMap, a: StakeAddress, state: AccountState)
    requires Indexed(s)
    ensures Indexed(IndexedMap(s.inner[a := state],
                               Reindex(s.index, a, ChoiceOf(s.inner, a), state.delegatedDrep)))
  {
    var from, to := ChoiceOf(s.inner, a), state.delegatedDrep;
    if from != to {
      var removed := RemoveDelegate(s.index, a, from);
      assert forall c | c in s.index && s.index[c] - {a} != {} :: c in removed && s.index[c] - {a} <= removed[c];
      assert forall b | b in s.inner && b != a && CredentialOf(s.inner[b].delegatedDrep).Some? ::
          var c := CredentialOf(s.inner[b].delegatedDrep).value; b in s.index[c] - {a};
    }
  }

  lemma RemoveKeepsIndexed(s: IndexedMap, a: StakeAddress)
    requires Indexed(s)
    ensures Indexed(IndexedMap(s.inner - {a}, RemoveDelegate(s.index, a, ChoiceOf(s.inner, a))))
  {
    var removed := RemoveDelegate(s.index, a, ChoiceOf(s.inner, a));
    assert forall c | c in s.index && s.index[c] - {a} != {} :: c in removed && s.index[c] - {a} <= removed[c];
    assert forall b | b in s.inner && b != a && CredentialOf(s.inner[b].delegatedDrep).Some? ::
        var c := CredentialOf(s.inner[b].delegatedDrep).value; b in s.index[c] - {a};
  }

  /** Looking only at the bucket finds every delegator a scan of all accounts would find. */
  lemma BucketFindsAll(s: IndexedMap, c: Credential)
    requires Indexed(s)
    ensures c in s.index ==> ClearBucket(s.inner, s.index[c], c) == PlainStep(s.inner, DeregisterDRep(c)).0
    ensures c !in s.index ==> s.inner == PlainStep(s.inner, DeregisterDRep(c)).0
  {
  }

  /** A change that gives no account a new DRep choice needs no change of the index. */
  /** These operations give no account a DRep it did not have. */
  lemma NoNewChoice(m: Accounts, op: Op, a: StakeAddress)
    requires !op.Insert? && !op.Remove? && !op.DelegateDRep? && !op.DeregisterDRep?
    ensures var m' := PlainStep(m, op).0;
            a in m' && CredentialOf(m'[a].delegatedDrep).Some? ==> a in m && m'[a].delegatedDrep == m[a].delegatedDrep
  {
  }

  lemma UnindexedOpsKeepIndexed(s: IndexedMap, op: Op)
    requires Indexed(s)
    requires !op.Insert? && !op.Remove? && !op.DelegateDRep? && !op.DeregisterDRep?
    ensures Indexed(IndexedMap(PlainStep(s.inner, op).0, s.index))
  {
    var inner := PlainStep(s.inner, op).0;
    forall a | a in inner && CredentialOf(inner[a].delegatedDrep).Some?
      ensures a in s.inner && inner[a].delegatedDrep == s.inner[a].delegatedDrep
    {
      NoNewChoice(s.inner, op, a);
    }
  }

  lemma StepRefines(s: IndexedMap, op: Op)
    requires Indexed(s)
    ensures Step(s, op).0.inner == PlainStep(s.inner, op).0
    ensures Step(s, op).1 == PlainStep(s.inner, op).1
    ensures Indexed(Step(s, op).0)
  {
    match op
    case Insert(a, state) => ReindexKeepsIndexed(s, a, state);
    case Remove(a) => RemoveKeepsIndexed(s, a);
    case DelegateDRep(a, drep) =>
      if a in s.inner && s.inner[a].registered {
        ReindexKeepsIndexed(s, a, s.inner[a].(delegatedDrep := Some(drep)));
      }
    case DeregisterDRep(c) => BucketFindsAll(s, c);
    case _ => UnindexedOpsKeepIndexed(s, op);
  }

  /**
   Over every run, the indexed map holds the accounts and gives the answers of the plain
   map that scans all accounts, and its index stays sound.
   */
  lemma {:induction false} IndexedRunRefinesPlainRun(ops: seq<Op>)
    ensures Run(EMPTY, ops).0.inner == PlainRun(map[], ops).0
    ensures Run(EMPTY, ops).1 == PlainRun(map[], ops).1
    ensures Indexed(Run(EMPTY, ops).0)
    decreases |ops|
  {
    if ops != [] {
      IndexedRunRefinesPlainRun(ops[..|ops| - 1]);
      StepRefines(Run(EMPTY, ops[..|ops| - 1]).0, ops[|ops| - 1]);
    }
  }

  // ---------------------------------------------------------------------------------
  // The mutable map

  class StakeAddressMap {
    var inner: Accounts
    var drepDelegates: Index

    ghost function State(): IndexedMap
      reads this
    {
      IndexedMap(inner, drepDelegates)
    }

    ghost predicate Valid()
      reads this
    {
      Indexed(State())
    }

    /** The object went from `before` to here by one step of the specification, refining the plain one. */
    ghost predicate Performed(before: IndexedMap, op: Op, outcome: Outcome)
      reads this
    {
      && (State(), outcome) == Step(before, op)
      && (inner, outcome) == PlainStep(before.inner, op)
      && Valid()
    }

    constructor ()
      ensures State() == EMPTY && Valid()
    {
      inner := map[];
      drepDelegates := map[];
    }

    method RemoveDRepDelegate(a: StakeAddress, choice: Option<DRepChoice>)
      modifies this`drepDelegates
      ensures drepDelegates == RemoveDelegate(old(drepDelegates), a, choice)
    {
      var credential := CredentialOf(choice);
      if credential.None? || credential.value !in drepDelegates {
        return;
      }
      var bucket := drepDelegates[credential.value] - {a};
      drepDelegates := drepDelegates[credential.value := bucket];
      if bucket == {} {
        drepDelegates := drepDelegates - {credential.value};
      }
      assert drepDelegates == RemoveDelegate(old(drepDelegates), a, choice);
    }

    method AddDRepDelegate(a: StakeAddress, choice: Option<DRepChoice>)
      modifies this`drepDelegates
      ensures drepDelegates == AddDelegate(old(drepDelegates), a, choice)
    {
      var credential := CredentialOf(choice);
      if credential.None? {
        return;
      }
      if credential.value !in drepDelegates {
        drepDelegates := drepDelegates[credential.value := {}];
      }
      drepDelegates := drepDelegates[credential.value := drepDelegates[credential.value] + {a}];
    }

    method Insert(a: StakeAddress, state: AccountState) returns (previous: Option<AccountState>)
      requires Valid()
      modifies this
      ensures Performed(old(State()), Op.Insert(a, state), PreviousState(previous))
      ensures previous == old(Lookup(inner, a)) && Lookup(inner, a) == Some(state)
    {
      StepRefines(State(), Op.Insert(a, state));
      previous := Lookup(inner, a);
      inner := inner[a := state];
      var oldDrep := if previous.Some? then previous.value.delegatedDrep else None;
      if oldDrep != state.delegatedDrep {
        RemoveDRepDelegate(a, oldDrep);
        AddDRepDelegate(a, state.delegatedDrep);
      }
    }

    method Remove(a: StakeAddress) returns (previous: Option<AccountState>)
      requires Valid()
      modifies this
      ensures Performed(old(State()), Op.Remove(a), PreviousState(previous))
      ensures previous == old(Lookup(inner, a)) && a !in inner
    {
      StepRefines(State(), Op.Remove(a));
      previous := Lookup(inner, a);
      inner := inner - {a};
      RemoveDRepDelegate(a, if previous.Some? then previous.value.delegatedDrep else None);
    }

    /** A write through a mutable reference, which leaves the DRep choice alone. */
    method WriteThrough(a: StakeAddress, state: AccountState) returns (ok: bool)
      requires Valid()
      modifies this`inner
      ensures Performed(old(State()), GetMut(a, state), Flag(ok))
    {
      StepRefines(State(), GetMut(a, state));
      ok := a in inner;
      if ok {
        inner := inner[a := KeepDRep(state, inner[a])];
      }
    }

    method RegisterStakeAddress(a: StakeAddress) returns (ok: bool)
      requires Valid()
      modifies this`inner
      ensures Performed(old(State()), Register(a), Flag(ok))
      ensures a in inner && inner[a].registered && ok == !old(GetOrDefault(inner, a)).registered
    {
      StepRefines(State(), Register(a));
      if a !in inner {
        inner := inner[a := DEFAULT_STATE];
      }
      if inner[a].registered {
        ok := false;
      } else {
        inner := inner[a := inner[a].(registered := true)];
        ok := true;
      }
      assert inner == old(inner)[a := GetOrDefault(old(inner), a).(registered := true)];
    }

    method DeregisterStakeAddress(a: StakeAddress) returns (ok: bool)
      requires Valid()
      modifies this`inner
      ensures Performed(old(State()), Deregister(a), Flag(ok))
      ensures ok == old(GetOrDefault(inner, a)).registered && !GetOrDefault(inner, a).registered
    {
      StepRefines(State(), Deregister(a));
      ok := false;
      if a in inner {
        if inner[a].registered {
          inner := inner[a := inner[a].(registered := false, delegatedSpo := None, delegatedDrep := None)];
          ok := true;
        }
      }
    }

    method RecordStakeDelegation(a: StakeAddress, pool: PoolId) returns (ok: bool)
      requires Valid()
      modifies this`inner
      ensures Performed(old(State()), DelegateStake(a, pool), Flag(ok))
      ensures ok == old(GetOrDefault(inner, a)).registered
      ensures ok ==> a in inner && inner[a].delegatedSpo == Some(pool)
    {
      StepRefines(State(), DelegateStake(a, pool));
      ok := false;
      if a in inner {
        if inner[a].registered {
          inner := inner[a := inner[a].(delegatedSpo := Some(pool))];
          ok := true;
        }
      }
    }

    method RemoveAllDelegationsTo(pool: PoolId)
      requires Valid()
      modifies this`inner
      ensures Performed(old(State()), RetirePool(pool), Done)
    {
      StepRefines(State(), RetirePool(pool));
      var todo := inner.Keys;
      while todo != {}
        invariant todo <= inner.Keys == old(inner).Keys
        invariant forall a | a in inner ::
            inner[a] == if a in todo then old(inner)[a] else ClearPool(old(inner)[a], pool)
        decreases todo
      {
        var a :| a in todo;
        if inner[a].delegatedSpo == Some(pool) {
          inner := inner[a := inner[a].(delegatedSpo := None)];
        }
        todo := todo - {a};
      }
      assert inner == PlainStep(old(inner), RetirePool(pool)).0;
    }

    method DeregisterDRep(c: Credential)
      requires Valid()
      modifies this
      ensures Performed(old(State()), Op.DeregisterDRep(c), Done)
    {
      StepRefines(State(), Op.DeregisterDRep(c));
      if c !in drepDelegates {
        return;
      }
      var delegators := drepDelegates[c];
      drepDelegates := drepDelegates - {c};
      var todo := delegators;
      while todo != {}
        invariant todo <= delegators
        invariant drepDelegates == old(drepDelegates) - {c}
        invariant inner.Keys == old(inner).Keys
        invariant forall a | a in inner ::
            inner[a] == if a in delegators - todo then ClearDRep(old(inner)[a], c) else old(inner)[a]
        decreases todo
      {
        var a :| a in todo;
        if a in inner {
          if CredentialOf(inner[a].delegatedDrep) == Some(c) {
            inner := inner[a := inner[a].(delegatedDrep := None)];
          }
        }
        todo := todo - {a};
      }
      assert inner == ClearBucket(old(inner), delegators, c);
    }

    method RecordDRepDelegation(a: StakeAddress, drep: DRepChoice) returns (r: Outcome)
      requires Valid()
      modifies this
      ensures r.Failed? || r.PreviousDRep?
      ensures Performed(old(State()), DelegateDRep(a, drep), r)
      ensures r.PreviousDRep? == old(GetOrDefault(inner, a)).registered
      ensures r.PreviousDRep? ==>
                r.drep == old(inner[a].delegatedDrep) && a in inner && inner[a].delegatedDrep == Some(drep)
    {
      StepRefines(State(), DelegateDRep(a, drep));
      if a !in inner {
        return Failed;
      }
      if !inner[a].registered {
        return Failed;
      }
      var prev := inner[a].delegatedDrep;
      if prev != Some(drep) {
        RemoveDRepDelegate(a, prev);
        AddDRepDelegate(a, Some(drep));
      }
      inner := inner[a := inner[a].(delegatedDrep := Some(drep))];
      r := PreviousDRep(prev);
    }

    method RemoveDelegatorsFromDRep(delegators: set<StakeAddress>)
      requires Valid()
      modifies this`inner
      ensures Performed(old(State()), RemoveDelegators(delegators), Done)
    {
      StepRefines(State(), RemoveDelegators(delegators));
      var todo := delegators;
      while todo != {}
        invariant todo <= delegators
        invariant inner.Keys == old(inner).Keys
        invariant forall a | a in inner ::
            inner[a] == if a in delegators - todo then old(inner)[a].(delegatedDrep := None) else old(inner)[a]
        decreases todo
      {
        var a :| a in todo;
        if a in inner {
          inner := inner[a := inner[a].(delegatedDrep := None)];
        }
        todo := todo - {a};
      }
      assert inner == PlainStep(old(inner), RemoveDelegators(delegators)).0;
    }

    method AddToReward(a: StakeAddress, amount: U64)
      requires Valid()
      modifies this
      ensures Performed(old(State()), Op.AddToReward(a, amount), Done)
    {
      StepRefines(State(), Op.AddToReward(a, amount));
      if a !in inner {
        var _ := Insert(a, DEFAULT_STATE);
      }
      var updated := UpdateValueWithDelta(inner[a].rewards, AsI64(amount));
      if updated.Some? {
        inner := inner[a := inner[a].(rewards := updated.value)];
      }
      assert inner == PlainStep(old(inner), Op.AddToReward(a, amount)).0;
    }

    method ProcessStakeDelta(a: StakeAddress, delta: I64) returns (ok: bool)
      requires Valid()
      modifies this`inner
      ensures Performed(old(State()), StakeDelta(a, delta), if ok then Done else Failed)
    {
      StepRefines(State(), StakeDelta(a, delta));
      inner := inner[a := GetOrDefault(inner, a)];
      var updated := UpdateValueWithDelta(inner[a].utxoValue, delta);
      ok := updated.Some?;
      if ok {
        inner := inner[a := inner[a].(utxoValue := updated.value)];
        assert inner == WithUtxo(old(inner), a, updated.value);
      }
    }

    method ProcessWithdrawal(a: StakeAddress, amount: U64) returns (ok: bool)
      requires Valid()
      modifies this
      ensures Performed(old(State()), Withdraw(a, amount), if ok then Done else Failed)
    {
      StepRefines(State(), Withdraw(a, amount));
      if a !in inner {
        return false;
      }
      if amount != 0 {
        var updated := UpdateValueWithDelta(inner[a].rewards, NegI64(AsI64(amount)));
        if updated.None? {
          return false;
        }
        var _ := Insert(a, inner[a].(rewards := updated.value));
      }
      ok := true;
    }

    method UpdateReward(a: StakeAddress, delta: I64) returns (ok: bool)
      requires Valid()
      modifies this`inner
      ensures Performed(old(State()), Op.UpdateReward(a, delta), if ok then Done else Failed)
    {
      StepRefines(State(), Op.UpdateReward(a, delta));
      inner := inner[a := GetOrDefault(inner, a)];
      var updated := UpdateValueWithDelta(inner[a].rewards, delta);
      ok := updated.Some?;
      if ok {
        inner := inner[a := inner[a].(rewards := updated.value)];
        assert inner == WithRewards(old(inner), a, updated.value);
      }
    }

    method PayReward(a: StakeAddress, amount: U64) returns (ok: bool)
      requires Valid()
      modifies this`inner
      ensures Performed(old(State()), Op.PayReward(a, amount), if ok then Done else Failed)
    {
      StepRefines(State(), Op.PayReward(a, amount));
      inner := inner[a := GetOrDefault(inner, a)];
      ok := inner[a].rewards + amount <= U64_MAX;
      if ok {
        inner := inner[a := inner[a].(rewards := inner[a].rewards + amount)];
        assert inner == WithRewards(old(inner), a, old(GetOrDefault(inner, a)).rewards + amount);
      }
    }
  }
}
