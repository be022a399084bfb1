/**
 Accounts as a plain map, and what each operation means on it. The plain map has no
 reverse index: deregistering a DRep looks at every account. It is the reference that the
 indexed map of `StakeAddresses` is proved to implement.
 */
module Accounts {
  import opened Base

  datatype DRepChoice = Key(hash: Hash28) | Script(hash: Hash28) | Abstain | NoConfidence

  datatype AccountState = AccountState(
    registered: bool,
    utxoValue: U64,
    rewards: U64,
    delegatedSpo: Option<PoolId>,
    delegatedDrep: Option<DRepChoice>)

  type Accounts = map<StakeAddress, AccountState>

  const DEFAULT_STATE := AccountState(false, 0, 0, None, None)

  function ToCredential(drep: DRepChoice): Option<Credential> {
    match drep
    case Key(hash) => Some(AddrKeyHash(hash))
    case Script(hash) => Some(ScriptHash(hash))
    case Abstain => None
    case NoConfidence => None
  }

  function CredentialOf(choice: Option<DRepChoice>): Option<Credential> {
    if choice.Some? then ToCredential(choice.value) else None
  }

  /** A key or script choice names its own hash as the same kind of credential; the two predefined choices name none. */
  lemma ToCredentialInjective(d1: DRepChoice, d2: DRepChoice)
    ensures ToCredential(d1).Some? <==> d1.Key? || d1.Script?
    ensures ToCredential(d1).Some? ==>
              ToCredential(d1).value.hash == d1.hash && (ToCredential(d1).value.AddrKeyHash? <==> d1.Key?)
    ensures ToCredential(d1).Some? && ToCredential(d1) == ToCredential(d2) ==> d1 == d2
  {
  }

  /**
   Adds a signed delta to an unsigned balance. The magnitude of a negative delta is its
   wrapping negation reinterpreted as unsigned, which is right even for the least word.
   */
  function UpdateValueWithDelta(value: U64, delta: I64): (r: Option<U64>)
    ensures r.Some? <==> 0 <= value + delta
    ensures r.Some? ==> r.value == Min(value + delta, U64_MAX)
  {
    if delta >= 0 then
      Some(SaturatingAdd(value, delta))
    else
      var negated := NegI64(delta);
      var magnitude := if negated < 0 then negated + TWO_64 else negated;
      if magnitude > value then None else Some(value - magnitude)
  }

  /** The public operations of the map; `GetMut` and `Entry` are its raw references. */
  datatype Op =
    | Insert(address: StakeAddress, state: AccountState)
    | Remove(address: StakeAddress)
    | GetMut(address: StakeAddress, state: AccountState)
    | Entry(address: StakeAddress, state: AccountState)
    | Register(address: StakeAddress)
    | Deregister(address: StakeAddress)
    | DelegateStake(address: StakeAddress, pool: PoolId)
    | RetirePool(pool: PoolId)
    | DelegateDRep(address: StakeAddress, drep: DRepChoice)
    | DeregisterDRep(credential: Credential)
    | RemoveDelegators(addresses: set<StakeAddress>)
    | AddToReward(address: StakeAddress, amount: U64)
    | UpdateReward(address: StakeAddress, delta: I64)
    | PayReward(address: StakeAddress, amount: U64)
    | StakeDelta(address: StakeAddress, delta: I64)
    | Withdraw(address: StakeAddress, amount: U64)

  /** An operation that writes an account as it stands, past the rules of the others. */
  predicate RawWrite(op: Op) {
    op.Insert? || op.Remove? || op.GetMut? || op.Entry?
  }

  /** What the caller gets back. */
  datatype Outcome =
    | Done
    | Failed
    | Flag(ok: bool)
    | PreviousState(state: Option<AccountState>)
    | PreviousDRep(drep: Option<DRepChoice>)

  function Lookup(m: Accounts, a: StakeAddress): Option<AccountState> {
    if a in m then Some(m[a]) else None
  }

  function GetOrDefault(m: Accounts, a: StakeAddress): AccountState {
    if a in m then m[a] else DEFAULT_STATE
  }

  ghost function UtxoTerm(m: Accounts): StakeAddress -> int {
    a => GetOrDefault(m, a).utxoValue
  }

  ghost function RewardsTerm(m: Accounts): StakeAddress -> int {
    a => GetOrDefault(m, a).rewards
  }

  /** A write through a reference changes anything but the DRep choice. */
  function KeepDRep(s: AccountState, previous: AccountState): AccountState {
    s.(delegatedDrep := previous.delegatedDrep)
  }

  function WithRewards(m: Accounts, a: StakeAddress, rewards: U64): Accounts {
    m[a := GetOrDefault(m, a).(rewards := rewards)]
  }

  function WithUtxo(m: Accounts, a: StakeAddress, utxo: U64): Accounts {
    m[a := GetOrDefault(m, a).(utxoValue := utxo)]
  }

  function ClearPool(s: AccountState, pool: PoolId): AccountState {
    if s.delegatedSpo == Some(pool) then s.(delegatedSpo := None) else s
  }

  function ClearDRep(s: AccountState, c: Credential): AccountState {
    if CredentialOf(s.delegatedDrep) == Some(c) then s.(delegatedDrep := None) else s
  }

  function PlainStep(m: Accounts, op: Op): (Accounts, Outcome) {
    match op
    case Insert(a, s) => (m[a := s], PreviousState(Lookup(m, a)))
    case Remove(a) => (m - {a}, PreviousState(Lookup(m, a)))
    case GetMut(a, s) => (if a in m then m[a := KeepDRep(s, m[a])] else m, Flag(a in m))
    case Entry(a, s) => (m[a := KeepDRep(s, GetOrDefault(m, a))], Done)
    case Register(a) =>
      var s := GetOrDefault(m, a);
      (m[a := s.(registered := true)], Flag(!s.registered))
    case Deregister(a) =>
      if a in m && m[a].registered
      then (m[a := m[a].(registered := false, delegatedSpo := None, delegatedDrep := None)], Flag(true))
      else (m, Flag(false))
    case DelegateStake(a, pool) =>
      if a in m && m[a].registered
      then (m[a := m[a].(delegatedSpo := Some(pool))], Flag(true))
      else (m, Flag(false))
    case RetirePool(pool) => (map a | a in m :: ClearPool(m[a], pool), Done)
    case DelegateDRep(a, drep) =>
      if a in m && m[a].registered
      then (m[a := m[a].(delegatedDrep := Some(drep))], PreviousDRep(m[a].delegatedDrep))
      else (m, Failed)
    case DeregisterDRep(c) => (map a | a in m :: ClearDRep(m[a], c), Done)
    case RemoveDelegators(addresses) =>
      (map a | a in m :: if a in addresses then m[a].(delegatedDrep := None) else m[a], Done)
    case AddToReward(a, amount) =>
      var updated := UpdateValueWithDelta(GetOrDefault(m, a).rewards, AsI64(amount));
      (WithRewards(m, a, if updated.Some? then updated.value else GetOrDefault(m, a).rewards), Done)
    case UpdateReward(a, delta) =>
      var updated := UpdateValueWithDelta(GetOrDefault(m, a).rewards, delta);
      if updated.Some? then (WithRewards(m, a, updated.value), Done) else (m[a := GetOrDefault(m, a)], Failed)
    case PayReward(a, amount) =>
      var s := GetOrDefault(m, a);
      if s.rewards + amount <= U64_MAX
      then (WithRewards(m, a, s.rewards + amount), Done) else (m[a := s], Failed)
    case StakeDelta(a, delta) =>
      var updated := UpdateValueWithDelta(GetOrDefault(m, a).utxoValue, delta);
      if updated.Some? then (WithUtxo(m, a, updated.value), Done) else (m[a := GetOrDefault(m, a)], Failed)
    case Withdraw(a, amount) =>
      if a !in m then (m, Failed)
      else if amount == 0 then (m, Done)
      else
        var updated := UpdateValueWithDelta(m[a].rewards, NegI64(AsI64(amount)));
        if updated.Some? then (WithRewards(m, a, updated.value), Done) else (m, Failed)
  }

  /** A run of operations, with the outcome of each. */
  function PlainRun(m: Accounts, ops: seq<Op>): (Accounts, seq<Outcome>)
    decreases |ops|
  {
    if ops == [] then (m, []) else
    var (before, outcomes) := PlainRun(m, ops[..|ops| - 1]);
    var (after, outcome) := PlainStep(before, ops[|ops| - 1]);
    (after, outcomes + [outcome])
  }

  // ---------------------------------------------------------------------------------
  // A delegated account is registered

  predicate RegisteredIfDelegated(s: AccountState) {
    !s.registered ==> s.delegatedSpo == None && s.delegatedDrep == None
  }

  predicate AllRegisteredIfDelegated(m: Accounts) {
    forall a | a in m :: RegisteredIfDelegated(m[a])
  }

  /** A raw write stores no delegated but unregistered account; every other operation is free. */
  predicate RawWritesRespect(m: Accounts, op: Op) {
    match op
    case Insert(_, s) => RegisteredIfDelegated(s)
    case GetMut(a, s) => a in m ==> RegisteredIfDelegated(KeepDRep(s, m[a]))
    case Entry(a, s) => RegisteredIfDelegated(KeepDRep(s, GetOrDefault(m, a)))
    case _ => true
  }

  predicate RunRespects(m: Accounts, ops: seq<Op>)
    decreases |ops|
  {
    ops == [] ||
    (RunRespects(m, ops[..|ops| - 1]) &&
     RawWritesRespect(PlainRun(m, ops[..|ops| - 1]).0, ops[|ops| - 1]))
  }

  lemma StepKeepsRegistered(m: Accounts, op: Op)
    requires AllRegisteredIfDelegated(m) && RawWritesRespect(m, op)
    ensures AllRegisteredIfDelegated(PlainStep(m, op).0)
  {
  }

  /** In every reachable state a delegated account is registered. */
  lemma {:induction false} DelegatedIsRegistered(ops: seq<Op>)
    requires RunRespects(map[], ops)
    ensures AllRegisteredIfDelegated(PlainRun(map[], ops).0)
    decreases |ops|
  {
    if ops != [] {
      DelegatedIsRegistered(ops[..|ops| - 1]);
      StepKeepsRegistered(PlainRun(map[], ops[..|ops| - 1]).0, ops[|ops| - 1]);
    }
  }
}
