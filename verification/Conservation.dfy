/**
 Where the lovelace of the account map comes from. Every operation posts a change of the
 total UTXO value and of the total rewards; the totals follow the postings exactly as long
 as no amount leaves the width the code gives it.
 */
module Conservation {
  import opened Base
  import opened Sums
  import opened Accounts
  import opened StakeAddresses

  datatype Change = Change(utxo: int, rewards: int)

  function Plus(x: Change, y: Change): Change {
    Change(x.utxo + y.utxo, x.rewards + y.rewards)
  }

  ghost function Totals(m: Accounts): Change {
    Change(SumOver(m.Keys, UtxoTerm(m)), SumOver(m.Keys, RewardsTerm(m)))
  }

  /** What a caller means to happen to the totals, given the answer they got. */
  function Posted(op: Op, outcome: Outcome): Change {
    match op
    case StakeDelta(_, delta) => Change(if outcome.Done? then delta else 0, 0)
    case UpdateReward(_, delta) => Change(0, if outcome.Done? then delta else 0)
    case PayReward(_, amount) => Change(0, if outcome.Done? then amount else 0)
    case AddToReward(_, amount) => Change(0, amount)
    case Withdraw(_, amount) => Change(0, if outcome.Done? then 0 - amount else 0)
    case _ => Change(0, 0)
  }

  /**
   The amount survives the casts and the saturating addition. A caller can check this
   before the call: a reward must fit a signed word, a withdrawal must be at most 2^63, and
   a credited balance must stay in an unsigned word.
   */
  predicate WithinWidth(m: Accounts, op: Op) {
    match op
    case StakeDelta(a, delta) => GetOrDefault(m, a).utxoValue + delta <= U64_MAX
    case UpdateReward(a, delta) => GetOrDefault(m, a).rewards + delta <= U64_MAX
    case AddToReward(a, amount) => amount <= I64_MAX && GetOrDefault(m, a).rewards + amount <= U64_MAX
    case Withdraw(a, amount) => a in m ==> amount <= I64_MAX + 1
    case _ => true
  }

  lemma TotalsAfterWrite(m: Accounts, a: StakeAddress, s: AccountState)
    ensures Totals(m[a := s]) ==
            Plus(Totals(m), Change(s.utxoValue - GetOrDefault(m, a).utxoValue, s.rewards - GetOrDefault(m, a).rewards))
  {
    var m' := m[a := s];
    SumExt(m.Keys - {a}, UtxoTerm(m), UtxoTerm(m'));
    SumExt(m.Keys - {a}, RewardsTerm(m), RewardsTerm(m'));
    assert m'.Keys - {a} == m.Keys - {a};
    SumRemove(m'.Keys, UtxoTerm(m'), a);
    SumRemove(m'.Keys, RewardsTerm(m'), a);
    if a in m {
      SumRemove(m.Keys, UtxoTerm(m), a);
      SumRemove(m.Keys, RewardsTerm(m), a);
    } else {
      assert m.Keys - {a} == m.Keys;
    }
  }

  lemma SameBalancesSameTotals(m: Accounts, m': Accounts)
    requires m.Keys == m'.Keys
    requires forall a | a in m :: m[a].utxoValue == m'[a].utxoValue && m[a].rewards == m'[a].rewards
    ensures Totals(m) == Totals(m')
  {
    SumExt(m.Keys, UtxoTerm(m), UtxoTerm(m'));
    SumExt(m.Keys, RewardsTerm(m), RewardsTerm(m'));
  }

  predicate OnOneAccount(op: Op) {
    !op.RetirePool? && !op.DeregisterDRep? && !op.RemoveDelegators?
  }

  function BalanceChange(m: Accounts, m': Accounts, a: StakeAddress): Change {
    Change(GetOrDefault(m', a).utxoValue - GetOrDefault(m, a).utxoValue,
           GetOrDefault(m', a).rewards - GetOrDefault(m, a).rewards)
  }

  lemma OneAccountStep(m: Accounts, op: Op)
    requires !RawWrite(op) && OnOneAccount(op)
    ensures var m' := PlainStep(m, op).0;
            m' == if op.address in m' then m[op.address := m'[op.address]] else m
  {
  }

  lemma WithdrawPosts(m: Accounts, a: StakeAddress, amount: U64)
    ensures var (m', outcome) := PlainStep(m, Withdraw(a, amount));
            BalanceChange(m, m', a) == Posted(Withdraw(a, amount), outcome) <==> WithinWidth(m, Withdraw(a, amount))
  {
    if a in m && amount > 0 {
      assert NegI64(AsI64(amount)) == if amount <= I64_MAX + 1 then 0 - amount else TWO_64 - amount;
    }
  }

  lemma RewardPosts(m: Accounts, op: Op)
    requires op.UpdateReward? || op.PayReward? || op.AddToReward?
    ensures BalanceChange(m, PlainStep(m, op).0, op.address) == Posted(op, PlainStep(m, op).1) <==> WithinWidth(m, op)
  {
  }

  lemma BalancePosts(m: Accounts, op: Op)
    requires !RawWrite(op) && OnOneAccount(op)
    ensures BalanceChange(m, PlainStep(m, op).0, op.address) == Posted(op, PlainStep(m, op).1) <==> WithinWidth(m, op)
  {
    match op
    case Withdraw(a, amount) => WithdrawPosts(m, a, amount);
    case UpdateReward(_, _) => RewardPosts(m, op);
    case PayReward(_, _) => RewardPosts(m, op);
    case AddToReward(_, _) => RewardPosts(m, op);
    case _ =>
  }

  /** A withdrawal beyond 2^63 from an empty account is answered as done and credits the account. */
  lemma OversizedWithdrawalCredits(m: Accounts, a: StakeAddress)
    requires a in m && m[a].rewards == 0
    ensures var op := Withdraw(a, I64_MAX + 2);
            && PlainStep(m, op) == (m[a := m[a].(rewards := I64_MAX)], Done)
            && Posted(op, Done) == Change(0, 0 - I64_MAX - 2)
            && !WithinWidth(m, op)
  {
    assert NegI64(AsI64(I64_MAX + 2)) == I64_MAX;
  }

  lemma TotalsByBalance(m: Accounts, m': Accounts, a: StakeAddress)
    requires m' == if a in m' then m[a := m'[a]] else m
    ensures Totals(m') == Plus(Totals(m), BalanceChange(m, m', a))
  {
    if a in m' {
      TotalsAfterWrite(m, a, m'[a]);
    }
  }

  lemma ManyAccountsStep(m: Accounts, op: Op)
    requires !OnOneAccount(op)
    ensures Totals(PlainStep(m, op).0) == Totals(m)
  {
    SameBalancesSameTotals(m, PlainStep(m, op).0);
  }

  lemma PlusCancels(t: Change, x: Change, y: Change)
    ensures Plus(t, x) == Plus(t, y) <==> x == y
  {
  }

  /** A step changes the totals by exactly what it posts, if and only if it stays within width. */
  lemma StepPosts(m: Accounts, op: Op)
    requires !RawWrite(op)
    ensures Totals(PlainStep(m, op).0) == Plus(Totals(m), Posted(op, PlainStep(m, op).1)) <==> WithinWidth(m, op)
  {
    var (m', outcome) := PlainStep(m, op);
    if OnOneAccount(op) {
      OneAccountStep(m, op);
      TotalsByBalance(m, m', op.address);
      BalancePosts(m, op);
      PlusCancels(Totals(m), BalanceChange(m, m', op.address), Posted(op, outcome));
    } else {
      ManyAccountsStep(m, op);
    }
  }

  /** A rejected operation is within width and leaves every balance as it was. */
  lemma RejectedChangesNoBalance(m: Accounts, op: Op, a: StakeAddress)
    requires PlainStep(m, op).1 == Failed || PlainStep(m, op).1 == Flag(false)
    ensures GetOrDefault(PlainStep(m, op).0, a).utxoValue == GetOrDefault(m, a).utxoValue
    ensures GetOrDefault(PlainStep(m, op).0, a).rewards == GetOrDefault(m, a).rewards
    ensures WithinWidth(m, op)
  {
  }

  // ---------------------------------------------------------------------------------
  // Whole runs

  function PostedTotal(ops: seq<Op>, outcomes: seq<Outcome>): Change
    requires |ops| == |outcomes|
  {
    if ops == [] then Change(0, 0) else
    Plus(PostedTotal(ops[..|ops| - 1], outcomes[..|ops| - 1]), Posted(ops[|ops| - 1], outcomes[|ops| - 1]))
  }

  predicate RunWithinWidth(ops: seq<Op>)
    decreases |ops|
  {
    ops == [] ||
    (RunWithinWidth(ops[..|ops| - 1]) &&
     !RawWrite(ops[|ops| - 1]) &&
     WithinWidth(PlainRun(map[], ops[..|ops| - 1]).0, ops[|ops| - 1]))
  }

  lemma {:induction false} OutcomePerOp(m: Accounts, ops: seq<Op>)
    ensures |PlainRun(m, ops).1| == |ops|
    decreases |ops|
  {
    if ops != [] {
      OutcomePerOp(m, ops[..|ops| - 1]);
    }
  }

  lemma {:induction false} PlainRunConserves(ops: seq<Op>)
    requires RunWithinWidth(ops)
    ensures |PlainRun(map[], ops).1| == |ops|
    ensures Totals(PlainRun(map[], ops).0) == PostedTotal(ops, PlainRun(map[], ops).1)
    decreases |ops|
  {
    OutcomePerOp(map[], ops);
    if ops == [] {
      assert SumOver({}, UtxoTerm(map[])) == 0 == SumOver({}, RewardsTerm(map[]));
    } else {
      var before := ops[..|ops| - 1];
      OutcomePerOp(map[], before);
      PlainRunConserves(before);
      StepPosts(PlainRun(map[], before).0, ops[|ops| - 1]);
      assert PlainRun(map[], ops).1[..|ops| - 1] == PlainRun(map[], before).1;
    }
  }

  // ---------------------------------------------------------------------------------
  // One account over a whole run

  /** What the run posts to one account. */
  function PostedTo(ops: seq<Op>, outcomes: seq<Outcome>, a: StakeAddress): Change
    requires |ops| == |outcomes|
  {
    if ops == [] then Change(0, 0) else
    var op, before := ops[|ops| - 1], PostedTo(ops[..|ops| - 1], outcomes[..|ops| - 1], a);
    if OnOneAccount(op) && op.address == a then Plus(before, Posted(op, outcomes[|ops| - 1])) else before
  }

  function Balances(m: Accounts, a: StakeAddress): Change {
    Change(GetOrDefault(m, a).utxoValue, GetOrDefault(m, a).rewards)
  }

  lemma OtherBalances(m: Accounts, op: Op, a: StakeAddress)
    requires !RawWrite(op) && !(OnOneAccount(op) && op.address == a)
    ensures Balances(PlainStep(m, op).0, a) == Balances(m, a)
  {
  }

  lemma BalancesByChange(m: Accounts, m': Accounts, a: StakeAddress)
    ensures Balances(m', a) == Plus(Balances(m, a), BalanceChange(m, m', a))
  {
  }

  lemma StepPostsTo(m: Accounts, op: Op, a: StakeAddress)
    requires !RawWrite(op) && WithinWidth(m, op)
    ensures var (m', outcome) := PlainStep(m, op);
            Balances(m', a) ==
            if OnOneAccount(op) && op.address == a then Plus(Balances(m, a), Posted(op, outcome)) else Balances(m, a)
  {
    if OnOneAccount(op) && op.address == a {
      BalancePosts(m, op);
      BalancesByChange(m, PlainStep(m, op).0, a);
    } else {
      OtherBalances(m, op, a);
    }
  }

  /** Over every run within width an account holds exactly what the run posted to it. */
  lemma {:induction false} AccountFollowsPostings(ops: seq<Op>, a: StakeAddress)
    requires RunWithinWidth(ops)
    ensures |PlainRun(map[], ops).1| == |ops|
    ensures Balances(PlainRun(map[], ops).0, a) == PostedTo(ops, PlainRun(map[], ops).1, a)
    decreases |ops|
  {
    OutcomePerOp(map[], ops);
    if ops != [] {
      var before := ops[..|ops| - 1];
      OutcomePerOp(map[], before);
      AccountFollowsPostings(before, a);
      StepPostsTo(PlainRun(map[], before).0, ops[|ops| - 1], a);
      assert PlainRun(map[], ops).1[..|ops| - 1] == PlainRun(map[], before).1;
    }
  }

  /** When an operation on a balance is accepted. */
  lemma BalanceAnswers(m: Accounts, op: Op)
    ensures match op
            case StakeDelta(a, delta) =>
              PlainStep(m, op).1 == if GetOrDefault(m, a).utxoValue + delta >= 0 then Done else Failed
            case UpdateReward(a, delta) =>
              PlainStep(m, op).1 == if GetOrDefault(m, a).rewards + delta >= 0 then Done else Failed
            case PayReward(a, amount) =>
              PlainStep(m, op).1 == if GetOrDefault(m, a).rewards + amount <= U64_MAX then Done else Failed
            case Withdraw(a, amount) =>
              PlainStep(m, op).1 ==
              if a in m && (amount <= m[a].rewards || amount > I64_MAX + 1) then Done else Failed
            case _ => true
  {
  }

  /** Everything a run may credit; debits only lower balances. */
  function Credits(ops: seq<Op>): (total: nat) {
    if ops == [] then 0 else
    var op := ops[|ops| - 1];
    var credit :=
      match op
      case StakeDelta(_, delta) => Max(delta, 0)
      case UpdateReward(_, delta) => Max(delta, 0)
      case PayReward(_, amount) => amount
      case AddToReward(_, amount) => amount
      case _ => 0;
    Credits(ops[..|ops| - 1]) + credit
  }

  predicate WithinSupply(ops: seq<Op>) {
    && Credits(ops) <= I64_MAX
    && (forall i | 0 <= i < |ops| :: !RawWrite(ops[i]) && (ops[i].Withdraw? ==> ops[i].amount <= I64_MAX))
  }

  lemma BalanceWithinTotal(m: Accounts, a: StakeAddress)
    ensures GetOrDefault(m, a).utxoValue <= Totals(m).utxo
    ensures GetOrDefault(m, a).rewards <= Totals(m).rewards
  {
    if a in m {
      SumMember(m.Keys, UtxoTerm(m), a);
      SumMember(m.Keys, RewardsTerm(m), a);
    } else {
      SumNonNegative(m.Keys, UtxoTerm(m));
      SumNonNegative(m.Keys, RewardsTerm(m));
    }
  }

  lemma {:induction false} PostedWithinCredits(ops: seq<Op>, outcomes: seq<Outcome>)
    requires |ops| == |outcomes|
    ensures PostedTotal(ops, outcomes).utxo <= Credits(ops)
    ensures PostedTotal(ops, outcomes).rewards <= Credits(ops)
  {
    if ops != [] {
      PostedWithinCredits(ops[..|ops| - 1], outcomes[..|ops| - 1]);
    }
  }

  /** A run whose credits stay below 2^63 never leaves the width, whatever it withdraws. */
  lemma {:induction false} SupplyKeepsWidth(ops: seq<Op>)
    requires WithinSupply(ops)
    ensures RunWithinWidth(ops)
    decreases |ops|
  {
    if ops != [] {
      var before, op := ops[..|ops| - 1], ops[|ops| - 1];
      assert op == ops[|ops| - 1] && forall i | 0 <= i < |before| :: before[i] == ops[i];
      SupplyKeepsWidth(before);
      PlainRunConserves(before);
      var (m, outcomes) := PlainRun(map[], before);
      PostedWithinCredits(before, outcomes);
      if op.StakeDelta? || op.UpdateReward? || op.AddToReward? || op.Withdraw? {
        BalanceWithinTotal(m, op.address);
      }
    }
  }

  /**
   Over every run within the supply, the indexed map's total UTXO value is the sum of the
   accepted stake deltas and its total rewards are the rewards paid minus the accepted
   withdrawals.
   */
  lemma RunConservesStake(ops: seq<Op>)
    requires WithinSupply(ops)
    ensures |Run(EMPTY, ops).1| == |ops|
    ensures Totals(Run(EMPTY, ops).0.inner) == PostedTotal(ops, Run(EMPTY, ops).1)
  {
    SupplyKeepsWidth(ops);
    PlainRunConserves(ops);
    IndexedRunRefinesPlainRun(ops);
  }
}
