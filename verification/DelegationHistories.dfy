/**
 What the operations of the account map leave behind, told from the operations and their
 answers alone: which pool and which DRep an account is delegated to, whether it is
 registered, and when each operation is accepted.
 */
module DelegationHistories {
  import opened Base
  import opened Accounts
  import SA = StakeAddresses

  ghost predicate NoRawWrites(ops: seq<Op>) {
    forall i | 0 <= i < |ops| :: !RawWrite(ops[i])
  }

  /** An operation and its answer. */
  datatype Answered = Answered(op: Op, outcome: Outcome)

  type Log = seq<Answered>

  function LogOf(ops: seq<Op>, outcomes: seq<Outcome>): (log: Log)
    requires |ops| == |outcomes|
    ensures |log| == |ops|
  {
    seq(|ops|, i requires 0 <= i < |ops| => Answered(ops[i], outcomes[i]))
  }

  // ---------------------------------------------------------------------------------
  // Accepted operations

  predicate Registers(e: Answered, a: StakeAddress) {
    e == Answered(Register(a), Flag(true))
  }

  predicate Deregisters(e: Answered, a: StakeAddress) {
    e == Answered(Deregister(a), Flag(true))
  }

  predicate Delegates(e: Answered, a: StakeAddress, pool: PoolId) {
    e == Answered(DelegateStake(a, pool), Flag(true))
  }

  predicate Chooses(e: Answered, a: StakeAddress, drep: DRepChoice) {
    e.op == DelegateDRep(a, drep) && e.outcome.PreviousDRep?
  }

  /** What ends a delegation to a pool: leaving, the pool's retirement, or another delegation. */
  predicate EndsPool(e: Answered, a: StakeAddress, pool: PoolId) {
    || Deregisters(e, a)
    || e.op == RetirePool(pool)
    || (e.op.DelegateStake? && e.op.address == a && e.outcome == Flag(true))
  }

  /** What ends a choice of DRep: leaving, the DRep's leaving, being listed for removal, or another choice. */
  predicate EndsChoice(e: Answered, a: StakeAddress, drep: DRepChoice) {
    || Deregisters(e, a)
    || (e.op.DeregisterDRep? && ToCredential(drep) == Some(e.op.credential))
    || (e.op.RemoveDelegators? && a in e.op.addresses)
    || (e.op.DelegateDRep? && e.op.address == a && e.outcome.PreviousDRep?)
  }

  /** Operations that create an account which is not there yet, accepted or not. */
  predicate Creates(op: Op, a: StakeAddress) {
    (op.Register? || op.AddToReward? || op.UpdateReward? || op.PayReward? || op.StakeDelta?) && op.address == a
  }

  // ---------------------------------------------------------------------------------
  // What is in force after a log

  ghost predicate InForceSince(log: Log, a: StakeAddress, i: int) {
    && 0 <= i < |log| && Registers(log[i], a)
    && forall j | i < j < |log| :: !Deregisters(log[j], a)
  }

  ghost predicate PoolSince(log: Log, a: StakeAddress, pool: PoolId, i: int) {
    && 0 <= i < |log| && Delegates(log[i], a, pool)
    && forall j | i < j < |log| :: !EndsPool(log[j], a, pool)
  }

  ghost predicate ChoiceSince(log: Log, a: StakeAddress, drep: DRepChoice, i: int) {
    && 0 <= i < |log| && Chooses(log[i], a, drep)
    && forall j | i < j < |log| :: !EndsChoice(log[j], a, drep)
  }

  ghost predicate IsKnown(log: Log, a: StakeAddress) {
    exists i :: 0 <= i < |log| && Creates(log[i].op, a)
  }

  ghost predicate IsRegistered(log: Log, a: StakeAddress) {
    exists i :: InForceSince(log, a, i)
  }

  ghost predicate HasPool(log: Log, a: StakeAddress, pool: PoolId) {
    exists i :: PoolSince(log, a, pool, i)
  }

  ghost predicate HasChoice(log: Log, a: StakeAddress, drep: DRepChoice) {
    exists i :: ChoiceSince(log, a, drep, i)
  }

  // ---------------------------------------------------------------------------------
  // One more operation

  lemma RegisteredNext(log: Log, e: Answered, a: StakeAddress)
    ensures IsRegistered(log + [e], a) <==> Registers(e, a) || (IsRegistered(log, a) && !Deregisters(e, a))
  {
    var log' := log + [e];
    if i :| InForceSince(log', a, i) {
      if i < |log| {
        assert log'[|log|] == e;
        assert forall j | i < j < |log| :: log'[j] == log[j];
        assert InForceSince(log, a, i);
      }
    }
    if i :| InForceSince(log, a, i) && !Deregisters(e, a) {
      assert InForceSince(log', a, i);
    }
    if Registers(e, a) {
      assert InForceSince(log', a, |log|);
    }
  }

  lemma PoolNext(log: Log, e: Answered, a: StakeAddress, pool: PoolId)
    ensures HasPool(log + [e], a, pool) <==> Delegates(e, a, pool) || (HasPool(log, a, pool) && !EndsPool(e, a, pool))
  {
    var log' := log + [e];
    if i :| PoolSince(log', a, pool, i) {
      if i < |log| {
        assert log'[|log|] == e;
        assert forall j | i < j < |log| :: log'[j] == log[j];
        assert PoolSince(log, a, pool, i);
      }
    }
    if i :| PoolSince(log, a, pool, i) && !EndsPool(e, a, pool) {
      assert PoolSince(log', a, pool, i);
    }
    if Delegates(e, a, pool) {
      assert PoolSince(log', a, pool, |log|);
    }
  }

  lemma ChoiceNext(log: Log, e: Answered, a: StakeAddress, drep: DRepChoice)
    ensures HasChoice(log + [e], a, drep) <==> Chooses(e, a, drep) || (HasChoice(log, a, drep) && !EndsChoice(e, a, drep))
  {
    var log' := log + [e];
    if i :| ChoiceSince(log', a, drep, i) {
      if i < |log| {
        assert log'[|log|] == e;
        assert forall j | i < j < |log| :: log'[j] == log[j];
        assert ChoiceSince(log, a, drep, i);
      }
    }
    if i :| ChoiceSince(log, a, drep, i) && !EndsChoice(e, a, drep) {
      assert ChoiceSince(log', a, drep, i);
    }
    if Chooses(e, a, drep) {
      assert ChoiceSince(log', a, drep, |log|);
    }
  }

  lemma KnownNext(log: Log, e: Answered, a: StakeAddress)
    ensures IsKnown(log + [e], a) <==> Creates(e.op, a) || IsKnown(log, a)
  {
    var log' := log + [e];
    if i :| 0 <= i < |log| && Creates(log[i].op, a) {
      assert log'[i] == log[i];
    }
    assert log'[|log|] == e;
  }

  // ---------------------------------------------------------------------------------
  // One step of the map

  lemma StepRegisters(m: Accounts, op: Op, a: StakeAddress)
    requires !RawWrite(op)
    ensures var (m', outcome) := PlainStep(m, op);
            var e := Answered(op, outcome);
            GetOrDefault(m', a).registered <==> Registers(e, a) || (GetOrDefault(m, a).registered && !Deregisters(e, a))
  {
  }

  lemma StepDelegates(m: Accounts, op: Op, a: StakeAddress, pool: PoolId)
    requires !RawWrite(op)
    ensures var (m', outcome) := PlainStep(m, op);
            var e := Answered(op, outcome);
            GetOrDefault(m', a).delegatedSpo == Some(pool) <==>
            Delegates(e, a, pool) || (GetOrDefault(m, a).delegatedSpo == Some(pool) && !EndsPool(e, a, pool))
  {
  }

  lemma StepChooses(m: Accounts, op: Op, a: StakeAddress, drep: DRepChoice)
    requires !RawWrite(op)
    ensures var (m', outcome) := PlainStep(m, op);
            var e := Answered(op, outcome);
            GetOrDefault(m', a).delegatedDrep == Some(drep) <==>
            Chooses(e, a, drep) || (GetOrDefault(m, a).delegatedDrep == Some(drep) && !EndsChoice(e, a, drep))
  {
  }

  lemma StepKnows(m: Accounts, op: Op, a: StakeAddress)
    requires !RawWrite(op)
    ensures a in PlainStep(m, op).0 <==> Creates(op, a) || a in m
  {
  }

  // ---------------------------------------------------------------------------------
  // Whole runs

  ghost function PlainLog(ops: seq<Op>): (log: Log)
    ensures |log| == |ops|
  {
    OneAnswerEach(ops);
    LogOf(ops, PlainRun(map[], ops).1)
  }

  lemma {:induction false} OneAnswerEach(ops: seq<Op>)
    ensures |PlainRun(map[], ops).1| == |ops|
    decreases |ops|
  {
    if ops != [] {
      OneAnswerEach(ops[..|ops| - 1]);
    }
  }

  lemma LogNext(ops: seq<Op>)
    requires ops != []
    ensures var (before, op) := (ops[..|ops| - 1], ops[|ops| - 1]);
            PlainLog(ops) == PlainLog(before) + [Answered(op, PlainStep(PlainRun(map[], before).0, op).1)]
  {
    OneAnswerEach(ops);
    OneAnswerEach(ops[..|ops| - 1]);
  }

  /** The fields of an account are what its log says. */
  ghost predicate Tells(log: Log, m: Accounts, a: StakeAddress) {
    var s := GetOrDefault(m, a);
    && (a in m <==> IsKnown(log, a))
    && (s.registered <==> IsRegistered(log, a))
    && (forall pool :: s.delegatedSpo == Some(pool) <==> HasPool(log, a, pool))
    && (forall drep :: s.delegatedDrep == Some(drep) <==> HasChoice(log, a, drep))
  }

  lemma StepTells(log: Log, m: Accounts, op: Op, a: StakeAddress)
    requires !RawWrite(op) && Tells(log, m, a)
    ensures var (m', outcome) := PlainStep(m, op); Tells(log + [Answered(op, outcome)], m', a)
  {
    var (m', outcome) := PlainStep(m, op);
    var e := Answered(op, outcome);
    StepKnows(m, op, a);
    KnownNext(log, e, a);
    StepRegisters(m, op, a);
    RegisteredNext(log, e, a);
    forall pool ensures GetOrDefault(m', a).delegatedSpo == Some(pool) <==> HasPool(log + [e], a, pool) {
      StepDelegates(m, op, a, pool);
      PoolNext(log, e, a, pool);
    }
    forall drep ensures GetOrDefault(m', a).delegatedDrep == Some(drep) <==> HasChoice(log + [e], a, drep) {
      StepChooses(m, op, a, drep);
      ChoiceNext(log, e, a, drep);
    }
  }

  lemma {:induction false} PlainRunTells(ops: seq<Op>, a: StakeAddress)
    requires NoRawWrites(ops)
    ensures Tells(PlainLog(ops), PlainRun(map[], ops).0, a)
    decreases |ops|
  {
    if ops != [] {
      var before := ops[..|ops| - 1];
      PlainRunTells(before, a);
      StepTells(PlainLog(before), PlainRun(map[], before).0, ops[|ops| - 1], a);
      LogNext(ops);
    }
  }

  /** The answers of the indexed map. */
  ghost function LogOfRun(ops: seq<Op>): (log: Log)
    ensures |log| == |ops|
  {
    SA.IndexedRunRefinesPlainRun(ops);
    OneAnswerEach(ops);
    LogOf(ops, SA.Run(SA.EMPTY, ops).1)
  }

  /**
   Over every run of operations without raw writes, an account of the indexed map is known,
   registered, delegated to a pool and to a DRep exactly as the accepted operations say: a
   delegation stands from the last accepted one until the account leaves, the pool retires or
   the DRep leaves.
   */
  lemma RunTells(ops: seq<Op>, a: StakeAddress)
    requires NoRawWrites(ops)
    ensures Tells(LogOfRun(ops), SA.Run(SA.EMPTY, ops).0.inner, a)
  {
    SA.IndexedRunRefinesPlainRun(ops);
    PlainRunTells(ops, a);
  }

  // ---------------------------------------------------------------------------------
  // When operations are accepted

  /** The answer the log before it calls for. */
  ghost predicate Due(log: Log, e: Answered) {
    match e.op
    case Register(a) => e.outcome == Flag(!IsRegistered(log, a))
    case Deregister(a) => e.outcome == Flag(IsRegistered(log, a))
    case DelegateStake(a, _) => e.outcome == Flag(IsRegistered(log, a))
    case DelegateDRep(a, _) =>
      if IsRegistered(log, a)
      then e.outcome.PreviousDRep? && forall drep :: e.outcome.drep == Some(drep) <==> HasChoice(log, a, drep)
      else e.outcome == Failed
    case RetirePool(_) => e.outcome == Done
    case DeregisterDRep(_) => e.outcome == Done
    case RemoveDelegators(_) => e.outcome == Done
    case AddToReward(_, _) => e.outcome == Done
    case Withdraw(a, amount) =>
      (!IsKnown(log, a) ==> e.outcome == Failed) && (IsKnown(log, a) && amount == 0 ==> e.outcome == Done)
    case _ => true
  }

  lemma StepIsDue(log: Log, m: Accounts, op: Op)
    requires !RawWrite(op) && forall a :: Tells(log, m, a)
    ensures Due(log, Answered(op, PlainStep(m, op).1))
  {
    if !op.RetirePool? && !op.DeregisterDRep? && !op.RemoveDelegators? {
      assert Tells(log, m, op.address);
    }
  }

  lemma {:induction false} LogPrefix(ops: seq<Op>, k: nat)
    requires k <= |ops|
    ensures PlainLog(ops)[..k] == PlainLog(ops[..k])
    decreases |ops|
  {
    if k == |ops| {
      assert ops[..k] == ops;
    } else {
      LogNext(ops);
      LogPrefix(ops[..|ops| - 1], k);
      assert ops[..|ops| - 1][..k] == ops[..k];
    }
  }

  /** Every answer of a run is the one that the operations and answers before it call for. */
  lemma RunAnswers(ops: seq<Op>, k: nat)
    requires NoRawWrites(ops) && k < |ops|
    ensures Due(LogOfRun(ops)[..k], LogOfRun(ops)[k])
  {
    SA.IndexedRunRefinesPlainRun(ops);
    var before, upto := ops[..k], ops[..k + 1];
    assert upto[..k] == before;
    forall a ensures Tells(PlainLog(before), PlainRun(map[], before).0, a) {
      PlainRunTells(before, a);
    }
    StepIsDue(PlainLog(before), PlainRun(map[], before).0, ops[k]);
    LogNext(upto);
    LogPrefix(ops, k + 1);
    LogPrefix(ops, k);
    assert PlainLog(ops)[k] == PlainLog(ops)[..k + 1][k];
  }

  // ---------------------------------------------------------------------------------
  // The reverse index, stale entries included

  predicate InBucket(index: SA.Index, c: Credential, a: StakeAddress) {
    c in index && a in index[c]
  }

  /** An accepted choice of a DRep with the credential. */
  predicate Enters(e: Answered, a: StakeAddress, c: Credential) {
    e.op.DelegateDRep? && e.op.address == a && e.outcome.PreviousDRep? && ToCredential(e.op.drep) == Some(c)
  }

  /** The DRep leaves, or the account goes from it to another while still delegated to it. */
  predicate Leaves(e: Answered, a: StakeAddress, c: Credential) {
    || e.op == DeregisterDRep(c)
    || (&& e.op.DelegateDRep? && e.op.address == a && e.outcome.PreviousDRep?
        && CredentialOf(e.outcome.drep) == Some(c) && e.outcome.drep != Some(e.op.drep))
  }

  ghost predicate EntrySince(log: Log, a: StakeAddress, c: Credential, i: int) {
    && 0 <= i < |log| && Enters(log[i], a, c)
    && forall j | i < j < |log| :: !Leaves(log[j], a, c)
  }

  ghost predicate HasEntry(log: Log, a: StakeAddress, c: Credential) {
    exists i :: EntrySince(log, a, c, i)
  }

  lemma EntryNext(log: Log, e: Answered, a: StakeAddress, c: Credential)
    ensures HasEntry(log + [e], a, c) <==> Enters(e, a, c) || (HasEntry(log, a, c) && !Leaves(e, a, c))
  {
    var log' := log + [e];
    if i :| EntrySince(log', a, c, i) {
      if i < |log| {
        assert log'[|log|] == e;
        assert forall j | i < j < |log| :: log'[j] == log[j];
        assert EntrySince(log, a, c, i);
      }
    }
    if i :| EntrySince(log, a, c, i) && !Leaves(e, a, c) {
      assert EntrySince(log', a, c, i);
    }
    if Enters(e, a, c) {
      assert EntrySince(log', a, c, |log|);
    }
  }

  /** Exactly the address leaves the bucket of its choice. */
  lemma RemoveMoves(index: SA.Index, b: StakeAddress, choice: Option<DRepChoice>, c: Credential, a: StakeAddress)
    ensures InBucket(SA.RemoveDelegate(index, b, choice), c, a) <==>
            InBucket(index, c, a) && !(a == b && CredentialOf(choice) == Some(c))
  {
    if CredentialOf(choice) == Some(c) && c in index {
      assert a in index[c] - {b} <==> a in index[c] && a != b;
    }
  }

  /** Exactly the address joins the bucket of its choice. */
  lemma AddMoves(index: SA.Index, b: StakeAddress, choice: Option<DRepChoice>, c: Credential, a: StakeAddress)
    ensures InBucket(SA.AddDelegate(index, b, choice), c, a) <==>
            InBucket(index, c, a) || (a == b && CredentialOf(choice) == Some(c))
  {
  }

  lemma ReindexMoves(index: SA.Index, b: StakeAddress, from: Option<DRepChoice>, to: Option<DRepChoice>, c: Credential, a: StakeAddress)
    requires from != to
    ensures InBucket(SA.Reindex(index, b, from, to), c, a) <==>
            (a == b && CredentialOf(to) == Some(c)) ||
            (InBucket(index, c, a) && !(a == b && CredentialOf(from) == Some(c)))
  {
    RemoveMoves(index, b, from, c, a);
    AddMoves(SA.RemoveDelegate(index, b, from), b, to, c, a);
  }

  lemma StepEnters(s: SA.IndexedMap, op: Op, a: StakeAddress, c: Credential)
    requires !RawWrite(op) && SA.Indexed(s)
    ensures var (s', outcome) := SA.Step(s, op);
            var e := Answered(op, outcome);
            InBucket(s'.index, c, a) <==> Enters(e, a, c) || (InBucket(s.index, c, a) && !Leaves(e, a, c))
  {
    match op
    case DelegateDRep(b, drep) =>
      if b in s.inner && s.inner[b].registered && s.inner[b].delegatedDrep != Some(drep) {
        ReindexMoves(s.index, b, s.inner[b].delegatedDrep, Some(drep), c, a);
        if s.inner[b].delegatedDrep.Some? {
          ToCredentialInjective(s.inner[b].delegatedDrep.value, drep);
        }
      }
    case _ =>
  }

  /**
   Over every run without raw writes, the reverse index holds an account under a credential
   exactly if it once chose it and has neither gone straight from it to another nor seen it
   leave since. An account that left or was cleared in between stays as a stale entry.
   */
  lemma {:induction false} RunIndexes(ops: seq<Op>, a: StakeAddress, c: Credential)
    requires NoRawWrites(ops)
    ensures InBucket(SA.Run(SA.EMPTY, ops).0.index, c, a) <==> HasEntry(LogOfRun(ops), a, c)
    decreases |ops|
  {
    if ops != [] {
      var before, op := ops[..|ops| - 1], ops[|ops| - 1];
      RunIndexes(before, a, c);
      SA.IndexedRunRefinesPlainRun(before);
      SA.IndexedRunRefinesPlainRun(ops);
      var s := SA.Run(SA.EMPTY, before).0;
      StepEnters(s, op, a, c);
      SA.StepRefines(s, op);
      LogNext(ops);
      EntryNext(LogOfRun(before), Answered(op, SA.Step(s, op).1), a, c);
    }
  }
}
