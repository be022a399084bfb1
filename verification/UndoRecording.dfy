/**
 How the operations of the account map are recorded. The node wraps each operation: it
 notes the accounts the operation may touch, runs it, and records how each of them changed.
 What it notes covers everything the operation changes, so a block of operations can be
 undone from its record.
 */
module UndoRecording {
  import opened Base
  import opened Accounts
  import opened StakeUndo

  /** The accounts noted before an operation: its own address, or a scan for the delegators it is about. */
  function Touched(m: Accounts, op: Op): set<StakeAddress> {
    match op
    case RetirePool(pool) => set a | a in m && m[a].delegatedSpo == Some(pool)
    case DeregisterDRep(c) => set a | a in m && CredentialOf(m[a].delegatedDrep) == Some(c)
    case RemoveDelegators(addresses) => addresses
    case _ => {op.address}
  }

  /** No operation but removal deletes an account, and none changes an account that was not noted. */
  lemma OnlyTouchedChange(m: Accounts, op: Op, a: StakeAddress)
    requires !op.Remove?
    ensures a in m ==> a in PlainStep(m, op).0
    ensures a !in Touched(m, op) ==> Lookup(PlainStep(m, op).0, a) == Lookup(m, a)
  {
  }

  function RecordAll(rec: Recorder, tracked: seq<StakeAddress>, m: Accounts, m': Accounts): Recorder {
    if tracked == [] then rec else
    var a := tracked[|tracked| - 1];
    RecordChange(RecordAll(rec, tracked[..|tracked| - 1], m, m'), a, Lookup(m, a), Lookup(m', a))
  }

  /** A wrapped operation with the order its accounts were noted in, or a reward at the boundary. */
  datatype Action = Wrapped(op: Op, tracked: seq<StakeAddress>) | BoundaryReward(address: StakeAddress, amount: U64)

  ghost predicate Distinct(s: seq<StakeAddress>) {
    forall i, j | 0 <= i < j < |s| :: s[i] != s[j]
  }

  ghost predicate WellTracked(m: Accounts, action: Action) {
    action.Wrapped? ==>
      && !action.op.Remove?
      && Distinct(action.tracked)
      && (forall a | a in Touched(m, action.op) :: a in action.tracked)
  }

  function Act(m: Accounts, rec: Recorder, action: Action): (Accounts, Recorder) {
    match action
    case Wrapped(op, tracked) =>
      var m' := PlainStep(m, op).0;
      (m', RecordAll(rec, tracked, m, m'))
    case BoundaryReward(a, amount) => ApplyEvent(m, rec, Reward(a, amount))
  }

  function ActAll(m: Accounts, actions: seq<Action>): (Accounts, Recorder) {
    if actions == [] then (m, EMPTY_RECORDER) else
    var (m', rec) := ActAll(m, actions[..|actions| - 1]);
    Act(m', rec, actions[|actions| - 1])
  }

  ghost predicate AllWellTracked(m: Accounts, actions: seq<Action>) {
    actions == [] ||
    (AllWellTracked(m, actions[..|actions| - 1]) &&
     WellTracked(ActAll(m, actions[..|actions| - 1]).0, actions[|actions| - 1]))
  }

  // ---------------------------------------------------------------------------------
  // Actions as single-account events

  function WriteEvents(m': Accounts, tracked: seq<StakeAddress>): seq<Event> {
    if tracked == [] then [] else
    var a := tracked[|tracked| - 1];
    WriteEvents(m', tracked[..|tracked| - 1]) + (if a in m' then [Mutate(a, m'[a])] else [])
  }

  function ActionEvents(m: Accounts, action: Action): seq<Event> {
    match action
    case Wrapped(op, tracked) => WriteEvents(PlainStep(m, op).0, tracked)
    case BoundaryReward(a, amount) => [Reward(a, amount)]
  }

  function EventsOf(m: Accounts, actions: seq<Action>): seq<Event> {
    if actions == [] then [] else
    var before := actions[..|actions| - 1];
    EventsOf(m, before) + ActionEvents(ActAll(m, before).0, actions[|actions| - 1])
  }

  /** `m` with the accounts named so far taken from `m'`. */
  function Partly(m: Accounts, m': Accounts, named: seq<StakeAddress>): Accounts {
    map a | a in m.Keys + m'.Keys && (a in m || a in named) :: if a in named && a in m' then m'[a] else GetOrDefault(m, a)
  }

  lemma AppendEvent(m0: Accounts, es: seq<Event>, e: Event)
    ensures ApplyBlock(m0, es + [e]) == ApplyEvent(ApplyBlock(m0, es).0, ApplyBlock(m0, es).1, e)
  {
    assert (es + [e])[..|es|] == es;
  }

  lemma UnknownStaysUnrecorded(rec: Recorder, a: StakeAddress)
    ensures RecordChange(rec, a, None, None) == rec
  {
    if a in rec.changes {
      var d := rec.changes[a];
      assert Accumulate(d, None, None) == d;
      assert rec.changes[a := d] == rec.changes;
    }
  }

  lemma PartlyGrows(m: Accounts, m': Accounts, named: seq<StakeAddress>, a: StakeAddress)
    requires a !in named && forall b | b in m :: b in m'
    ensures Lookup(Partly(m, m', named), a) == Lookup(m, a)
    ensures Partly(m, m', named + [a]) == if a in m' then Partly(m, m', named)[a := m'[a]] else Partly(m, m', named)
  {
    assert forall b :: b in named + [a] <==> b in named || b == a;
  }

  /** Recording one more account is one more event, or none if the account is unknown before and after. */
  lemma WriteOne(m: Accounts, rec: Recorder, m': Accounts, named: seq<StakeAddress>, a: StakeAddress)
    requires a !in named && forall b | b in m :: b in m'
    ensures var partly := Partly(m, m', named);
            var rec' := RecordChange(rec, a, Lookup(m, a), Lookup(m', a));
            (Partly(m, m', named + [a]), rec') ==
            if a in m' then ApplyEvent(partly, rec, Mutate(a, m'[a])) else (partly, rec)
  {
    PartlyGrows(m, m', named, a);
    if a !in m' {
      UnknownStaysUnrecorded(rec, a);
    }
  }

  lemma WriteEventsAppend(es: seq<Event>, m': Accounts, named: seq<StakeAddress>, a: StakeAddress)
    ensures es + WriteEvents(m', named + [a]) ==
            es + WriteEvents(m', named) + (if a in m' then [Mutate(a, m'[a])] else [])
  {
    assert (named + [a])[..|named|] == named;
  }

  lemma RecordAllAppend(rec: Recorder, named: seq<StakeAddress>, a: StakeAddress, m: Accounts, m': Accounts)
    ensures RecordAll(rec, named + [a], m, m') == RecordChange(RecordAll(rec, named, m, m'), a, Lookup(m, a), Lookup(m', a))
  {
    assert (named + [a])[..|named|] == named;
  }

  lemma NothingNamed(m: Accounts, m': Accounts)
    ensures Partly(m, m', []) == m
  {
  }

  lemma {:induction false} WritesAreEvents(m0: Accounts, es: seq<Event>, m': Accounts, tracked: seq<StakeAddress>)
    requires Distinct(tracked)
    requires var m := ApplyBlock(m0, es).0; forall a | a in m :: a in m'
    ensures var (m, rec) := ApplyBlock(m0, es);
            ApplyBlock(m0, es + WriteEvents(m', tracked)) == (Partly(m, m', tracked), RecordAll(rec, tracked, m, m'))
    decreases |tracked|
  {
    var (m, rec) := ApplyBlock(m0, es);
    if tracked == [] {
      assert es + WriteEvents(m', tracked) == es;
      NothingNamed(m, m');
    } else {
      var front, a := tracked[..|tracked| - 1], tracked[|tracked| - 1];
      var written := es + WriteEvents(m', front);
      WritesAreEvents(m0, es, m', front);
      assert tracked == front + [a];
      WriteOne(m, RecordAll(rec, front, m, m'), m', front, a);
      WriteEventsAppend(es, m', front, a);
      RecordAllAppend(rec, front, a, m, m');
      if a in m' {
        AppendEvent(m0, written, Mutate(a, m'[a]));
      } else {
        assert written + [] == written;
      }
    }
  }

  lemma AllNamed(m: Accounts, m': Accounts, named: seq<StakeAddress>)
    requires forall a | a in m :: a in m'
    requires forall a | a !in named :: Lookup(m', a) == Lookup(m, a)
    ensures Partly(m, m', named) == m'
  {
    forall a | a in m' ensures a in Partly(m, m', named) && Partly(m, m', named)[a] == m'[a] {
      if a !in named {
        assert Lookup(m', a) == Lookup(m, a);
      }
    }
    forall a | a in Partly(m, m', named) ensures a in m' {
      if a !in named {
        assert Lookup(m', a) == Lookup(m, a);
      }
    }
  }

  lemma ActionIsEvents(m0: Accounts, es: seq<Event>, action: Action)
    requires WellTracked(ApplyBlock(m0, es).0, action)
    ensures var (m, rec) := ApplyBlock(m0, es);
            ApplyBlock(m0, es + ActionEvents(m, action)) == Act(m, rec, action)
  {
    var m := ApplyBlock(m0, es).0;
    match action
    case Wrapped(op, tracked) =>
      var m' := PlainStep(m, op).0;
      forall a ensures (a in m ==> a in m') && (a !in tracked ==> Lookup(m', a) == Lookup(m, a)) {
        OnlyTouchedChange(m, op, a);
      }
      WritesAreEvents(m0, es, m', tracked);
      AllNamed(m, m', tracked);
    case BoundaryReward(a, amount) => AppendEvent(m0, es, Reward(a, amount));
  }

  lemma {:induction false} ActionsAreEvents(m0: Accounts, actions: seq<Action>)
    requires AllWellTracked(m0, actions)
    ensures ActAll(m0, actions) == ApplyBlock(m0, EventsOf(m0, actions))
  {
    if actions != [] {
      var before := actions[..|actions| - 1];
      ActionsAreEvents(m0, before);
      ActionIsEvents(m0, EventsOf(m0, before), actions[|actions| - 1]);
    }
  }

  /**
   A block of operations and boundary rewards, each recorded as the node records it, is
   undone exactly by its record.
   */
  lemma OperationsUndone(m0: Accounts, actions: seq<Action>)
    requires AllWellTracked(m0, actions) && BlockFits(m0, EventsOf(m0, actions))
    ensures var (m, rec) := ActAll(m0, actions); UndoBlock(m, rec) == m0
  {
    ActionsAreEvents(m0, actions);
    BlockUndone(m0, EventsOf(m0, actions));
  }
}
