/**
 Whole runs of the node: blocks of recorded operations and boundary rewards on the indexed
 account map, and rollbacks that undo the records account by account in any order.
 */
module UndoRuns {
  import opened Base
  import opened Accounts
  import opened StakeUndo
  import opened UndoRecording
  import SA = StakeAddresses
  import SH = StateHistories
  import UH = UndoHistories

  // ---------------------------------------------------------------------------------
  // A block on the indexed map

  function ActIndexed(s: SA.IndexedMap, rec: Recorder, action: Action): (SA.IndexedMap, Recorder) {
    match action
    case Wrapped(op, tracked) =>
      var s' := SA.Step(s, op).0;
      (s', RecordAll(rec, tracked, s.inner, s'.inner))
    case BoundaryReward(a, amount) =>
      if Accepts(s.inner, Reward(a, amount))
      then (SA.Step(s, GetMut(a, s.inner[a].(rewards := Adjusted(s.inner[a].rewards, AsI64(amount))))).0,
            RecordRewardDelta(rec, a, NegI64(AsI64(amount))))
      else (s, rec)
  }

  lemma ActRefines(s: SA.IndexedMap, rec: Recorder, action: Action)
    requires SA.Indexed(s)
    ensures var (s', rec') := ActIndexed(s, rec, action);
            SA.Indexed(s') && (s'.inner, rec') == Act(s.inner, rec, action)
  {
    match action
    case Wrapped(op, _) => SA.StepRefines(s, op);
    case BoundaryReward(a, amount) =>
      if Accepts(s.inner, Reward(a, amount)) {
        SA.StepRefines(s, GetMut(a, s.inner[a].(rewards := Adjusted(s.inner[a].rewards, AsI64(amount)))));
      }
  }

  function ActAllIndexed(s: SA.IndexedMap, actions: seq<Action>): (SA.IndexedMap, Recorder) {
    if actions == [] then (s, EMPTY_RECORDER) else
    var (s', rec) := ActAllIndexed(s, actions[..|actions| - 1]);
    ActIndexed(s', rec, actions[|actions| - 1])
  }

  lemma {:induction false} ActAllRefines(s: SA.IndexedMap, actions: seq<Action>)
    requires SA.Indexed(s)
    ensures var (s', rec) := ActAllIndexed(s, actions);
            SA.Indexed(s') && (s'.inner, rec) == ActAll(s.inner, actions)
  {
    if actions != [] {
      ActAllRefines(s, actions[..|actions| - 1]);
      var (s', rec) := ActAllIndexed(s, actions[..|actions| - 1]);
      ActRefines(s', rec, actions[|actions| - 1]);
    }
  }

  // ---------------------------------------------------------------------------------
  // Undoing a record on the indexed map

  /** An account that did not exist is removed; any other is put back through an insertion. */
  function UndoOne(s: SA.IndexedMap, a: StakeAddress, d: UndoDelta): SA.IndexedMap {
    var restored := UndoChange(Lookup(s.inner, a), d);
    SA.Step(s, if restored.None? then Remove(a) else Insert(a, restored.value)).0
  }

  lemma UndoOneLookup(s: SA.IndexedMap, a: StakeAddress, d: UndoDelta, b: StakeAddress)
    requires SA.Indexed(s)
    ensures SA.Indexed(UndoOne(s, a, d))
    ensures Lookup(UndoOne(s, a, d).inner, b) == if b == a then UndoChange(Lookup(s.inner, a), d) else Lookup(s.inner, b)
  {
    var restored := UndoChange(Lookup(s.inner, a), d);
    SA.StepRefines(s, if restored.None? then Remove(a) else Insert(a, restored.value));
  }

  /** A reward is taken back by writing through a reference, which leaves the index alone. */
  function TakeBack(s: SA.IndexedMap, a: StakeAddress, inverse: I64): SA.IndexedMap {
    var restored := UndoReward(Lookup(s.inner, a), inverse);
    if restored.None? then s else SA.Step(s, GetMut(a, restored.value)).0
  }

  lemma TakeBackLookup(s: SA.IndexedMap, a: StakeAddress, inverse: I64, b: StakeAddress)
    requires SA.Indexed(s)
    ensures SA.Indexed(TakeBack(s, a, inverse))
    ensures Lookup(TakeBack(s, a, inverse).inner, b) ==
            if b == a then UndoReward(Lookup(s.inner, a), inverse) else Lookup(s.inner, b)
  {
    var restored := UndoReward(Lookup(s.inner, a), inverse);
    if restored.Some? {
      SA.StepRefines(s, GetMut(a, restored.value));
    }
  }

  function UndoChanges(s: SA.IndexedMap, changes: map<StakeAddress, UndoDelta>, order: seq<StakeAddress>): SA.IndexedMap {
    if order == [] then s else
    var s', a := UndoChanges(s, changes, order[..|order| - 1]), order[|order| - 1];
    if a in changes then UndoOne(s', a, changes[a]) else s'
  }

  function TakeBackAll(s: SA.IndexedMap, deltas: map<StakeAddress, I64>, order: seq<StakeAddress>): SA.IndexedMap {
    if order == [] then s else
    var s', a := TakeBackAll(s, deltas, order[..|order| - 1]), order[|order| - 1];
    if a in deltas then TakeBack(s', a, deltas[a]) else s'
  }

  lemma DistinctFront(order: seq<StakeAddress>)
    requires order != [] && Distinct(order)
    ensures Distinct(order[..|order| - 1]) && order[|order| - 1] !in order[..|order| - 1]
    ensures forall b :: b in order <==> b in order[..|order| - 1] || b == order[|order| - 1]
  {
    assert order == order[..|order| - 1] + [order[|order| - 1]];
  }

  lemma {:induction false} UndoChangesIndexed(s: SA.IndexedMap, changes: map<StakeAddress, UndoDelta>,
                                              order: seq<StakeAddress>)
    requires SA.Indexed(s)
    ensures SA.Indexed(UndoChanges(s, changes, order))
  {
    if order != [] {
      var front, a := order[..|order| - 1], order[|order| - 1];
      UndoChangesIndexed(s, changes, front);
      if a in changes {
        UndoOneLookup(UndoChanges(s, changes, front), a, changes[a], a);
      }
    }
  }

  lemma {:induction false} TakeBackAllIndexed(s: SA.IndexedMap, deltas: map<StakeAddress, I64>, order: seq<StakeAddress>)
    requires SA.Indexed(s)
    ensures SA.Indexed(TakeBackAll(s, deltas, order))
  {
    if order != [] {
      var front, a := order[..|order| - 1], order[|order| - 1];
      TakeBackAllIndexed(s, deltas, front);
      if a in deltas {
        TakeBackLookup(TakeBackAll(s, deltas, front), a, deltas[a], a);
      }
    }
  }

  lemma {:induction false} UndoChangesLookup(s: SA.IndexedMap, changes: map<StakeAddress, UndoDelta>,
                                             order: seq<StakeAddress>, b: StakeAddress)
    requires SA.Indexed(s) && Distinct(order)
    ensures Lookup(UndoChanges(s, changes, order).inner, b) ==
            if b in order && b in changes then UndoChange(Lookup(s.inner, b), changes[b]) else Lookup(s.inner, b)
  {
    if order != [] {
      var front, a := order[..|order| - 1], order[|order| - 1];
      DistinctFront(order);
      UndoChangesIndexed(s, changes, front);
      UndoChangesLookup(s, changes, front, b);
      if a in changes {
        UndoOneLookup(UndoChanges(s, changes, front), a, changes[a], b);
      }
    }
  }

  lemma {:induction false} TakeBackAllLookup(s: SA.IndexedMap, deltas: map<StakeAddress, I64>,
                                             order: seq<StakeAddress>, b: StakeAddress)
    requires SA.Indexed(s) && Distinct(order)
    ensures Lookup(TakeBackAll(s, deltas, order).inner, b) ==
            if b in order && b in deltas then UndoReward(Lookup(s.inner, b), deltas[b]) else Lookup(s.inner, b)
  {
    if order != [] {
      var front, a := order[..|order| - 1], order[|order| - 1];
      DistinctFront(order);
      TakeBackAllIndexed(s, deltas, front);
      TakeBackAllLookup(s, deltas, front, b);
      if a in deltas {
        TakeBackLookup(TakeBackAll(s, deltas, front), a, deltas[a], b);
      }
    }
  }

  /** The order in which a record's changes and its rewards are visited. */
  datatype Order = Order(changes: seq<StakeAddress>, rewards: seq<StakeAddress>)

  ghost predicate Visits(o: Order, rec: Recorder) {
    && Distinct(o.changes) && Distinct(o.rewards)
    && (forall a | a in rec.changes :: a in o.changes)
    && (forall a | a in rec.rewardDeltas :: a in o.rewards)
  }

  /** Changes are undone before rewards. */
  function UndoRecord(s: SA.IndexedMap, rec: Recorder, o: Order): SA.IndexedMap {
    TakeBackAll(UndoChanges(s, rec.changes, o.changes), rec.rewardDeltas, o.rewards)
  }

  lemma UndoRecordLookup(s: SA.IndexedMap, rec: Recorder, o: Order, b: StakeAddress)
    requires SA.Indexed(s) && Visits(o, rec)
    ensures Lookup(UndoRecord(s, rec, o).inner, b) == UndoAccount(Lookup(s.inner, b), rec, b)
  {
    var changed := UndoChanges(s, rec.changes, o.changes);
    UndoChangesIndexed(s, rec.changes, o.changes);
    UndoChangesLookup(s, rec.changes, o.changes, b);
    TakeBackAllLookup(changed, rec.rewardDeltas, o.rewards, b);
  }

  lemma UndoRecordRefines(s: SA.IndexedMap, rec: Recorder, o: Order)
    requires SA.Indexed(s) && Visits(o, rec)
    ensures SA.Indexed(UndoRecord(s, rec, o))
    ensures UndoRecord(s, rec, o).inner == UndoBlock(s.inner, rec)
  {
    UndoChangesIndexed(s, rec.changes, o.changes);
    TakeBackAllIndexed(UndoChanges(s, rec.changes, o.changes), rec.rewardDeltas, o.rewards);
    forall b ensures Lookup(UndoRecord(s, rec, o).inner, b) == Lookup(UndoBlock(s.inner, rec), b) {
      UndoRecordLookup(s, rec, o, b);
      UH.LookupUndone(s.inner, rec, b);
    }
    UH.SameLookups(UndoRecord(s, rec, o).inner, UndoBlock(s.inner, rec));
  }

  /** For each entry of the log, by its position, the order its record is visited in. */
  type Orders = (nat, Recorder) -> Order

  ghost predicate AllVisited(orders: Orders) {
    forall n, rec :: Visits(orders(n, rec), rec)
  }

  function RollBackIndexed(log: UH.Log, s: SA.IndexedMap, index: U64, orders: Orders): (UH.Log, SA.IndexedMap)
    decreases |log|
  {
    if log == [] || log[|log| - 1].index < index then (log, s)
    else
      var rec := log[|log| - 1].rec;
      RollBackIndexed(log[..|log| - 1], UndoRecord(s, rec, orders(|log|, rec)), index, orders)
  }

  lemma {:induction false} RollBackRefines(log: UH.Log, s: SA.IndexedMap, index: U64, orders: Orders)
    requires SA.Indexed(s) && AllVisited(orders)
    ensures var (log', s') := RollBackIndexed(log, s, index, orders);
            SA.Indexed(s') && (log', s'.inner) == UH.RollBackLog(log, s.inner, index)
    decreases |log|
  {
    if log != [] && log[|log| - 1].index >= index {
      var rec := log[|log| - 1].rec;
      UndoRecordRefines(s, rec, orders(|log|, rec));
      RollBackRefines(log[..|log| - 1], UndoRecord(s, rec, orders(|log|, rec)), index, orders);
    }
  }

  // ---------------------------------------------------------------------------------
  // The node

  datatype Step = Block(index: U64, actions: seq<Action>) | RollBackTo(index: U64, orders: Orders)

  datatype Node = Node(accounts: SA.IndexedMap, log: UH.Log)

  function NodeStep(node: Node, retention: U64, step: Step): Node {
    match step
    case Block(index, actions) =>
      var (s, rec) := ActAllIndexed(node.accounts, actions);
      Node(s, UH.CommitLog(node.log, retention, index, rec))
    case RollBackTo(index, orders) =>
      var (log, s) := RollBackIndexed(node.log, node.accounts, index, orders);
      Node(s, log)
  }

  function NodeRun(genesis: SA.IndexedMap, retention: U64, steps: seq<Step>): Node {
    if steps == [] then Node(genesis, []) else
    NodeStep(NodeRun(genesis, retention, steps[..|steps| - 1]), retention, steps[|steps| - 1])
  }

  // ---------------------------------------------------------------------------------
  // The reference: a history of whole account maps

  type Maps = SH.History<Accounts>

  function Newest(maps: Maps, genesis: Accounts): Accounts {
    if maps == [] then genesis else maps[|maps| - 1].state
  }

  function MapRun(genesis: Accounts, steps: seq<Step>): Maps {
    if steps == [] then [] else
    var maps := MapRun(genesis, steps[..|steps| - 1]);
    match steps[|steps| - 1]
    case Block(index, actions) => maps + [SH.Entry(index, ActAll(Newest(maps, genesis), actions).0)]
    case RollBackTo(index, _) => SH.RollBack(maps, index)
  }

  function Highest(steps: seq<Step>): int {
    if steps == [] then -1 else
    var before, step := Highest(steps[..|steps| - 1]), steps[|steps| - 1];
    if step.Block? then Max(before, step.index) else before
  }

  /**
   Blocks extend the chain, note every account their operations touch and stay within the
   supply; no block or rollback goes further below the highest block than records are kept
   for; and a rollback visits every account of a record once.
   */
  ghost predicate Legal(genesis: Accounts, retention: U64, steps: seq<Step>) {
    steps == [] ||
    var before := steps[..|steps| - 1];
    var maps := MapRun(genesis, before);
    && Legal(genesis, retention, before)
    && Highest(before) - retention <= steps[|steps| - 1].index
    && match steps[|steps| - 1]
       case Block(index, actions) =>
         && (maps != [] ==> maps[|maps| - 1].index < index)
         && AllWellTracked(Newest(maps, genesis), actions)
         && BlockFits(Newest(maps, genesis), EventsOf(Newest(maps, genesis), actions))
       case RollBackTo(_, orders) => AllVisited(orders)
  }

  // ---------------------------------------------------------------------------------
  // The node against the reference

  function EventStep(m: Accounts, step: Step): UH.Step {
    match step
    case Block(index, actions) => UH.Block(index, EventsOf(m, actions))
    case RollBackTo(index, _) => UH.RollBackTo(index)
  }

  /** The same run with every block's actions spelled out as single-account events. */
  function EventSteps(genesis: Accounts, steps: seq<Step>): seq<UH.Step> {
    if steps == [] then [] else
    var before := steps[..|steps| - 1];
    EventSteps(genesis, before) + [EventStep(Newest(MapRun(genesis, before), genesis), steps[|steps| - 1])]
  }

  function MapsOf(chain: UH.Chain): Maps {
    if chain == [] then [] else
    MapsOf(chain[..|chain| - 1]) + [SH.Entry(chain[|chain| - 1].index, chain[|chain| - 1].state.after)]
  }

  lemma MapsOfEnds(chain: UH.Chain, genesis: Accounts)
    ensures MapsOf(chain) == [] <==> chain == []
    ensures Newest(MapsOf(chain), genesis) == UH.Now(chain, genesis)
    ensures chain != [] ==> MapsOf(chain)[|MapsOf(chain)| - 1].index == chain[|chain| - 1].index
    ensures chain != [] ==> MapsOf(chain)[..|MapsOf(chain)| - 1] == MapsOf(chain[..|chain| - 1])
  {
  }

  lemma {:induction false} MapsOfRollBack(chain: UH.Chain, index: U64)
    ensures MapsOf(SH.RollBack(chain, index)) == SH.RollBack(MapsOf(chain), index)
  {
    MapsOfEnds(chain, map[]);
    if chain != [] && chain[|chain| - 1].index >= index {
      MapsOfRollBack(chain[..|chain| - 1], index);
    }
  }

  lemma MapsOfBlock(chain: UH.Chain, index: U64, m: Accounts, actions: seq<Action>)
    requires AllWellTracked(m, actions)
    ensures MapsOf(chain + [SH.Entry(index, UH.LinkOf(m, EventsOf(m, actions)))]) ==
            MapsOf(chain) + [SH.Entry(index, ActAll(m, actions).0)]
  {
    var grown := chain + [SH.Entry(index, UH.LinkOf(m, EventsOf(m, actions)))];
    assert grown[..|grown| - 1] == chain;
    ActionsAreEvents(m, actions);
  }

  /** The event form of a legal run is legal, and its chain holds the same maps. */
  lemma {:induction false} ChainHoldsMaps(genesis: Accounts, retention: U64, steps: seq<Step>)
    requires Legal(genesis, retention, steps)
    ensures UH.Legal(genesis, retention, EventSteps(genesis, steps))
    ensures UH.Highest(EventSteps(genesis, steps)) == Highest(steps)
    ensures MapsOf(UH.ChainRun(genesis, EventSteps(genesis, steps))) == MapRun(genesis, steps)
  {
    if steps != [] {
      var before, step := steps[..|steps| - 1], steps[|steps| - 1];
      ChainHoldsMaps(genesis, retention, before);
      var events, chain := EventSteps(genesis, steps), UH.ChainRun(genesis, EventSteps(genesis, before));
      assert events[..|events| - 1] == EventSteps(genesis, before);
      MapsOfEnds(chain, genesis);
      match step
      case Block(index, actions) => MapsOfBlock(chain, index, UH.Now(chain, genesis), actions);
      case RollBackTo(index, _) => MapsOfRollBack(chain, index);
    }
  }

  lemma StepRefines(node: Node, retention: U64, step: Step)
    requires SA.Indexed(node.accounts)
    requires step.Block? ==> AllWellTracked(node.accounts.inner, step.actions)
    requires step.RollBackTo? ==> AllVisited(step.orders)
    ensures var node' := NodeStep(node, retention, step);
            && SA.Indexed(node'.accounts)
            && UH.System(node'.accounts.inner, node'.log) ==
               UH.RunStep(UH.System(node.accounts.inner, node.log), retention, EventStep(node.accounts.inner, step))
  {
    match step
    case Block(index, actions) =>
      ActAllRefines(node.accounts, actions);
      ActionsAreEvents(node.accounts.inner, actions);
    case RollBackTo(index, orders) => RollBackRefines(node.log, node.accounts, index, orders);
  }

  lemma {:induction false} NodeRunsEvents(genesis: SA.IndexedMap, retention: U64, steps: seq<Step>)
    requires SA.Indexed(genesis) && Legal(genesis.inner, retention, steps)
    ensures var node := NodeRun(genesis, retention, steps);
            && SA.Indexed(node.accounts)
            && UH.System(node.accounts.inner, node.log) == UH.Run(genesis.inner, retention, EventSteps(genesis.inner, steps))
            && node.accounts.inner == Newest(MapRun(genesis.inner, steps), genesis.inner)
  {
    var events := EventSteps(genesis.inner, steps);
    if steps != [] {
      var before := steps[..|steps| - 1];
      NodeRunsEvents(genesis, retention, before);
      StepRefines(NodeRun(genesis, retention, before), retention, steps[|steps| - 1]);
      assert events[..|events| - 1] == EventSteps(genesis.inner, before);
    }
    ChainHoldsMaps(genesis.inner, retention, steps);
    MapsOfEnds(UH.ChainRun(genesis.inner, events), genesis.inner);
    UH.UndoRefinesSnapshots(genesis.inner, retention, events);
  }

  /**
   After any run of recorded blocks and rollbacks within the retained depth, the accounts of
   the indexed map are the newest map of a history that had stored every map whole, and the
   reverse index is sound.
   */
  lemma NodeRefinesSnapshots(genesis: SA.IndexedMap, retention: U64, steps: seq<Step>)
    requires SA.Indexed(genesis) && Legal(genesis.inner, retention, steps)
    ensures NodeRun(genesis, retention, steps).accounts.inner == Newest(MapRun(genesis.inner, steps), genesis.inner)
    ensures SA.Indexed(NodeRun(genesis, retention, steps).accounts)
  {
    NodeRunsEvents(genesis, retention, steps);
  }
}
