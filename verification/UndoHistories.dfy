/**
 The history of undo records, and what it is for: after any blocks and rollbacks, the
 account map is the one that a history of whole account maps would hold.
 */
module UndoHistories {
  import opened Base
  import opened Accounts
  import opened StakeAddresses
  import opened StakeUndo
  import SH = StateHistories

  datatype UndoEntry = UndoEntry(index: U64, rec: Recorder)

  type Log = seq<UndoEntry>

  function SaturatingSub(x: U64, y: U64): U64 {
    if y <= x then x - y else 0
  }

  function Prune(log: Log, index: U64, retention: U64): Log {
    if log == [] || SaturatingSub(index, log[0].index) <= retention then log else Prune(log[1..], index, retention)
  }

  /** A block that touched no account leaves no entry and prunes nothing. */
  function CommitLog(log: Log, retention: U64, index: U64, rec: Recorder): Log {
    if rec == EMPTY_RECORDER then log else Prune(log, index, retention) + [UndoEntry(index, rec)]
  }

  function RollBackLog(log: Log, m: Accounts, index: U64): (Log, Accounts)
    decreases |log|
  {
    if log == [] || log[|log| - 1].index < index then (log, m)
    else RollBackLog(log[..|log| - 1], UndoBlock(m, log[|log| - 1].rec), index)
  }

  // ---------------------------------------------------------------------------------
  // The reference: a history of whole account maps

  /** A block's effect: the accounts before and after it, and the record it made. */
  datatype Link = Link(before: Accounts, after: Accounts, rec: Recorder)

  type Chain = SH.History<Link>

  function Now(chain: Chain, genesis: Accounts): Accounts {
    if chain == [] then genesis else chain[|chain| - 1].state.after
  }

  function LinkOf(m: Accounts, events: seq<Event>): Link {
    var (m', rec) := ApplyBlock(m, events);
    Link(m, m', rec)
  }

  datatype Step = Block(index: U64, events: seq<Event>) | RollBackTo(index: U64)

  function ChainRun(genesis: Accounts, steps: seq<Step>): Chain {
    if steps == [] then [] else
    var chain := ChainRun(genesis, steps[..|steps| - 1]);
    match steps[|steps| - 1]
    case Block(index, events) => chain + [SH.Entry(index, LinkOf(Now(chain, genesis), events))]
    case RollBackTo(index) => SH.RollBack(chain, index)
  }

  function Highest(steps: seq<Step>): int {
    if steps == [] then -1 else
    var before, step := Highest(steps[..|steps| - 1]), steps[|steps| - 1];
    if step.Block? then Max(before, step.index) else before
  }

  /**
   Blocks extend the chain within the supply, and no rollback goes further below the
   highest block than records are kept for.
   */
  ghost predicate Legal(genesis: Accounts, retention: U64, steps: seq<Step>) {
    steps == [] ||
    var before := steps[..|steps| - 1];
    var chain := ChainRun(genesis, before);
    && Legal(genesis, retention, before)
    && match steps[|steps| - 1]
       case Block(index, events) =>
         && (chain != [] ==> chain[|chain| - 1].index < index)
         && Highest(before) - retention <= index
         && BlockFits(Now(chain, genesis), events)
       case RollBackTo(index) => Highest(before) - retention <= index
  }

  // ---------------------------------------------------------------------------------
  // The node: one account map and the undo log

  datatype System = System(accounts: Accounts, log: Log)

  function RunStep(s: System, retention: U64, step: Step): System {
    match step
    case Block(index, events) =>
      var (m, rec) := ApplyBlock(s.accounts, events);
      System(m, CommitLog(s.log, retention, index, rec))
    case RollBackTo(index) =>
      var (log, m) := RollBackLog(s.log, s.accounts, index);
      System(m, log)
  }

  function Run(genesis: Accounts, retention: U64, steps: seq<Step>): System {
    if steps == [] then System(genesis, []) else
    RunStep(Run(genesis, retention, steps[..|steps| - 1]), retention, steps[|steps| - 1])
  }

  // ---------------------------------------------------------------------------------
  // The log against the chain

  /** Each link starts where the one before ended and is undone by its record. */
  ghost predicate Linked(chain: Chain, genesis: Accounts) {
    chain != [] ==>
      var last := chain[|chain| - 1].state;
      && Linked(chain[..|chain| - 1], genesis)
      && last.before == Now(chain[..|chain| - 1], genesis)
      && UndoBlock(last.after, last.rec) == last.before
      && (last.rec == EMPTY_RECORDER ==> last.after == last.before)
  }

  /** Down to index `lo`, the log holds the record of every link that made one, and nothing else. */
  ghost predicate Matches(chain: Chain, log: Log, lo: int)
    decreases |chain|
  {
    if chain == [] || chain[|chain| - 1].index < lo then log == [] || log[|log| - 1].index < lo
    else
      var last := chain[|chain| - 1];
      if last.state.rec == EMPTY_RECORDER then Matches(chain[..|chain| - 1], log, lo)
      else log != [] && log[|log| - 1] == UndoEntry(last.index, last.state.rec) &&
           Matches(chain[..|chain| - 1], log[..|log| - 1], lo)
  }

  lemma {:induction false} NewestRecord(chain: Chain, log: Log, lo: int)
    requires SH.Sorted(chain) && Matches(chain, log, lo) && log != []
    ensures log[|log| - 1].index < lo || (chain != [] && log[|log| - 1].index <= chain[|chain| - 1].index)
    decreases |chain|
  {
    if chain != [] && chain[|chain| - 1].index >= lo && chain[|chain| - 1].state.rec == EMPTY_RECORDER {
      NewestRecord(chain[..|chain| - 1], log, lo);
    }
  }

  lemma {:induction false} RaiseLimit(chain: Chain, log: Log, lo: int, lo': int)
    requires SH.Sorted(chain) && Matches(chain, log, lo) && lo <= lo'
    ensures Matches(chain, log, lo')
    decreases |chain|
  {
    if chain == [] || chain[|chain| - 1].index < lo' {
      if log != [] {
        NewestRecord(chain, log, lo);
      }
    } else if chain[|chain| - 1].state.rec == EMPTY_RECORDER {
      RaiseLimit(chain[..|chain| - 1], log, lo, lo');
    } else {
      RaiseLimit(chain[..|chain| - 1], log[..|log| - 1], lo, lo');
    }
  }

  lemma {:induction false} PruneLast(log: Log, e: UndoEntry, index: U64, retention: U64)
    requires SaturatingSub(index, e.index) <= retention
    ensures Prune(log + [e], index, retention) == Prune(log, index, retention) + [e]
  {
    if log != [] {
      assert (log + [e])[0] == log[0] && (log + [e])[1..] == log[1..] + [e];
      if SaturatingSub(index, log[0].index) > retention {
        PruneLast(log[1..], e, index, retention);
      }
    }
  }

  lemma {:induction false} PruneKeepsLast(log: Log, index: U64, retention: U64)
    ensures var p := Prune(log, index, retention); p == [] || (log != [] && p[|p| - 1] == log[|log| - 1])
  {
    if log != [] && SaturatingSub(index, log[0].index) > retention {
      PruneKeepsLast(log[1..], index, retention);
    }
  }

  /** Pruning drops only records below the limit. */
  lemma {:induction false} PruneMatches(chain: Chain, log: Log, lo: int, index: U64, retention: U64)
    requires Matches(chain, log, lo) && index - retention <= lo
    ensures Matches(chain, Prune(log, index, retention), lo)
    decreases |chain|
  {
    if chain == [] || chain[|chain| - 1].index < lo {
      PruneKeepsLast(log, index, retention);
    } else if chain[|chain| - 1].state.rec == EMPTY_RECORDER {
      PruneMatches(chain[..|chain| - 1], log, lo, index, retention);
    } else {
      var front, e := log[..|log| - 1], log[|log| - 1];
      PruneMatches(chain[..|chain| - 1], front, lo, index, retention);
      assert log == front + [e];
      PruneLast(front, e, index, retention);
      var p := Prune(log, index, retention);
      assert p[..|p| - 1] == Prune(front, index, retention);
    }
  }

  /** Rolling back the log is rolling back the chain. */
  lemma {:induction false} RollBackMatches(chain: Chain, genesis: Accounts, log: Log, lo: int, index: U64)
    requires SH.Sorted(chain) && Linked(chain, genesis) && Matches(chain, log, lo) && lo <= index
    ensures var chain' := SH.RollBack(chain, index);
            var (log', m') := RollBackLog(log, Now(chain, genesis), index);
            Matches(chain', log', lo) && m' == Now(chain', genesis) && Linked(chain', genesis) && SH.Sorted(chain')
    decreases |chain|
  {
    if log != [] {
      NewestRecord(chain, log, lo);
    }
    if chain != [] && chain[|chain| - 1].index >= index {
      var front, last := chain[..|chain| - 1], chain[|chain| - 1];
      if last.state.rec == EMPTY_RECORDER {
        RollBackMatches(front, genesis, log, lo, index);
      } else {
        RollBackMatches(front, genesis, log[..|log| - 1], lo, index);
      }
    }
  }

  /** The node's accounts and log stand for the chain, whose highest index ever was `top`. */
  ghost predicate Agrees(chain: Chain, genesis: Accounts, s: System, top: int, retention: U64) {
    && SH.InOrder(chain, top)
    && Linked(chain, genesis)
    && Matches(chain, s.log, top - retention)
    && s.accounts == Now(chain, genesis)
  }

  lemma LinkedGrows(chain: Chain, genesis: Accounts, index: U64, events: seq<Event>)
    requires Linked(chain, genesis) && BlockFits(Now(chain, genesis), events)
    ensures Linked(chain + [SH.Entry(index, LinkOf(Now(chain, genesis), events))], genesis)
  {
    var m := Now(chain, genesis);
    var grown := chain + [SH.Entry(index, LinkOf(m, events))];
    assert grown[..|grown| - 1] == chain;
    BlockUndone(m, events);
    if ApplyBlock(m, events).1 == EMPTY_RECORDER {
      EmptyRecordNoChange(m, events);
    }
  }

  lemma MatchesGrows(chain: Chain, log: Log, top: int, retention: U64, index: U64, link: Link)
    requires SH.Sorted(chain) && Matches(chain, log, top - retention) && top - retention <= index
    ensures Matches(chain + [SH.Entry(index, link)], CommitLog(log, retention, index, link.rec), Max(top, index) - retention)
  {
    var lo := Max(top, index) - retention;
    RaiseLimit(chain, log, top - retention, lo);
    PruneMatches(chain, log, lo, index, retention);
    var grown := chain + [SH.Entry(index, link)];
    assert grown[..|grown| - 1] == chain;
    var log' := CommitLog(log, retention, index, link.rec);
    if link.rec != EMPTY_RECORDER {
      assert log'[..|log'| - 1] == Prune(log, index, retention);
    }
  }

  lemma BlockAgrees(chain: Chain, genesis: Accounts, s: System, top: int, retention: U64, index: U64, events: seq<Event>)
    requires Agrees(chain, genesis, s, top, retention)
    requires chain != [] ==> chain[|chain| - 1].index < index
    requires top - retention <= index && BlockFits(Now(chain, genesis), events)
    ensures Agrees(chain + [SH.Entry(index, LinkOf(Now(chain, genesis), events))], genesis,
                   RunStep(s, retention, Block(index, events)), Max(top, index), retention)
  {
    LinkedGrows(chain, genesis, index, events);
    MatchesGrows(chain, s.log, top, retention, index, LinkOf(Now(chain, genesis), events));
  }

  lemma RollBackAgrees(chain: Chain, genesis: Accounts, s: System, top: int, retention: U64, index: U64)
    requires Agrees(chain, genesis, s, top, retention) && top - retention <= index
    ensures Agrees(SH.RollBack(chain, index), genesis, RunStep(s, retention, RollBackTo(index)), top, retention)
  {
    RollBackMatches(chain, genesis, s.log, top - retention, index);
    SH.RollBackIsWindow(chain, index);
    SH.WindowSorted(chain, 0, index, top);
  }

  lemma {:induction false} RunAgrees(genesis: Accounts, retention: U64, steps: seq<Step>)
    requires Legal(genesis, retention, steps)
    ensures Agrees(ChainRun(genesis, steps), genesis, Run(genesis, retention, steps), Highest(steps), retention)
  {
    if steps != [] {
      var before := steps[..|steps| - 1];
      RunAgrees(genesis, retention, before);
      var chain, s := ChainRun(genesis, before), Run(genesis, retention, before);
      match steps[|steps| - 1]
      case Block(index, events) => BlockAgrees(chain, genesis, s, Highest(before), retention, index, events);
      case RollBackTo(index) => RollBackAgrees(chain, genesis, s, Highest(before), retention, index);
    }
  }

  /**
   After any run of blocks and rollbacks within the retained depth, the account map kept up
   by undo records is the newest map of a history that had stored every map whole.
   */
  lemma UndoRefinesSnapshots(genesis: Accounts, retention: U64, steps: seq<Step>)
    requires Legal(genesis, retention, steps)
    ensures Run(genesis, retention, steps).accounts == Now(ChainRun(genesis, steps), genesis)
  {
    RunAgrees(genesis, retention, steps);
  }

  // ---------------------------------------------------------------------------------
  // The log stays short

  /** Strictly increasing indices, the last no more than the retention above the first. */
  ghost predicate Spread(log: Log, retention: U64) {
    && (forall i, j | 0 <= i < j < |log| :: log[i].index < log[j].index)
    && (log != [] ==> log[|log| - 1].index - log[0].index <= retention)
  }

  lemma {:induction false} PruneSpread(log: Log, index: U64, retention: U64)
    requires Spread(log, retention) && (log != [] ==> log[|log| - 1].index < index)
    ensures var p := Prune(log, index, retention);
            && Spread(p, retention)
            && (p != [] ==> p[|p| - 1].index < index && index - p[0].index <= retention)
  {
    if log != [] && SaturatingSub(index, log[0].index) > retention {
      PruneSpread(log[1..], index, retention);
    }
  }

  lemma CommitSpread(log: Log, retention: U64, index: U64, rec: Recorder)
    requires Spread(log, retention) && (log != [] ==> log[|log| - 1].index < index)
    ensures Spread(CommitLog(log, retention, index, rec), retention)
  {
    PruneSpread(log, index, retention);
  }

  lemma {:induction false} RollBackSpread(log: Log, m: Accounts, index: U64, retention: U64)
    requires Spread(log, retention)
    ensures Spread(RollBackLog(log, m, index).0, retention)
    decreases |log|
  {
    if log != [] && log[|log| - 1].index >= index {
      FrontSpread(log, retention);
      RollBackSpread(log[..|log| - 1], UndoBlock(m, log[|log| - 1].rec), index, retention);
    }
  }

  lemma FrontSpread(log: Log, retention: U64)
    requires log != [] && Spread(log, retention)
    ensures Spread(log[..|log| - 1], retention)
  {
    if |log| > 1 {
      assert log[|log| - 2].index < log[|log| - 1].index;
    }
  }

  lemma {:induction false} SpreadSize(log: Log, retention: U64)
    requires Spread(log, retention)
    ensures log != [] ==> |log| - 1 <= log[|log| - 1].index - log[0].index
  {
    if |log| > 1 {
      FrontSpread(log, retention);
      SpreadSize(log[..|log| - 1], retention);
      assert log[|log| - 2].index < log[|log| - 1].index;
    }
  }

  lemma {:induction false} RunSpread(genesis: Accounts, retention: U64, steps: seq<Step>)
    requires Legal(genesis, retention, steps)
    ensures Spread(Run(genesis, retention, steps).log, retention)
  {
    if steps != [] {
      var before := steps[..|steps| - 1];
      RunSpread(genesis, retention, before);
      var s, chain := Run(genesis, retention, before), ChainRun(genesis, before);
      match steps[|steps| - 1]
      case RollBackTo(index) => RollBackSpread(s.log, s.accounts, index, retention);
      case Block(index, events) =>
        RunAgrees(genesis, retention, before);
        if s.log != [] {
          NewestRecord(chain, s.log, Highest(before) - retention);
        }
        CommitSpread(s.log, retention, index, ApplyBlock(s.accounts, events).1);
    }
  }

  /** Over every legal run at most one record more than the retention is kept, in strictly increasing order. */
  lemma LogStaysShort(genesis: Accounts, retention: U64, steps: seq<Step>)
    requires Legal(genesis, retention, steps)
    ensures |Run(genesis, retention, steps).log| <= retention + 1
    ensures Spread(Run(genesis, retention, steps).log, retention)
  {
    RunSpread(genesis, retention, steps);
    SpreadSize(Run(genesis, retention, steps).log, retention);
  }

  lemma {:induction false} LegalPrefix(genesis: Accounts, retention: U64, steps: seq<Step>, more: seq<Step>)
    requires Legal(genesis, retention, steps + more)
    ensures Legal(genesis, retention, steps)
  {
    if more == [] {
      assert steps + more == steps;
    } else {
      var all := steps + more;
      assert all[..|all| - 1] == steps + more[..|more| - 1];
      LegalPrefix(genesis, retention, steps, more[..|more| - 1]);
    }
  }

  lemma {:induction false} BlocksRolledBack(genesis: Accounts, steps: seq<Step>, blocks: seq<Step>, index: U64)
    requires forall i | 0 <= i < |blocks| :: blocks[i].Block? && blocks[i].index >= index
    ensures SH.RollBack(ChainRun(genesis, steps + blocks), index) == SH.RollBack(ChainRun(genesis, steps), index)
  {
    if blocks == [] {
      assert steps + blocks == steps;
    } else {
      var all := steps + blocks;
      assert all[..|all| - 1] == steps + blocks[..|blocks| - 1];
      BlocksRolledBack(genesis, steps, blocks[..|blocks| - 1], index);
      var chain := ChainRun(genesis, all);
      assert chain[..|chain| - 1] == ChainRun(genesis, all[..|all| - 1]);
    }
  }

  lemma ChainRolledBack(genesis: Accounts, steps: seq<Step>, index: U64)
    ensures ChainRun(genesis, steps + [RollBackTo(index)]) == SH.RollBack(ChainRun(genesis, steps), index)
  {
    assert (steps + [RollBackTo(index)])[..|steps|] == steps;
  }

  lemma RolledBackChain(genesis: Accounts, steps: seq<Step>, blocks: seq<Step>, index: U64)
    requires forall i | 0 <= i < |blocks| :: blocks[i].Block? && blocks[i].index >= index
    requires var chain := ChainRun(genesis, steps); chain != [] ==> chain[|chain| - 1].index < index
    ensures ChainRun(genesis, steps + (blocks + [RollBackTo(index)])) == ChainRun(genesis, steps)
  {
    assert steps + (blocks + [RollBackTo(index)]) == (steps + blocks) + [RollBackTo(index)];
    ChainRolledBack(genesis, steps + blocks, index);
    BlocksRolledBack(genesis, steps, blocks, index);
    assert SH.RollBack(ChainRun(genesis, steps), index) == ChainRun(genesis, steps);
  }

  /** In particular, blocks that are then rolled back leave no trace on the accounts. */
  lemma RollBackRestores(genesis: Accounts, retention: U64, steps: seq<Step>, blocks: seq<Step>, index: U64)
    requires Legal(genesis, retention, steps + (blocks + [RollBackTo(index)]))
    requires forall i | 0 <= i < |blocks| :: blocks[i].Block? && blocks[i].index >= index
    requires var chain := ChainRun(genesis, steps); chain != [] ==> chain[|chain| - 1].index < index
    ensures Run(genesis, retention, steps + (blocks + [RollBackTo(index)])).accounts ==
            Run(genesis, retention, steps).accounts
  {
    var all := steps + (blocks + [RollBackTo(index)]);
    RolledBackChain(genesis, steps, blocks, index);
    UndoRefinesSnapshots(genesis, retention, all);
    LegalPrefix(genesis, retention, steps, blocks + [RollBackTo(index)]);
    UndoRefinesSnapshots(genesis, retention, steps);
  }

  // ---------------------------------------------------------------------------------
  // The mutable log, working on the indexed account map

  lemma LookupUndone(m: Accounts, rec: Recorder, a: StakeAddress)
    ensures Lookup(UndoBlock(m, rec), a) == UndoAccount(Lookup(m, a), rec, a)
  {
  }

  lemma SameLookups(m: Accounts, m': Accounts)
    requires forall a :: Lookup(m, a) == Lookup(m', a)
    ensures m == m'
  {
    forall a | a in m ensures a in m' && m'[a] == m[a] {
      assert Lookup(m, a) == Lookup(m', a);
    }
    forall a | a in m' ensures a in m {
      assert Lookup(m, a) == Lookup(m', a);
    }
  }

  method UndoOneChange(accounts: StakeAddressMap, a: StakeAddress, d: UndoDelta)
    requires accounts.Valid()
    modifies accounts
    ensures accounts.Valid()
    ensures forall b :: Lookup(accounts.inner, b) ==
                        if b == a then UndoChange(old(Lookup(accounts.inner, a)), d) else old(Lookup(accounts.inner, b))
  {
    if !d.existedBefore {
      var _ := accounts.Remove(a);
      return;
    }
    var restored := OrDefault(Lookup(accounts.inner, a));
    restored := restored.(utxoValue := Adjusted(restored.utxoValue, d.inverseUtxo));
    restored := restored.(rewards := Adjusted(restored.rewards, d.inverseRewards));
    restored := restored.(registered := d.registered, delegatedSpo := d.delegatedSpo, delegatedDrep := d.delegatedDrep);
    var _ := accounts.Insert(a, restored);
  }

  method UndoOneReward(accounts: StakeAddressMap, a: StakeAddress, inverse: I64)
    requires accounts.Valid()
    modifies accounts
    ensures accounts.Valid()
    ensures forall b :: Lookup(accounts.inner, b) ==
                        if b == a then UndoReward(old(Lookup(accounts.inner, a)), inverse) else old(Lookup(accounts.inner, b))
  {
    if a in accounts.inner {
      var s := accounts.inner[a];
      var _ := accounts.WriteThrough(a, s.(rewards := Adjusted(s.rewards, inverse)));
    }
  }

  method UndoChanges(accounts: StakeAddressMap, rec: Recorder)
    requires accounts.Valid()
    modifies accounts
    ensures accounts.Valid()
    ensures forall a :: Lookup(accounts.inner, a) ==
                        if a in rec.changes then UndoChange(old(Lookup(accounts.inner, a)), rec.changes[a])
                        else old(Lookup(accounts.inner, a))
  {
    ghost var m := accounts.inner;
    var todo := rec.changes.Keys;
    while todo != {}
      invariant accounts.Valid() && todo <= rec.changes.Keys
      invariant forall a :: Lookup(accounts.inner, a) ==
                            if a in rec.changes && a !in todo then UndoChange(Lookup(m, a), rec.changes[a]) else Lookup(m, a)
      decreases todo
    {
      var a :| a in todo;
      UndoOneChange(accounts, a, rec.changes[a]);
      todo := todo - {a};
    }
  }

  method UndoRewards(accounts: StakeAddressMap, rec: Recorder)
    requires accounts.Valid()
    modifies accounts
    ensures accounts.Valid()
    ensures forall a :: Lookup(accounts.inner, a) ==
                        if a in rec.rewardDeltas then UndoReward(old(Lookup(accounts.inner, a)), rec.rewardDeltas[a])
                        else old(Lookup(accounts.inner, a))
  {
    ghost var m := accounts.inner;
    var todo := rec.rewardDeltas.Keys;
    while todo != {}
      invariant accounts.Valid() && todo <= rec.rewardDeltas.Keys
      invariant forall a :: Lookup(accounts.inner, a) ==
                            if a in rec.rewardDeltas && a !in todo then UndoReward(Lookup(m, a), rec.rewardDeltas[a])
                            else Lookup(m, a)
      decreases todo
    {
      var a :| a in todo;
      UndoOneReward(accounts, a, rec.rewardDeltas[a]);
      todo := todo - {a};
    }
  }

  /** Undoes one block's record, account by account in any order, keeping the reverse index sound. */
  method UndoOneBlock(accounts: StakeAddressMap, rec: Recorder)
    requires accounts.Valid()
    modifies accounts
    ensures accounts.Valid()
    ensures accounts.inner == UndoBlock(old(accounts.inner), rec)
  {
    ghost var m := accounts.inner;
    UndoChanges(accounts, rec);
    UndoRewards(accounts, rec);
    forall a ensures Lookup(accounts.inner, a) == Lookup(UndoBlock(m, rec), a) {
      LookupUndone(m, rec, a);
    }
    SameLookups(accounts.inner, UndoBlock(m, rec));
  }

  class StakeAddressUndoHistory {
    var history: Log
    const retention: U64

    constructor (retention: U64)
      ensures history == [] && this.retention == retention
    {
      history := [];
      this.retention := retention;
    }

    method Commit(index: U64, rec: Recorder)
      modifies this
      ensures history == CommitLog(old(history), retention, index, rec)
    {
      if rec == EMPTY_RECORDER {
        return;
      }
      while history != [] && SaturatingSub(index, history[0].index) > retention
        invariant Prune(history, index, retention) == Prune(old(history), index, retention)
        decreases |history|
      {
        history := history[1..];
      }
      history := history + [UndoEntry(index, rec)];
    }

    method RollbackTo(index: U64, accounts: StakeAddressMap)
      requires accounts.Valid()
      modifies this, accounts
      ensures accounts.Valid()
      ensures (history, accounts.inner) == RollBackLog(old(history), old(accounts.inner), index)
    {
      while history != [] && history[|history| - 1].index >= index
        invariant accounts.Valid()
        invariant RollBackLog(history, accounts.inner, index) == RollBackLog(old(history), old(accounts.inner), index)
        decreases |history|
      {
        var entry := history[|history| - 1];
        history := history[..|history| - 1];
        UndoOneBlock(accounts, entry.rec);
      }
    }
  }
}
