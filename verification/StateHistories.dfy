/**
 The rollback buffer: one state per block, popped at the back by a rollback and, in the
 bounded variant, at the front by a commit.
 */
module StateHistories {
  import opened Base

  datatype Entry<+S> = Entry(index: U64, state: S)

  datatype Store = Bounded(k: U64) | Unbounded

  type History<+S> = seq<Entry<S>>

  function RollBack<S>(h: History<S>, index: U64): History<S> {
    if h == [] || h[|h| - 1].index < index then h else RollBack(h[..|h| - 1], index)
  }

  /** Unsigned subtraction that wraps when it underflows. */
  function WrappingSub(x: U64, y: U64): U64 {
    if y <= x then x - y else x - y + TWO_64
  }

  function Prune<S>(h: History<S>, index: U64, k: U64): History<S> {
    if h == [] || WrappingSub(index, h[0].index) <= k then h else Prune(h[1..], index, k)
  }

  function Committed<S>(h: History<S>, store: Store, index: U64, state: S): History<S> {
    (match store case Bounded(k) => Prune(h, index, k) case Unbounded => h) + [Entry(index, state)]
  }

  function Current<S>(h: History<S>): Option<S> {
    if h == [] then None else Some(h[|h| - 1].state)
  }

  // ---------------------------------------------------------------------------------
  // Sorted histories and their windows

  ghost predicate Sorted<S>(h: History<S>) {
    forall i, j | 0 <= i < j < |h| :: h[i].index < h[j].index
  }

  /** Strictly increasing indices, none above `top`. */
  ghost predicate InOrder<S>(h: History<S>, top: int) {
    Sorted(h) && forall i | 0 <= i < |h| :: h[i].index <= top
  }

  /** The entries with an index in [lo, hi). */
  function Window<S>(h: History<S>, lo: int, hi: int): History<S> {
    if h == [] then [] else
    Window(h[..|h| - 1], lo, hi) + (if lo <= h[|h| - 1].index < hi then [h[|h| - 1]] else [])
  }

  lemma WindowAppend<S>(h: History<S>, e: Entry<S>, lo: int, hi: int)
    ensures Window(h + [e], lo, hi) == Window(h, lo, hi) + (if lo <= e.index < hi then [e] else [])
  {
    assert (h + [e])[..|h|] == h;
  }

  lemma {:induction false} WindowOfWindow<S>(h: History<S>, lo: int, hi: int, lo': int, hi': int)
    ensures Window(Window(h, lo, hi), lo', hi') == Window(h, Max(lo, lo'), Min(hi, hi'))
  {
    if h != [] {
      var front, last := h[..|h| - 1], h[|h| - 1];
      WindowOfWindow(front, lo, hi, lo', hi');
      WindowAppend(Window(front, lo, hi), last, lo', hi');
      if !(lo <= last.index < hi) {
        assert Window(h, lo, hi) == Window(front, lo, hi);
      }
    }
  }

  lemma OrderAppend<S>(h: History<S>, e: Entry<S>, top: int)
    requires InOrder(h, e.index - 1) && e.index <= top
    ensures InOrder(h + [e], top)
  {
  }

  lemma OrderFront<S>(h: History<S>, top: int)
    requires h != [] && InOrder(h, top)
    ensures InOrder(h[..|h| - 1], h[|h| - 1].index - 1)
  {
  }

  lemma {:induction false} WindowSorted<S>(h: History<S>, lo: int, hi: int, top: int)
    requires InOrder(h, top)
    ensures InOrder(Window(h, lo, hi), Min(top, hi - 1))
    ensures forall i | 0 <= i < |Window(h, lo, hi)| :: lo <= Window(h, lo, hi)[i].index
  {
    if h != [] {
      var front, last := h[..|h| - 1], h[|h| - 1];
      OrderFront(h, top);
      WindowSorted(front, lo, hi, last.index - 1);
      if lo <= last.index < hi {
        OrderAppend(Window(front, lo, hi), last, Min(top, hi - 1));
      }
    }
  }

  lemma {:induction false} WholeWindow<S>(h: History<S>, lo: int, hi: int)
    requires forall i | 0 <= i < |h| :: lo <= h[i].index < hi
    ensures Window(h, lo, hi) == h
  {
    if h != [] {
      WholeWindow(h[..|h| - 1], lo, hi);
    }
  }

  lemma {:induction false} WindowFront<S>(h: History<S>, lo: int, hi: int)
    requires h != []
    ensures Window(h, lo, hi) == (if lo <= h[0].index < hi then [h[0]] else []) + Window(h[1..], lo, hi)
    decreases |h|
  {
    if |h| > 1 {
      var front := h[..|h| - 1];
      WindowFront(front, lo, hi);
      assert front[1..] == h[1..][..|h| - 2];
    }
  }

  /** Popping at the back keeps exactly what lies below the index. */
  lemma {:induction false} RollBackIsWindow<S>(h: History<S>, index: U64)
    requires Sorted(h)
    ensures RollBack(h, index) == Window(h, 0, index)
  {
    if h != [] {
      if h[|h| - 1].index < index {
        WholeWindow(h, 0, index);
      } else {
        RollBackIsWindow(h[..|h| - 1], index);
      }
    }
  }

  /** Entry `i` has the highest index below a bound. */
  ghost predicate NewestBelow<S>(h: History<S>, i: int, bound: int) {
    && 0 <= i < |h| && h[i].index < bound
    && forall j | 0 <= j < |h| && h[j].index < bound :: h[j].index <= h[i].index
  }

  lemma {:induction false} RollBackToNewest<S>(h: History<S>, index: U64, i: int)
    requires Sorted(h) && NewestBelow(h, i, index)
    ensures RollBack(h, index) == h[..i + 1]
  {
    var last := |h| - 1;
    if h[last].index < index {
      assert i == last;
    } else {
      RollBackToNewest(h[..last], index, i);
    }
  }

  lemma {:induction false} RollBackToNothing<S>(h: History<S>, index: U64)
    requires forall i | 0 <= i < |h| :: h[i].index >= index
    ensures RollBack(h, index) == []
  {
    if h != [] {
      RollBackToNothing(h[..|h| - 1], index);
    }
  }

  /** A rollback ends at the newest block below the index. */
  lemma RollBackMeaning<S>(h: History<S>, index: U64)
    ensures Sorted(h) ==> forall i | NewestBelow(h, i, index) :: Current(RollBack(h, index)) == Some(h[i].state)
    ensures (forall i | 0 <= i < |h| :: h[i].index >= index) ==> RollBack(h, index) == []
  {
    if Sorted(h) {
      forall i | NewestBelow(h, i, index) ensures Current(RollBack(h, index)) == Some(h[i].state) {
        RollBackToNewest(h, index, i);
      }
    }
    if forall i | 0 <= i < |h| :: h[i].index >= index {
      RollBackToNothing(h, index);
    }
  }

  lemma AllWithin<S>(h: History<S>, index: U64, k: U64)
    requires h != [] && InOrder(h, index - 1) && index - h[0].index <= k
    ensures Window(h, index - k, index) == h
  {
    assert forall i | 0 <= i < |h| :: h[0].index <= h[i].index;
    WholeWindow(h, index - k, index);
  }

  lemma FirstOutside<S>(h: History<S>, index: U64, k: U64)
    requires h != [] && index - h[0].index > k
    ensures Window(h, index - k, index) == Window(h[1..], index - k, index)
  {
    WindowFront(h, index - k, index);
    assert [] + Window(h[1..], index - k, index) == Window(h[1..], index - k, index);
  }

  /** Popping at the front keeps exactly what lies within `k` of an index above all entries. */
  lemma {:induction false} PruneIsWindow<S>(h: History<S>, index: U64, k: U64)
    requires InOrder(h, index - 1)
    ensures Prune(h, index, k) == Window(h, index - k, index)
  {
    if h != [] {
      if index - h[0].index <= k {
        AllWithin(h, index, k);
      } else {
        PruneIsWindow(h[1..], index, k);
        FirstOutside(h, index, k);
      }
    }
  }

  lemma {:induction false} SortedFits<S>(h: History<S>, lo: int, hi: int)
    requires Sorted(h) && forall i | 0 <= i < |h| :: lo <= h[i].index <= hi
    ensures h != [] ==> |h| <= hi - lo + 1
  {
    if |h| > 1 {
      assert h[|h| - 2].index < h[|h| - 1].index;
      SortedFits(h[..|h| - 1], lo, hi - 1);
    }
  }

  // ---------------------------------------------------------------------------------
  // Runs

  /** A rollback message, or a block: the state before it is fetched, changed and committed. */
  datatype Step<+S> = RollBackTo(index: U64) | Block(index: U64, state: S)

  function RunStep<S>(h: History<S>, store: Store, step: Step<S>): History<S> {
    match step
    case RollBackTo(index) => RollBack(h, index)
    case Block(index, state) => Committed(RollBack(h, index), store, index, state)
  }

  function Run<S>(store: Store, steps: seq<Step<S>>): History<S> {
    if steps == [] then [] else RunStep(Run(store, steps[..|steps| - 1]), store, steps[|steps| - 1])
  }

  /** The highest index ever committed, rolled back or not; below zero before the first. */
  function Highest<S>(steps: seq<Step<S>>): int {
    if steps == [] then -1 else
    var before, step := Highest(steps[..|steps| - 1]), steps[|steps| - 1];
    if step.Block? then Max(before, step.index) else before
  }

  /** No step goes more than `k` below the highest index committed before it. */
  predicate WithinK<S>(steps: seq<Step<S>>, k: U64) {
    steps == [] ||
    (WithinK(steps[..|steps| - 1], k) && Highest(steps[..|steps| - 1]) - k <= steps[|steps| - 1].index)
  }

  lemma BlockKeepsOrder<S>(h: History<S>, highest: int, step: Step<S>)
    requires InOrder(h, highest)
    ensures InOrder(RunStep(h, Unbounded, step), if step.Block? then Max(highest, step.index) else highest)
  {
    RollBackIsWindow(h, step.index);
    WindowSorted(h, 0, step.index, highest);
  }

  lemma {:induction false} RunInOrder<S>(steps: seq<Step<S>>)
    ensures InOrder(Run(Unbounded, steps), Highest(steps))
  {
    if steps != [] {
      RunInOrder(steps[..|steps| - 1]);
      BlockKeepsOrder(Run(Unbounded, steps[..|steps| - 1]), Highest(steps[..|steps| - 1]), steps[|steps| - 1]);
    }
  }

  // ---------------------------------------------------------------------------------
  // What a run keeps

  /** The block at step `i` made the entry, and every later step has a higher index. */
  ghost predicate Survives<S>(steps: seq<Step<S>>, i: int, e: Entry<S>) {
    && 0 <= i < |steps| && steps[i] == Block(e.index, e.state)
    && forall j | i < j < |steps| :: steps[j].index > e.index
  }

  ghost predicate Survived<S>(steps: seq<Step<S>>, e: Entry<S>) {
    exists i :: Survives(steps, i, e)
  }

  lemma {:induction false} InWindow<S>(h: History<S>, lo: int, hi: int, e: Entry<S>)
    ensures e in Window(h, lo, hi) <==> e in h && lo <= e.index < hi
  {
    if h != [] {
      InWindow(h[..|h| - 1], lo, hi, e);
      assert h == h[..|h| - 1] + [h[|h| - 1]];
    }
  }

  lemma StepKeeps<S>(h: History<S>, step: Step<S>, e: Entry<S>)
    requires Sorted(h)
    ensures e in RunStep(h, Unbounded, step) <==> (e in h && e.index < step.index) || step == Block(e.index, e.state)
  {
    RollBackIsWindow(h, step.index);
    InWindow(h, 0, step.index, e);
  }

  lemma SurvivesStep<S>(steps: seq<Step<S>>, e: Entry<S>)
    requires steps != []
    ensures Survived(steps, e) <==>
            (Survived(steps[..|steps| - 1], e) && e.index < steps[|steps| - 1].index) ||
            steps[|steps| - 1] == Block(e.index, e.state)
  {
    var before, last := steps[..|steps| - 1], |steps| - 1;
    if i :| Survives(steps, i, e) {
      if i < last {
        assert Survives(before, i, e);
      }
    }
    if i :| Survives(before, i, e) && e.index < steps[last].index {
      assert Survives(steps, i, e);
    }
    if steps[last] == Block(e.index, e.state) {
      assert Survives(steps, last, e);
    }
  }

  /** Over every run, the history holds exactly the blocks that no later step reached back to. */
  lemma {:induction false} KeepsSurvivors<S>(steps: seq<Step<S>>, e: Entry<S>)
    ensures e in Run(Unbounded, steps) <==> Survived(steps, e)
  {
    if steps != [] {
      var before := steps[..|steps| - 1];
      KeepsSurvivors(before, e);
      RunInOrder(before);
      StepKeeps(Run(Unbounded, before), steps[|steps| - 1], e);
      SurvivesStep(steps, e);
    }
  }

  /** Rolling back a window of a history gives a window of the rolled-back history. */
  lemma RollBackKeepsWindow<S>(u: History<S>, lo: int, index: U64)
    requires Sorted(u)
    ensures RollBack(Window(u, lo, TWO_64), index) == Window(u, Max(lo, 0), index)
    ensures Window(RollBack(u, index), lo, TWO_64) == Window(u, Max(lo, 0), index)
  {
    assert InOrder(u, TWO_64);
    WindowSorted(u, lo, TWO_64, TWO_64);
    RollBackIsWindow(Window(u, lo, TWO_64), index);
    RollBackIsWindow(u, index);
    WindowOfWindow(u, lo, TWO_64, 0, index);
    WindowOfWindow(u, 0, index, lo, TWO_64);
  }

  lemma PruneOfWindow<S>(u: History<S>, kept: History<S>, lo: int, limit: int, k: U64, index: U64)
    requires Sorted(u) && kept == Window(u, lo, index) && limit == Max(lo, index - k)
    ensures Prune(kept, index, k) == Window(u, limit, index)
  {
    assert InOrder(u, TWO_64);
    WindowSorted(u, lo, index, TWO_64);
    PruneIsWindow(kept, index, k);
    WindowOfWindow(u, lo, index, index - k, index);
  }

  lemma WindowOfCommitted<S>(u: History<S>, lo: int, index: U64, state: S)
    requires Sorted(u) && lo <= index
    ensures Window(RollBack(u, index) + [Entry(index, state)], lo, TWO_64) ==
            Window(u, Max(lo, 0), index) + [Entry(index, state)]
  {
    WindowAppend(RollBack(u, index), Entry(index, state), lo, TWO_64);
    RollBackIsWindow(u, index);
    WindowOfWindow(u, 0, index, lo, TWO_64);
  }

  lemma SameLimit(highest: int, index: int, k: int)
    ensures Max(Max(highest - k, 0), index - k) == Max(Max(highest, index) - k, 0)
  {
  }

  lemma PruneRolledBack<S>(u: History<S>, b: History<S>, highest: int, k: U64, index: U64)
    requires Sorted(u) && b == Window(u, highest - k, TWO_64)
    ensures Prune(RollBack(b, index), index, k) == Window(u, Max(Max(highest, index) - k, 0), index)
  {
    SameLimit(highest, index, k);
    RollBackKeepsWindow(u, highest - k, index);
    PruneOfWindow(u, RollBack(b, index), Max(highest - k, 0), Max(Max(highest, index) - k, 0), k, index);
  }

  lemma CommitKeepsWindow<S>(u: History<S>, b: History<S>, highest: int, k: U64, index: U64, state: S)
    requires Sorted(u) && highest - k <= index && b == Window(u, highest - k, TWO_64)
    ensures Committed(RollBack(b, index), Bounded(k), index, state) ==
            Window(Committed(RollBack(u, index), Unbounded, index, state), Max(highest, index) - k, TWO_64)
  {
    PruneRolledBack(u, b, highest, k, index);
    WindowOfCommitted(u, Max(highest, index) - k, index, state);
  }

  /** One step on both variants, from a window of the same history to a window of the same history. */
  lemma StepKeepsWindow<S>(u: History<S>, b: History<S>, highest: int, k: U64, step: Step<S>)
    requires Sorted(u) && highest - k <= step.index && b == Window(u, highest - k, TWO_64)
    ensures var highest' := if step.Block? then Max(highest, step.index) else highest;
            RunStep(b, Bounded(k), step) == Window(RunStep(u, Unbounded, step), highest' - k, TWO_64)
  {
    match step
    case RollBackTo(index) => RollBackKeepsWindow(u, highest - k, index);
    case Block(index, state) => CommitKeepsWindow(u, b, highest, k, index, state);
  }

  /**
   Over every run that never goes more than `k` below the highest committed index, the
   bounded history is the unbounded one cut to the last `k` indices.
   */
  lemma {:induction false} BoundedIsWindow<S>(steps: seq<Step<S>>, k: U64)
    requires WithinK(steps, k)
    ensures Run(Bounded(k), steps) == Window(Run(Unbounded, steps), Highest(steps) - k, TWO_64)
  {
    if steps != [] {
      var before := steps[..|steps| - 1];
      BoundedIsWindow(before, k);
      RunInOrder(before);
      StepKeepsWindow(Run(Unbounded, before), Run(Bounded(k), before), Highest(before), k, steps[|steps| - 1]);
    }
  }

  /** The bounded history holds exactly the surviving blocks within `k` of the highest index. */
  lemma BoundedKeepsSurvivors<S>(steps: seq<Step<S>>, k: U64, e: Entry<S>)
    requires WithinK(steps, k)
    ensures e in Run(Bounded(k), steps) <==> Survived(steps, e) && Highest(steps) - k <= e.index
  {
    BoundedIsWindow(steps, k);
    KeepsSurvivors(steps, e);
    InWindow(Run(Unbounded, steps), Highest(steps) - k, TWO_64, e);
  }

  /** At most `k + 1` entries are kept, in strictly increasing order. */
  lemma BoundedSize<S>(steps: seq<Step<S>>, k: U64)
    requires WithinK(steps, k)
    ensures |Run(Bounded(k), steps)| <= k + 1
    ensures Sorted(Run(Bounded(k), steps))
  {
    BoundedIsWindow(steps, k);
    RunInOrder(steps);
    var u, b := Run(Unbounded, steps), Run(Bounded(k), steps);
    WindowSorted(u, Highest(steps) - k, TWO_64, Highest(steps));
    SortedFits(b, Highest(steps) - k, Highest(steps));
  }

  /** When a block is committed after its rollback, no subtraction of indices underflows. */
  lemma CommitNeverUnderflows<S>(steps: seq<Step<S>>, k: U64, index: U64)
    requires WithinK(steps, k)
    ensures var h := RollBack(Run(Bounded(k), steps), index);
            forall i | 0 <= i < |h| :: WrappingSub(index, h[i].index) == index - h[i].index
  {
    BoundedSize(steps, k);
    var h := Run(Bounded(k), steps);
    RollBackIsWindow(h, index);
    assert InOrder(h, TWO_64);
    WindowSorted(h, 0, index, TWO_64);
  }

  /** A rollback of `kept` answers like one of `all` if and only if the answer is the initial state or has an index from `lo` on. */
  ghost predicate AnswersFrom<S>(all: History<S>, kept: History<S>, lo: int, index: U64) {
    var u := RollBack(all, index);
    Current(RollBack(kept, index)) == Current(u) <==> (u == [] || lo <= u[|u| - 1].index)
  }

  lemma WindowAnswer<S>(all: History<S>, kept: History<S>, lo: int, index: U64)
    requires Sorted(all) && kept == Window(all, lo, TWO_64)
    ensures AnswersFrom(all, kept, lo, index)
  {
    RollBackKeepsWindow(all, lo, index);
    RollBackIsWindow(all, index);
    assert InOrder(all, TWO_64);
    WindowSorted(all, 0, index, TWO_64);
    LastInWindow(RollBack(all, index), lo);
  }

  /**
   Rolling back gives the answer of the unbounded history if and only if the state asked
   for is the very first or its index is still in the window.
   */
  lemma RollBackAnswer<S>(steps: seq<Step<S>>, k: U64, index: U64)
    requires WithinK(steps, k)
    ensures AnswersFrom(Run(Unbounded, steps), Run(Bounded(k), steps), Highest(steps) - k, index)
  {
    BoundedIsWindow(steps, k);
    RunInOrder(steps);
    WindowAnswer(Run(Unbounded, steps), Run(Bounded(k), steps), Highest(steps) - k, index);
  }

  lemma LastInWindow<S>(u: History<S>, lo: int)
    requires Sorted(u)
    ensures u != [] && lo <= u[|u| - 1].index ==> Current(Window(u, lo, TWO_64)) == Current(u)
    ensures u != [] && u[|u| - 1].index < lo ==> Window(u, lo, TWO_64) == []
  {
    if u != [] && u[|u| - 1].index < lo {
      WindowSorted(u, lo, TWO_64, u[|u| - 1].index);
    }
  }

  lemma {:induction false} NoneAtOrBefore<S>(h: History<S>, index: U64)
    requires forall j | 0 <= j < |h| :: h[j].index > index
    ensures Window(h, 0, index + 1) == []
  {
    if h != [] {
      NoneAtOrBefore(h[..|h| - 1], index);
    }
  }

  lemma {:induction false} LastAtOrBefore<S>(h: History<S>, i: nat, index: U64)
    requires i < |h| && h[i].index <= index
    requires forall j | i < j < |h| :: h[j].index > index
    ensures Current(Window(h, 0, index + 1)) == Some(h[i].state)
  {
    if i < |h| - 1 {
      LastAtOrBefore(h[..|h| - 1], i, index);
    }
  }

  // ---------------------------------------------------------------------------------
  // The mutable buffer

  class StateHistory<S> {
    var history: History<S>
    const store: Store
    const initial: S

    constructor (store: Store, initial: S)
      ensures history == [] && this.store == store && this.initial == initial
    {
      history := [];
      this.store := store;
      this.initial := initial;
    }

    function GetCurrentState(): (s: S)
      reads this
      ensures history == [] ==> s == initial
      ensures Sorted(history) ==> forall i | NewestBelow(history, i, TWO_64) :: s == history[i].state
    {
      if history == [] then initial else history[|history| - 1].state
    }

    /** The state of the newest block below the index, or the initial one when there is none. */
    method GetRolledBackState(index: U64) returns (s: S)
      modifies this`history
      ensures history == RollBack(old(history), index)
      ensures s == GetCurrentState()
      ensures Sorted(old(history)) ==> forall i | NewestBelow(old(history), i, index) :: s == old(history)[i].state
      ensures (forall i | 0 <= i < |old(history)| :: old(history)[i].index >= index) ==> s == initial
    {
      while history != [] && history[|history| - 1].index >= index
        invariant RollBack(history, index) == RollBack(old(history), index)
        decreases |history|
      {
        history := history[..|history| - 1];
      }
      s := GetCurrentState();
      RollBackMeaning(old(history), index);
    }

    method Commit(index: U64, state: S)
      modifies this`history
      ensures history == Committed(old(history), store, index, state)
      ensures history != [] && history[|history| - 1] == Entry(index, state)
      ensures GetCurrentState() == state
    {
      match store
      case Bounded(k) =>
        while history != [] && WrappingSub(index, history[0].index) > k
          invariant Prune(history, index, k) == Prune(old(history), index, k)
          decreases |history|
        {
          history := history[1..];
        }
        history := history + [Entry(index, state)];
      case Unbounded =>
        history := history + [Entry(index, state)];
    }

    /** The newest entry at or before the index: what a rollback to the next index would return. */
    method GetAtOrBefore(index: U64) returns (s: Option<S>)
      ensures s == Current(Window(history, 0, index + 1))
      ensures Sorted(history) && index < U64_MAX ==> s == Current(RollBack(history, index + 1))
    {
      if Sorted(history) && index < U64_MAX {
        RollBackIsWindow(history, index + 1);
      }
      var i := |history|;
      while i > 0
        invariant 0 <= i <= |history|
        invariant forall j | i <= j < |history| :: history[j].index > index
      {
        i := i - 1;
        if history[i].index <= index {
          LastAtOrBefore(history, i, index);
          return Some(history[i].state);
        }
      }
      NoneAtOrBefore(history, index);
      s := None;
    }

    ghost predicate FoundAt(index: U64, s: Option<S>, i: int)
      reads this
    {
      0 <= i < |history| && history[i].index == index && s == Some(history[i].state)
    }

    /** The first entry with the index. In a sorted history it is the only one. */
    method GetByIndex(index: U64) returns (s: Option<S>)
      ensures s.None? <==> forall i | 0 <= i < |history| :: history[i].index != index
      ensures s.Some? ==> exists i :: FoundAt(index, s, i) && forall j | 0 <= j < i :: history[j].index != index
      ensures Sorted(history) ==> forall i | 0 <= i < |history| && history[i].index == index :: FoundAt(index, s, i)
    {
      for i := 0 to |history|
        invariant forall j | 0 <= j < i :: history[j].index != index
      {
        if history[i].index == index {
          s := Some(history[i].state);
          assert FoundAt(index, s, i);
          return;
        }
      }
      s := None;
    }

    /** The last entry with the index. */
    method GetByIndexReverse(index: U64) returns (s: Option<S>)
      ensures s.None? <==> forall i | 0 <= i < |history| :: history[i].index != index
      ensures s.Some? ==> exists i :: FoundAt(index, s, i) && forall j | i < j < |history| :: history[j].index != index
      ensures Sorted(history) ==> forall i | 0 <= i < |history| && history[i].index == index :: FoundAt(index, s, i)
    {
      for i := |history| downto 0
        invariant forall j | i <= j < |history| :: history[j].index != index
      {
        if history[i].index == index {
          s := Some(history[i].state);
          assert FoundAt(index, s, i);
          return;
        }
      }
      s := None;
    }
  }
}
