/**
 The undo log of the account map. A block records, per account it touches, what it takes to
 undo it: whether the account existed, the fields it had, and the balance changes as
 inverse deltas. Rewards paid at the epoch boundary are recorded apart, as one inverse
 delta per account. Rolling back replays the records from the newest block down.
 */
module StakeUndo {
  import opened Base
  import opened Accounts

  datatype UndoDelta = UndoDelta(
    existedBefore: bool,
    inverseUtxo: I64,
    inverseRewards: I64,
    registered: bool,
    delegatedSpo: Option<PoolId>,
    delegatedDrep: Option<DRepChoice>)

  datatype Recorder = Recorder(changes: map<StakeAddress, UndoDelta>, rewardDeltas: map<StakeAddress, I64>)

  const EMPTY_RECORDER := Recorder(map[], map[])

  /** The sum of two signed words, wrapped into the word. */
  function WrapI64(x: int): I64
    requires I64_MIN + I64_MIN <= x <= I64_MAX + I64_MAX
  {
    if x > I64_MAX then x - TWO_64 else if x < I64_MIN then x + TWO_64 else x
  }

  function OrDefault(s: Option<AccountState>): AccountState {
    if s.Some? then s.value else DEFAULT_STATE
  }

  /** What to add to `current` to get `previous`, clamped to the signed word. */
  function ValueDelta(previous: U64, current: U64): I64 {
    Max(I64_MIN, Min(I64_MAX, previous - current))
  }

  function FromPrevious(previous: Option<AccountState>): UndoDelta {
    var s := OrDefault(previous);
    UndoDelta(previous.Some?, 0, 0, s.registered, s.delegatedSpo, s.delegatedDrep)
  }

  function Accumulate(d: UndoDelta, previous: Option<AccountState>, current: Option<AccountState>): UndoDelta {
    var p, c := OrDefault(previous), OrDefault(current);
    d.(inverseUtxo := WrapI64(d.inverseUtxo + ValueDelta(p.utxoValue, c.utxoValue)),
       inverseRewards := WrapI64(d.inverseRewards + ValueDelta(p.rewards, c.rewards)))
  }

  function RecordChange(rec: Recorder, a: StakeAddress, previous: Option<AccountState>, current: Option<AccountState>): Recorder {
    if previous == current && a !in rec.changes then rec else
    var change := if a in rec.changes then rec.changes[a] else FromPrevious(previous);
    rec.(changes := rec.changes[a := Accumulate(change, previous, current)])
  }

  function RecordRewardDelta(rec: Recorder, a: StakeAddress, inverse: I64): Recorder {
    if inverse == 0 then rec else
    var before: I64 := if a in rec.rewardDeltas then rec.rewardDeltas[a] else 0;
    rec.(rewardDeltas := rec.rewardDeltas[a := WrapI64(before + inverse)])
  }

  // ---------------------------------------------------------------------------------
  // Undoing

  function Adjusted(value: U64, delta: I64): U64 {
    var updated := UpdateValueWithDelta(value, delta);
    if updated.Some? then updated.value else value
  }

  function UndoChange(account: Option<AccountState>, d: UndoDelta): Option<AccountState> {
    if !d.existedBefore then None else
    var s := OrDefault(account);
    Some(AccountState(d.registered, Adjusted(s.utxoValue, d.inverseUtxo), Adjusted(s.rewards, d.inverseRewards),
                      d.delegatedSpo, d.delegatedDrep))
  }

  function UndoReward(account: Option<AccountState>, inverse: I64): Option<AccountState> {
    if account.None? then None
    else Some(account.value.(rewards := Adjusted(account.value.rewards, inverse)))
  }

  /** Changes are undone before rewards. */
  function UndoAccount(account: Option<AccountState>, rec: Recorder, a: StakeAddress): Option<AccountState> {
    var changed := if a in rec.changes then UndoChange(account, rec.changes[a]) else account;
    if a in rec.rewardDeltas then UndoReward(changed, rec.rewardDeltas[a]) else changed
  }

  function UndoBlock(m: Accounts, rec: Recorder): Accounts {
    map a | a in m.Keys + rec.changes.Keys && UndoAccount(Lookup(m, a), rec, a).Some? ::
      UndoAccount(Lookup(m, a), rec, a).value
  }

  // ---------------------------------------------------------------------------------
  // What a block does

  /** An account is changed in any way through the recording wrapper, or paid a reward if it is registered. */
  datatype Event = Mutate(address: StakeAddress, state: AccountState) | Reward(address: StakeAddress, amount: U64)

  function Accepts(m: Accounts, e: Event): bool {
    e.Reward? && e.address in m && m[e.address].registered &&
    UpdateValueWithDelta(m[e.address].rewards, AsI64(e.amount)).Some?
  }

  function ApplyEvent(m: Accounts, rec: Recorder, e: Event): (Accounts, Recorder) {
    match e
    case Mutate(a, s) => (m[a := s], RecordChange(rec, a, Lookup(m, a), Some(s)))
    case Reward(a, amount) =>
      if Accepts(m, e)
      then (m[a := m[a].(rewards := Adjusted(m[a].rewards, AsI64(amount)))],
            RecordRewardDelta(rec, a, NegI64(AsI64(amount))))
      else (m, rec)
  }

  /** A reward reaches a registered account whose balance does not underflow by it, and nothing else is touched. */
  lemma RewardTaken(m: Accounts, rec: Recorder, a: StakeAddress, amount: U64)
    ensures var (m', rec') := ApplyEvent(m, rec, Reward(a, amount));
            if a in m && m[a].registered && m[a].rewards + (if amount <= I64_MAX then amount else amount - TWO_64) >= 0
            then
              && m' == m[a := m'[a]] && m'[a] == m[a].(rewards := m'[a].rewards)
              && (amount <= I64_MAX ==> m'[a].rewards == Min(m[a].rewards + amount, U64_MAX))
              && rec'.changes == rec.changes
            else (m', rec') == (m, rec)
  {
  }

  function ApplyBlock(m: Accounts, events: seq<Event>): (Accounts, Recorder) {
    if events == [] then (m, EMPTY_RECORDER) else
    var (m', rec) := ApplyBlock(m, events[..|events| - 1]);
    ApplyEvent(m', rec, events[|events| - 1])
  }

  /** Rewards the block has paid to an account so far. */
  function Paid(m: Accounts, events: seq<Event>, a: StakeAddress): nat {
    if events == [] then 0 else
    var e := events[|events| - 1];
    Paid(m, events[..|events| - 1], a) +
    (if e.address == a && Accepts(ApplyBlock(m, events[..|events| - 1]).0, e) then e.amount else 0)
  }

  predicate Small(s: AccountState) {
    s.utxoValue <= I64_MAX && s.rewards <= I64_MAX
  }

  ghost predicate AllSmall(m: Accounts) {
    forall a | a in m :: Small(m[a])
  }

  /** Every balance stays below 2^63 throughout the block, counting all rewards on top of what was there. */
  ghost predicate BlockFits(m: Accounts, events: seq<Event>) {
    && AllSmall(m)
    && (events != [] ==>
          && BlockFits(m, events[..|events| - 1])
          && AllSmall(ApplyBlock(m, events).0)
          && (events[|events| - 1].Reward? ==> events[|events| - 1].amount <= I64_MAX)
          && (forall a :: GetOrDefault(m, a).rewards + Paid(m, events, a) <= I64_MAX))
  }

  // ---------------------------------------------------------------------------------
  // A block is undone exactly

  function ChangeOf(rec: Recorder, a: StakeAddress): Option<UndoDelta> {
    if a in rec.changes then Some(rec.changes[a]) else None
  }

  function RewardOf(rec: Recorder, a: StakeAddress): int {
    if a in rec.rewardDeltas then rec.rewardDeltas[a] else 0
  }

  /** How the record of an account relates what it was, what it was paid, and what it is now. */
  ghost predicate Tracks(before: Option<AccountState>, paid: nat, now: Option<AccountState>, change: Option<UndoDelta>) {
    match change
    case None =>
      if before.None? then now.None? && paid == 0
      else before.value.rewards + paid <= I64_MAX &&
           now == Some(before.value.(rewards := before.value.rewards + paid))
    case Some(d) =>
      && d.existedBefore == before.Some?
      && now.Some?
      && (before.Some? ==>
            && d.registered == before.value.registered
            && d.delegatedSpo == before.value.delegatedSpo
            && d.delegatedDrep == before.value.delegatedDrep
            && d.inverseUtxo == before.value.utxoValue - now.value.utxoValue
            && d.inverseRewards == before.value.rewards + paid - now.value.rewards)
  }

  ghost predicate TracksAll(m0: Accounts, events: seq<Event>, a: StakeAddress) {
    var (m, rec) := ApplyBlock(m0, events);
    && Tracks(Lookup(m0, a), Paid(m0, events, a), Lookup(m, a), ChangeOf(rec, a))
    && RewardOf(rec, a) == -(Paid(m0, events, a) as int)
    && (a in rec.rewardDeltas <==> Paid(m0, events, a) > 0)
  }

  /** A change accumulated on a record relates what was before the record to what is now. */
  lemma AccumulateAdds(d: UndoDelta, previous: Option<AccountState>, s: AccountState)
    requires Small(OrDefault(previous)) && Small(s)
    ensures var d', p := Accumulate(d, previous, Some(s)), OrDefault(previous);
            && d' == d.(inverseUtxo := d'.inverseUtxo, inverseRewards := d'.inverseRewards)
            && (I64_MIN <= d.inverseUtxo + p.utxoValue - s.utxoValue <= I64_MAX ==>
                d'.inverseUtxo == d.inverseUtxo + p.utxoValue - s.utxoValue)
            && (I64_MIN <= d.inverseRewards + p.rewards - s.rewards <= I64_MAX ==>
                d'.inverseRewards == d.inverseRewards + p.rewards - s.rewards)
  {
  }

  /** Recording a change to any state keeps track. */
  lemma TrackMutate(before: Option<AccountState>, paid: nat, now: Option<AccountState>, s: AccountState, rec: Recorder, a: StakeAddress)
    requires Tracks(before, paid, now, ChangeOf(rec, a))
    requires now.Some? ==> Small(now.value)
    requires before.Some? ==> Small(before.value) && before.value.rewards + paid <= I64_MAX
    requires Small(s)
    ensures Tracks(before, paid, Some(s), ChangeOf(RecordChange(rec, a, now, Some(s)), a))
  {
    AccumulateAdds(if a in rec.changes then rec.changes[a] else FromPrevious(now), now, s);
  }

  lemma MutateKeepsTrack(m0: Accounts, events: seq<Event>, a: StakeAddress)
    requires events != [] && events[|events| - 1].Mutate? && BlockFits(m0, events)
    requires TracksAll(m0, events[..|events| - 1], a)
    ensures TracksAll(m0, events, a)
  {
    var prefix, e := events[..|events| - 1], events[|events| - 1];
    var (m, rec) := ApplyBlock(m0, prefix);
    assert Paid(m0, events, a) == Paid(m0, prefix, a);
    if e.address == a {
      assert GetOrDefault(m0, a).rewards + Paid(m0, events, a) <= I64_MAX;
      assert AllSmall(m) by { PrefixSmall(m0, events); }
      assert ApplyBlock(m0, events).0[a] == e.state;
      TrackMutate(Lookup(m0, a), Paid(m0, prefix, a), Lookup(m, a), e.state, rec, a);
    }
  }

  lemma PrefixSmall(m0: Accounts, events: seq<Event>)
    requires events != [] && BlockFits(m0, events)
    ensures AllSmall(ApplyBlock(m0, events[..|events| - 1]).0)
  {
  }

  /** Paying a reward moves the account and what it was paid together. */
  lemma TrackReward(before: Option<AccountState>, paid: nat, now: AccountState, change: Option<UndoDelta>, amount: nat)
    requires Tracks(before, paid, Some(now), change)
    requires before.Some? ==> before.value.rewards + paid + amount <= I64_MAX
    requires now.rewards + amount <= U64_MAX
    ensures Tracks(before, paid + amount, Some(now.(rewards := now.rewards + amount)), change)
  {
  }

  lemma RewardRecorded(rec: Recorder, a: StakeAddress, paid: nat, amount: nat)
    requires paid + amount <= I64_MAX
    requires RewardOf(rec, a) == -(paid as int) && (a in rec.rewardDeltas <==> paid > 0)
    ensures var rec' := RecordRewardDelta(rec, a, NegI64(AsI64(amount)));
            && rec'.changes == rec.changes
            && RewardOf(rec', a) == -((paid + amount) as int) && (a in rec'.rewardDeltas <==> paid + amount > 0)
  {
  }

  lemma AcceptedKeepsTrack(m0: Accounts, events: seq<Event>, e: Event, a: StakeAddress)
    requires e.Reward? && e.address == a && Accepts(ApplyBlock(m0, events).0, e) && e.amount <= I64_MAX
    requires TracksAll(m0, events, a) && AllSmall(ApplyBlock(m0, events).0)
    requires GetOrDefault(m0, a).rewards + Paid(m0, events, a) + e.amount <= I64_MAX
    ensures var (m, rec) := ApplyBlock(m0, events);
            var (m', rec') := ApplyEvent(m, rec, e);
            && Tracks(Lookup(m0, a), Paid(m0, events, a) + e.amount, Lookup(m', a), ChangeOf(rec', a))
            && RewardOf(rec', a) == -((Paid(m0, events, a) + e.amount) as int)
            && (a in rec'.rewardDeltas <==> Paid(m0, events, a) + e.amount > 0)
  {
    var (m, rec) := ApplyBlock(m0, events);
    TrackReward(Lookup(m0, a), Paid(m0, events, a), m[a], ChangeOf(rec, a), e.amount);
    RewardRecorded(rec, a, Paid(m0, events, a), e.amount);
  }

  /** An event on another account, or a reward turned away, leaves an account and its record alone. */
  lemma OtherEvent(m: Accounts, rec: Recorder, e: Event, a: StakeAddress)
    requires e.address != a || (e.Reward? && !Accepts(m, e))
    ensures var (m', rec') := ApplyEvent(m, rec, e);
            && Lookup(m', a) == Lookup(m, a) && ChangeOf(rec', a) == ChangeOf(rec, a)
            && RewardOf(rec', a) == RewardOf(rec, a) && (a in rec'.rewardDeltas <==> a in rec.rewardDeltas)
  {
  }

  lemma RewardKeepsTrack(m0: Accounts, events: seq<Event>, a: StakeAddress)
    requires events != [] && events[|events| - 1].Reward? && BlockFits(m0, events)
    requires TracksAll(m0, events[..|events| - 1], a)
    ensures TracksAll(m0, events, a)
  {
    var prefix, e := events[..|events| - 1], events[|events| - 1];
    var (m, rec) := ApplyBlock(m0, prefix);
    if e.address == a && Accepts(m, e) {
      PrefixSmall(m0, events);
      assert GetOrDefault(m0, a).rewards + Paid(m0, events, a) <= I64_MAX;
      AcceptedKeepsTrack(m0, prefix, e, a);
    } else {
      OtherEvent(m, rec, e, a);
    }
  }

  lemma {:induction false} BlockTracked(m0: Accounts, events: seq<Event>, a: StakeAddress)
    requires BlockFits(m0, events)
    ensures TracksAll(m0, events, a)
  {
    if events != [] {
      BlockTracked(m0, events[..|events| - 1], a);
      if events[|events| - 1].Mutate? {
        MutateKeepsTrack(m0, events, a);
      } else {
        RewardKeepsTrack(m0, events, a);
      }
    }
  }

  /** What is tracked can be undone. */
  lemma TrackedUndoes(before: Option<AccountState>, paid: nat, now: Option<AccountState>, rec: Recorder, a: StakeAddress)
    requires Tracks(before, paid, now, ChangeOf(rec, a))
    requires RewardOf(rec, a) == -(paid as int) && (a in rec.rewardDeltas <==> paid > 0)
    requires before.Some? ==> before.value.rewards + paid <= I64_MAX
    ensures UndoAccount(now, rec, a) == before
  {
  }

  /** Undoing a block's record restores every account exactly, whatever the block did and in whatever order. */
  lemma BlockUndone(m0: Accounts, events: seq<Event>)
    requires BlockFits(m0, events)
    ensures var (m, rec) := ApplyBlock(m0, events); UndoBlock(m, rec) == m0
  {
    var (m, rec) := ApplyBlock(m0, events);
    forall a ensures UndoAccount(Lookup(m, a), rec, a) == Lookup(m0, a) && (a in m0 ==> a in m) {
      BlockTracked(m0, events, a);
      PaidFits(m0, events, a);
      TrackedUndoes(Lookup(m0, a), Paid(m0, events, a), Lookup(m, a), rec, a);
    }
    forall a | a in m0 ensures a in UndoBlock(m, rec) && UndoBlock(m, rec)[a] == m0[a] {
      assert UndoAccount(Lookup(m, a), rec, a) == Lookup(m0, a);
    }
    forall a | a in UndoBlock(m, rec) ensures a in m0 {
      assert UndoAccount(Lookup(m, a), rec, a) == Lookup(m0, a);
    }
  }

  lemma PaidFits(m0: Accounts, events: seq<Event>, a: StakeAddress)
    requires BlockFits(m0, events)
    ensures GetOrDefault(m0, a).rewards + Paid(m0, events, a) <= I64_MAX
  {
    if events == [] && a in m0 {
      assert Small(m0[a]);
    }
  }

  /** A block that recorded nothing changed nothing. */
  lemma EmptyRecordNoChange(m0: Accounts, events: seq<Event>)
    requires BlockFits(m0, events) && ApplyBlock(m0, events).1 == EMPTY_RECORDER
    ensures ApplyBlock(m0, events).0 == m0
  {
    BlockUndone(m0, events);
    var (m, rec) := ApplyBlock(m0, events);
    assert UndoBlock(m, rec) == m;
  }
}
