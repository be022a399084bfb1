/**
 Consumed and produced value of a transaction, and the rule that the two be equal. Inputs,
 withdrawals, refunds and minted assets stand on one side; outputs, fee, deposits, donation
 and burnt assets on the other.
 */
module TxBalance {
  import opened Base
  import opened Sums
  import opened Values

  datatype UTxOIdentifier = UTxOIdentifier(txHash: seq<Byte>, outputIndex: nat)

  datatype CertIdentifier = CertIdentifier(txHash: seq<Byte>, certIndex: U64)

  datatype TxCertificate = DRepRegistration(deposit: U64) | DRepDeregistration(refund: U64) | OtherCertificate

  datatype TxCertificateWithPos = TxCertificateWithPos(cert: TxCertificate, id: CertIdentifier)

  datatype StakeOutcome = StakeRegistered(deposit: U64) | StakeDeregistered(refund: U64)

  datatype PoolOutcome = PoolRegistered(deposit: U64) | PoolUpdated | PoolRetirementQueued

  /** What the ledger made of the certificate with this identifier. */
  datatype Update<+O> = Update(id: CertIdentifier, outcome: O)

  type StakeUpdate = Update<StakeOutcome>

  type PoolUpdate = Update<PoolOutcome>

  datatype AssetDelta = AssetDelta(name: AssetName, amount: I64)

  datatype PolicyDeltas = PolicyDeltas(policy: PolicyId, deltas: seq<AssetDelta>)

  datatype Tx = Tx(
    consumes: seq<UTxOIdentifier>,
    produces: seq<Value>,
    fee: U64,
    donation: Option<U64>,
    statedTotalCollateral: Option<U64>,
    isValid: bool,
    certs: Option<seq<TxCertificateWithPos>>,
    withdrawals: Option<seq<U64>>,
    mintBurnDeltas: Option<seq<PolicyDeltas>>,
    proposalDeposits: Option<seq<U64>>)

  type Utxos = map<UTxOIdentifier, Value>

  // ---------------------------------------------------------------------------------
  // Lovelace: refunds, withdrawals, deposits

  function Total(xs: seq<U64>): nat {
    if xs == [] then 0 else Total(xs[..|xs| - 1]) + xs[|xs| - 1]
  }

  lemma {:induction false} TotalPrefix(xs: seq<U64>, k: nat)
    requires k <= |xs|
    ensures Total(xs[..k]) <= Total(xs)
  {
    if k < |xs| {
      TotalPrefix(xs[..|xs| - 1], k);
      assert xs[..|xs| - 1][..k] == xs[..k];
    } else {
      assert xs[..k] == xs;
    }
  }

  method SumPlain(xs: seq<U64>) returns (total: U64)
    requires Total(xs) <= U64_MAX
    ensures total == Total(xs)
  {
    total := 0;
    for k := 0 to |xs|
      invariant total == Total(xs[..k])
    {
      TotalPrefix(xs, k + 1);
      assert xs[..k + 1][..k] == xs[..k];
      total := total + xs[k];
    }
    assert xs[..|xs|] == xs;
  }

  function Find<O>(updates: seq<Update<O>>, id: CertIdentifier): Option<O> {
    if updates == [] then None
    else if updates[0].id == id then Some(updates[0].outcome)
    else Find(updates[1..], id)
  }

  function StakeRefund(o: Option<StakeOutcome>): U64 {
    if o.Some? && o.value.StakeDeregistered? then o.value.refund else 0
  }

  function StakeDeposit(o: Option<StakeOutcome>): U64 {
    if o.Some? && o.value.StakeRegistered? then o.value.deposit else 0
  }

  function PoolDeposit(o: Option<PoolOutcome>): U64 {
    if o.Some? && o.value.PoolRegistered? then o.value.deposit else 0
  }

  /** What one certificate gives back. */
  function Refund(c: TxCertificateWithPos, stake: seq<StakeUpdate>): nat {
    StakeRefund(Find(stake, c.id)) + (if c.cert.DRepDeregistration? then c.cert.refund else 0)
  }

  /** What one certificate takes. */
  function Deposit(c: TxCertificateWithPos, pools: seq<PoolUpdate>, stake: seq<StakeUpdate>): nat {
    PoolDeposit(Find(pools, c.id)) + StakeDeposit(Find(stake, c.id)) +
    (if c.cert.DRepRegistration? then c.cert.deposit else 0)
  }

  function CertRefunds(certs: seq<TxCertificateWithPos>, stake: seq<StakeUpdate>): nat {
    if certs == [] then 0 else CertRefunds(certs[..|certs| - 1], stake) + Refund(certs[|certs| - 1], stake)
  }

  function CertDeposits(certs: seq<TxCertificateWithPos>, pools: seq<PoolUpdate>, stake: seq<StakeUpdate>): nat {
    if certs == [] then 0 else
    CertDeposits(certs[..|certs| - 1], pools, stake) + Deposit(certs[|certs| - 1], pools, stake)
  }

  function Refunds(tx: Tx, stake: seq<StakeUpdate>): nat {
    if tx.certs.Some? then CertRefunds(tx.certs.value, stake) else 0
  }

  /** A transaction without a certificate list pays no deposits, not even for proposals. */
  function Deposits(tx: Tx, pools: seq<PoolUpdate>, stake: seq<StakeUpdate>): nat {
    if tx.certs.None? then 0 else
    CertDeposits(tx.certs.value, pools, stake) +
    (if tx.proposalDeposits.Some? then Total(tx.proposalDeposits.value) else 0)
  }

  function Withdrawals(tx: Tx): nat {
    if tx.withdrawals.Some? then Total(tx.withdrawals.value) else 0
  }

  lemma {:induction false} CertPrefix(certs: seq<TxCertificateWithPos>, pools: seq<PoolUpdate>, stake: seq<StakeUpdate>, k: nat)
    requires k <= |certs|
    ensures CertRefunds(certs[..k], stake) <= CertRefunds(certs, stake)
    ensures CertDeposits(certs[..k], pools, stake) <= CertDeposits(certs, pools, stake)
  {
    if k < |certs| {
      CertPrefix(certs[..|certs| - 1], pools, stake, k);
      assert certs[..|certs| - 1][..k] == certs[..k];
    } else {
      assert certs[..k] == certs;
    }
  }

  // ---------------------------------------------------------------------------------
  // The same sums, counted by position

  /** Update `j` is the first with its identifier. */
  ghost predicate IsFirst<O>(updates: seq<Update<O>>, j: int) {
    0 <= j < |updates| && forall i | 0 <= i < j :: updates[i].id != updates[j].id
  }

  /** The first update with the identifier, if there is one. */
  ghost function Naming<O>(updates: seq<Update<O>>, id: CertIdentifier): set<int> {
    set j | j in Below(|updates|) && IsFirst(updates, j) && updates[j].id == id
  }

  ghost function OutcomeTerm<O>(updates: seq<Update<O>>, amount: O -> int): int -> int {
    j => if 0 <= j < |updates| then amount(updates[j].outcome) else 0
  }

  ghost function CertTerm<O>(certs: seq<TxCertificateWithPos>, updates: seq<Update<O>>, amount: O -> int): int -> int {
    i => if 0 <= i < |certs| then SumOver(Naming(updates, certs[i].id), OutcomeTerm(updates, amount)) else 0
  }

  /** Over all certificates, the amounts of the first update that names each. */
  ghost function ByUpdates<O>(certs: seq<TxCertificateWithPos>, updates: seq<Update<O>>, amount: O -> int): int {
    SumOver(Below(|certs|), CertTerm(certs, updates, amount))
  }

  ghost function RefundOf(): StakeOutcome -> int {
    (o: StakeOutcome) => match o case StakeDeregistered(refund) => refund case StakeRegistered(_) => 0
  }

  ghost function DepositOf(): StakeOutcome -> int {
    (o: StakeOutcome) => match o case StakeRegistered(deposit) => deposit case StakeDeregistered(_) => 0
  }

  ghost function PoolDepositOf(): PoolOutcome -> int {
    (o: PoolOutcome) => match o case PoolRegistered(deposit) => deposit case PoolUpdated => 0 case PoolRetirementQueued => 0
  }

  ghost function DRepRefundTerm(certs: seq<TxCertificateWithPos>): int -> int {
    i => if 0 <= i < |certs| && certs[i].cert.DRepDeregistration? then certs[i].cert.refund else 0
  }

  ghost function DRepDepositTerm(certs: seq<TxCertificateWithPos>): int -> int {
    i => if 0 <= i < |certs| && certs[i].cert.DRepRegistration? then certs[i].cert.deposit else 0
  }

  ghost function ElementTerm(xs: seq<U64>): int -> int {
    i => if 0 <= i < |xs| then xs[i] else 0
  }

  lemma {:induction false} FindFirst<O>(updates: seq<Update<O>>, j: int)
    requires IsFirst(updates, j)
    ensures Find(updates, updates[j].id) == Some(updates[j].outcome)
    decreases |updates|
  {
    if j > 0 {
      var rest := updates[1..];
      assert forall i | 0 <= i < j - 1 :: rest[i].id == updates[i + 1].id != updates[j].id;
      FindFirst(rest, j - 1);
    }
  }

  lemma {:induction false} FindNothing<O>(updates: seq<Update<O>>, id: CertIdentifier)
    requires forall j | 0 <= j < |updates| :: updates[j].id != id
    ensures Find(updates, id) == None
  {
    if updates != [] {
      FindNothing(updates[1..], id);
    }
  }

  lemma {:induction false} FirstExists<O>(updates: seq<Update<O>>, k: nat) returns (j: nat)
    requires k < |updates|
    ensures IsFirst(updates, j) && updates[j].id == updates[k].id
  {
    if i :| 0 <= i < k && updates[i].id == updates[k].id {
      j := FirstExists(updates, i);
    } else {
      j := k;
    }
  }

  /** Looking an update up finds the first with the identifier. */
  lemma NamingSum<O>(updates: seq<Update<O>>, id: CertIdentifier, amount: O -> int)
    ensures SumOver(Naming(updates, id), OutcomeTerm(updates, amount)) ==
            match Find(updates, id) case None => 0 case Some(o) => amount(o)
  {
    var term := OutcomeTerm(updates, amount);
    if k :| 0 <= k < |updates| && updates[k].id == id {
      var j := FirstExists(updates, k);
      FindFirst(updates, j);
      assert Naming(updates, id) == {j};
      SumRemove({j}, term, j);
      assert SumOver({j} - {j}, term) == 0;
    } else {
      FindNothing(updates, id);
      assert Naming(updates, id) == {};
    }
  }

  lemma {:induction false} TotalByPosition(xs: seq<U64>)
    ensures Total(xs) == SumOver(Below(|xs|), ElementTerm(xs))
  {
    if xs != [] {
      var last := |xs| - 1;
      TotalByPosition(xs[..last]);
      NextPosition(last, ElementTerm(xs[..last]), ElementTerm(xs));
    }
  }

  lemma ByUpdatesNext<O>(certs: seq<TxCertificateWithPos>, updates: seq<Update<O>>, amount: O -> int)
    requires certs != []
    ensures ByUpdates(certs, updates, amount) == ByUpdates(certs[..|certs| - 1], updates, amount) +
            match Find(updates, certs[|certs| - 1].id) case None => 0 case Some(o) => amount(o)
  {
    var last := |certs| - 1;
    NextPosition(last, CertTerm(certs[..last], updates, amount), CertTerm(certs, updates, amount));
    NamingSum(updates, certs[last].id, amount);
  }

  /** What DRep certificates state: refunds and deposits. */
  ghost function DRepRefunds(certs: seq<TxCertificateWithPos>): int {
    SumOver(Below(|certs|), DRepRefundTerm(certs))
  }

  ghost function DRepDeposits(certs: seq<TxCertificateWithPos>): int {
    SumOver(Below(|certs|), DRepDepositTerm(certs))
  }

  lemma DRepRefundNext(certs: seq<TxCertificateWithPos>)
    requires certs != []
    ensures var (front, c) := (certs[..|certs| - 1], certs[|certs| - 1].cert);
            DRepRefunds(certs) == DRepRefunds(front) + (if c.DRepDeregistration? then c.refund else 0)
  {
    var last := |certs| - 1;
    NextPosition(last, DRepRefundTerm(certs[..last]), DRepRefundTerm(certs));
  }

  lemma DRepDepositNext(certs: seq<TxCertificateWithPos>)
    requires certs != []
    ensures var (front, c) := (certs[..|certs| - 1], certs[|certs| - 1].cert);
            DRepDeposits(certs) == DRepDeposits(front) + (if c.DRepRegistration? then c.deposit else 0)
  {
    var last := |certs| - 1;
    NextPosition(last, DRepDepositTerm(certs[..last]), DRepDepositTerm(certs));
  }

  ghost function CertRefundsAt(certs: seq<TxCertificateWithPos>, stake: seq<StakeUpdate>): int {
    ByUpdates(certs, stake, RefundOf()) + DRepRefunds(certs)
  }

  ghost function CertDepositsAt(certs: seq<TxCertificateWithPos>, pools: seq<PoolUpdate>, stake: seq<StakeUpdate>): int {
    ByUpdates(certs, pools, PoolDepositOf()) + ByUpdates(certs, stake, DepositOf()) + DRepDeposits(certs)
  }

  lemma RefundNext(certs: seq<TxCertificateWithPos>, stake: seq<StakeUpdate>)
    requires certs != []
    ensures CertRefundsAt(certs, stake) == CertRefundsAt(certs[..|certs| - 1], stake) + Refund(certs[|certs| - 1], stake)
  {
    ByUpdatesNext(certs, stake, RefundOf());
    DRepRefundNext(certs);
  }

  lemma DepositNext(certs: seq<TxCertificateWithPos>, pools: seq<PoolUpdate>, stake: seq<StakeUpdate>)
    requires certs != []
    ensures CertDepositsAt(certs, pools, stake) ==
            CertDepositsAt(certs[..|certs| - 1], pools, stake) + Deposit(certs[|certs| - 1], pools, stake)
  {
    ByUpdatesNext(certs, pools, PoolDepositOf());
    ByUpdatesNext(certs, stake, DepositOf());
    DRepDepositNext(certs);
  }

  lemma {:induction false} CertsCounted(certs: seq<TxCertificateWithPos>, pools: seq<PoolUpdate>, stake: seq<StakeUpdate>)
    ensures CertRefunds(certs, stake) == CertRefundsAt(certs, stake)
    ensures CertDeposits(certs, pools, stake) == CertDepositsAt(certs, pools, stake)
  {
    if certs != [] {
      CertsCounted(certs[..|certs| - 1], pools, stake);
      RefundNext(certs, stake);
      DepositNext(certs, pools, stake);
    }
  }

  /** Deregistrations the ledger refunded and the refunds that DRep certificates state. */
  ghost function RefundsCounted(tx: Tx, stake: seq<StakeUpdate>): int {
    if tx.certs.None? then 0 else CertRefundsAt(tx.certs.value, stake)
  }

  /** Pool and stake registrations, the deposits that DRep certificates state, and proposals. */
  ghost function DepositsCounted(tx: Tx, pools: seq<PoolUpdate>, stake: seq<StakeUpdate>): int {
    if tx.certs.None? then 0 else
    var proposals := if tx.proposalDeposits.Some? then tx.proposalDeposits.value else [];
    CertDepositsAt(tx.certs.value, pools, stake) + SumOver(Below(|proposals|), ElementTerm(proposals))
  }

  lemma LovelaceCounted(tx: Tx, pools: seq<PoolUpdate>, stake: seq<StakeUpdate>)
    ensures Refunds(tx, stake) == RefundsCounted(tx, stake)
    ensures Deposits(tx, pools, stake) == DepositsCounted(tx, pools, stake)
  {
    if tx.certs.Some? {
      CertsCounted(tx.certs.value, pools, stake);
      TotalByPosition(if tx.proposalDeposits.Some? then tx.proposalDeposits.value else []);
    }
  }

  // With identifiers that do not repeat, the count can be taken over the updates instead.

  ghost predicate DistinctIds<O>(updates: seq<Update<O>>) {
    forall i, j | 0 <= i < j < |updates| :: updates[i].id != updates[j].id
  }

  ghost predicate DistinctCerts(certs: seq<TxCertificateWithPos>) {
    forall i, j | 0 <= i < j < |certs| :: certs[i].id != certs[j].id
  }

  ghost predicate HasCert(certs: seq<TxCertificateWithPos>, id: CertIdentifier) {
    exists i :: 0 <= i < |certs| && certs[i].id == id
  }

  /** The updates that some certificate of the transaction names. */
  ghost function Named<O>(certs: seq<TxCertificateWithPos>, updates: seq<Update<O>>): set<int> {
    set j | j in Below(|updates|) && HasCert(certs, updates[j].id)
  }

  lemma NamedGrows<O>(certs: seq<TxCertificateWithPos>, updates: seq<Update<O>>)
    requires certs != [] && DistinctIds(updates) && DistinctCerts(certs)
    ensures var (front, id) := (certs[..|certs| - 1], certs[|certs| - 1].id);
            Named(certs, updates) == Named(front, updates) + Naming(updates, id) && Named(front, updates) !! Naming(updates, id)
  {
    var last := |certs| - 1;
    var front, id := certs[..last], certs[last].id;
    forall x | x == id || HasCert(front, x) ensures HasCert(certs, x) {
      if HasCert(front, x) {
        var i :| 0 <= i < |front| && front[i].id == x;
        assert certs[i].id == x;
      } else {
        assert certs[last].id == x;
      }
    }
    forall x | HasCert(certs, x) && x != id ensures HasCert(front, x) {
      var i :| 0 <= i < |certs| && certs[i].id == x;
      assert front[i].id == x;
    }
    assert !HasCert(front, id);
  }

  lemma {:induction false} ByUpdatesDistinct<O>(certs: seq<TxCertificateWithPos>, updates: seq<Update<O>>, amount: O -> int)
    requires DistinctIds(updates) && DistinctCerts(certs)
    ensures ByUpdates(certs, updates, amount) == SumOver(Named(certs, updates), OutcomeTerm(updates, amount))
  {
    if certs == [] {
      assert Named(certs, updates) == {};
    } else {
      var last := |certs| - 1;
      var front := certs[..last];
      ByUpdatesDistinct(front, updates, amount);
      NextPosition(last, CertTerm(front, updates, amount), CertTerm(certs, updates, amount));
      NamedGrows(certs, updates);
      SumUnion(Named(front, updates), Naming(updates, certs[last].id), OutcomeTerm(updates, amount));
    }
  }

  /** Without repeated identifiers, refunds and deposits are the amounts of all updates that a certificate names. */
  lemma DistinctCounted(certs: seq<TxCertificateWithPos>, pools: seq<PoolUpdate>, stake: seq<StakeUpdate>)
    requires DistinctCerts(certs) && DistinctIds(pools) && DistinctIds(stake)
    ensures CertRefunds(certs, stake) == SumOver(Named(certs, stake), OutcomeTerm(stake, RefundOf())) + DRepRefunds(certs)
    ensures CertDeposits(certs, pools, stake) ==
            SumOver(Named(certs, pools), OutcomeTerm(pools, PoolDepositOf())) +
            SumOver(Named(certs, stake), OutcomeTerm(stake, DepositOf())) + DRepDeposits(certs)
  {
    CertsCounted(certs, pools, stake);
    ByUpdatesDistinct(certs, stake, RefundOf());
    ByUpdatesDistinct(certs, pools, PoolDepositOf());
    ByUpdatesDistinct(certs, stake, DepositOf());
  }

  ghost predicate CountsRefunds(tx: Tx, stake: seq<StakeUpdate>, total: int) {
    total == RefundsCounted(tx, stake)
  }

  ghost predicate CountsDeposits(tx: Tx, pools: seq<PoolUpdate>, stake: seq<StakeUpdate>, total: int) {
    total == DepositsCounted(tx, pools, stake)
  }

  method SumCertRefunds(certs: seq<TxCertificateWithPos>, stake: seq<StakeUpdate>) returns (total: U64)
    requires CertRefunds(certs, stake) <= U64_MAX
    ensures total == CertRefunds(certs, stake)
  {
    total := 0;
    for k := 0 to |certs|
      invariant total == CertRefunds(certs[..k], stake)
    {
      CertPrefix(certs, [], stake, k + 1);
      assert certs[..k + 1][..k] == certs[..k];
      total := total + StakeRefund(Find(stake, certs[k].id));
      if certs[k].cert.DRepDeregistration? {
        total := total + certs[k].cert.refund;
      }
    }
    assert certs[..|certs|] == certs;
  }

  method CalculateTotalRefund(tx: Tx, stake: seq<StakeUpdate>) returns (total: U64)
    requires Refunds(tx, stake) <= U64_MAX
    ensures total == Refunds(tx, stake)
    ensures CountsRefunds(tx, stake, total)
  {
    LovelaceCounted(tx, [], stake);
    total := 0;
    if tx.certs.None? {
      return;
    }
    total := SumCertRefunds(tx.certs.value, stake);
  }

  method SumCertDeposits(certs: seq<TxCertificateWithPos>, pools: seq<PoolUpdate>, stake: seq<StakeUpdate>) returns (total: U64)
    requires CertDeposits(certs, pools, stake) <= U64_MAX
    ensures total == CertDeposits(certs, pools, stake)
  {
    total := 0;
    for k := 0 to |certs|
      invariant total == CertDeposits(certs[..k], pools, stake)
    {
      CertPrefix(certs, pools, stake, k + 1);
      assert certs[..k + 1][..k] == certs[..k];
      total := total + PoolDeposit(Find(pools, certs[k].id));
      total := total + StakeDeposit(Find(stake, certs[k].id));
      if certs[k].cert.DRepRegistration? {
        total := total + certs[k].cert.deposit;
      }
    }
    assert certs[..|certs|] == certs;
  }

  method CalculateTotalDeposit(tx: Tx, pools: seq<PoolUpdate>, stake: seq<StakeUpdate>) returns (total: U64)
    requires Deposits(tx, pools, stake) <= U64_MAX
    ensures total == Deposits(tx, pools, stake)
    ensures CountsDeposits(tx, pools, stake, total)
  {
    LovelaceCounted(tx, pools, stake);
    total := 0;
    if tx.certs.None? {
      return;
    }
    total := SumCertDeposits(tx.certs.value, pools, stake);
    if tx.proposalDeposits.Some? {
      var proposals := SumPlain(tx.proposalDeposits.value);
      total := total + proposals;
    }
  }

  method CalculateTotalWithdrawals(tx: Tx) returns (total: U64)
    requires Withdrawals(tx) <= U64_MAX
    ensures total == Withdrawals(tx)
    ensures tx.withdrawals.Some? ==>
              var ws := tx.withdrawals.value; total == SumOver(Below(|ws|), ElementTerm(ws))
    ensures tx.withdrawals.None? ==> total == 0
  {
    if tx.withdrawals.None? {
      return 0;
    }
    TotalByPosition(tx.withdrawals.value);
    total := SumPlain(tx.withdrawals.value);
  }

  // ---------------------------------------------------------------------------------
  // Minting and burning

  /** The minted or the burnt part of a signed amount. */
  function Part(amount: I64, burn: bool): U64 {
    if burn then (if amount < 0 then 0 - amount else 0) else (if amount > 0 then amount else 0)
  }

  function DeltaPart(deltas: seq<AssetDelta>, n: AssetName, burn: bool): nat {
    if deltas == [] then 0 else
    var d := deltas[|deltas| - 1];
    DeltaPart(deltas[..|deltas| - 1], n, burn) + (if d.name == n then Part(d.amount, burn) else 0)
  }

  function MintPart(ps: seq<PolicyDeltas>, p: PolicyId, n: AssetName, burn: bool): nat {
    if ps == [] then 0 else
    var x := ps[|ps| - 1];
    MintPart(ps[..|ps| - 1], p, n, burn) + (if x.policy == p then DeltaPart(x.deltas, n, burn) else 0)
  }

  function DeltaSum(deltas: seq<AssetDelta>, n: AssetName): int {
    if deltas == [] then 0 else
    var d := deltas[|deltas| - 1];
    DeltaSum(deltas[..|deltas| - 1], n) + (if d.name == n then d.amount else 0)
  }

  /** The signed sum of all mint entries for an asset. */
  function MintSum(ps: seq<PolicyDeltas>, p: PolicyId, n: AssetName): int {
    if ps == [] then 0 else
    var x := ps[|ps| - 1];
    MintSum(ps[..|ps| - 1], p, n) + (if x.policy == p then DeltaSum(x.deltas, n) else 0)
  }

  lemma {:induction false} DeltaSplits(deltas: seq<AssetDelta>, n: AssetName)
    ensures DeltaPart(deltas, n, false) - DeltaPart(deltas, n, true) == DeltaSum(deltas, n)
  {
    if deltas != [] {
      DeltaSplits(deltas[..|deltas| - 1], n);
    }
  }

  /** Splitting into minted and burnt loses nothing. */
  lemma {:induction false} MintSplits(ps: seq<PolicyDeltas>, p: PolicyId, n: AssetName)
    ensures MintPart(ps, p, n, false) - MintPart(ps, p, n, true) == MintSum(ps, p, n)
  {
    if ps != [] {
      MintSplits(ps[..|ps| - 1], p, n);
      DeltaSplits(ps[|ps| - 1].deltas, n);
    }
  }

  function MintDeltas(tx: Tx): seq<PolicyDeltas> {
    if tx.mintBurnDeltas.Some? then tx.mintBurnDeltas.value else []
  }

  lemma {:induction false} DeltaPartPrefix(deltas: seq<AssetDelta>, k: nat, n: AssetName, burn: bool)
    requires k <= |deltas|
    ensures DeltaPart(deltas[..k], n, burn) <= DeltaPart(deltas, n, burn)
  {
    if k < |deltas| {
      DeltaPartPrefix(deltas[..|deltas| - 1], k, n, burn);
      assert deltas[..|deltas| - 1][..k] == deltas[..k];
    } else {
      assert deltas[..k] == deltas;
    }
  }

  lemma {:induction false} MintPartPrefix(ps: seq<PolicyDeltas>, k: nat, p: PolicyId, n: AssetName, burn: bool)
    requires k <= |ps|
    ensures MintPart(ps[..k], p, n, burn) <= MintPart(ps, p, n, burn)
  {
    if k < |ps| {
      MintPartPrefix(ps[..|ps| - 1], k, p, n, burn);
      assert ps[..|ps| - 1][..k] == ps[..k];
    } else {
      assert ps[..k] == ps;
    }
  }

  /** The value holding just one asset. */
  function Single(p: PolicyId, n: AssetName, amount: U64): Value {
    Value(0, [PolicyAssets(p, [NativeAsset(n, amount)])])
  }

  lemma SingleAmount(p: PolicyId, n: AssetName, amount: U64, q: PolicyId, k: AssetName)
    ensures Amount(Single(p, n, amount).assets, q, k) == if p == q && n == k then amount else 0
  {
    var list := [NativeAsset(n, amount)];
    assert list[..0] == [];
    assert InList(list, k) == if n == k then amount else 0;
    var assets := Single(p, n, amount).assets;
    assert assets[..0] == [];
  }

  method AddPolicyPart(v: Value, x: PolicyDeltas, burn: bool) returns (r: Value)
    requires v.lovelace == 0
    requires forall n :: Amount(v.assets, x.policy, n) + DeltaPart(x.deltas, n, burn) <= U64_MAX
    requires forall p, n :: Amount(v.assets, p, n) <= U64_MAX
    ensures r.lovelace == 0
    ensures forall p, n :: Amount(r.assets, p, n) ==
                           Amount(v.assets, p, n) + (if p == x.policy then DeltaPart(x.deltas, n, burn) else 0)
  {
    r := v;
    assert forall n :: DeltaPart(x.deltas[..0], n, burn) == 0;
    for k := 0 to |x.deltas|
      invariant r.lovelace == 0
      invariant forall p, n :: Amount(r.assets, p, n) ==
                               Amount(v.assets, p, n) + (if p == x.policy then DeltaPart(x.deltas[..k], n, burn) else 0)
    {
      var d := x.deltas[k];
      assert x.deltas[..k + 1][..k] == x.deltas[..k];
      if (if burn then d.amount < 0 else d.amount > 0) {
        var one := Single(x.policy, d.name, Part(d.amount, burn));
        forall p, n ensures Amount(r.assets, p, n) + Amount(one.assets, p, n) <= U64_MAX {
          SingleAmount(x.policy, d.name, Part(d.amount, burn), p, n);
          DeltaPartPrefix(x.deltas, k + 1, n, burn);
        }
        forall p, n { SingleAmount(x.policy, d.name, Part(d.amount, burn), p, n); }
        r := AddAssign(r, one);
      }
    }
    assert x.deltas[..|x.deltas|] == x.deltas;
  }

  lemma MintPartNext(ps: seq<PolicyDeltas>, k: nat, p: PolicyId, n: AssetName, burn: bool)
    requires k < |ps|
    ensures MintPart(ps[..k + 1], p, n, burn) ==
            MintPart(ps[..k], p, n, burn) + (if p == ps[k].policy then DeltaPart(ps[k].deltas, n, burn) else 0)
  {
    assert ps[..k + 1][..k] == ps[..k];
  }

  /** The value so far holds the parts of the first `k` policies. */
  ghost predicate MintedSoFar(ps: seq<PolicyDeltas>, k: nat, v: Value, burn: bool)
    requires k <= |ps|
  {
    v.lovelace == 0 && forall p, n :: Amount(v.assets, p, n) == MintPart(ps[..k], p, n, burn)
  }

  lemma RoomForPolicy(ps: seq<PolicyDeltas>, k: nat, v: Value, p: PolicyId, n: AssetName, burn: bool)
    requires k < |ps| && MintedSoFar(ps, k, v, burn) && MintPart(ps, p, n, burn) <= U64_MAX
    ensures Amount(v.assets, p, n) + (if p == ps[k].policy then DeltaPart(ps[k].deltas, n, burn) else 0) <= U64_MAX
  {
    MintPartNext(ps, k, p, n, burn);
    MintPartPrefix(ps, k + 1, p, n, burn);
  }

  lemma MintedNext(ps: seq<PolicyDeltas>, k: nat, v: Value, r: Value, burn: bool)
    requires k < |ps| && MintedSoFar(ps, k, v, burn) && r.lovelace == 0
    requires forall p, n :: Amount(r.assets, p, n) ==
                            Amount(v.assets, p, n) + (if p == ps[k].policy then DeltaPart(ps[k].deltas, n, burn) else 0)
    ensures MintedSoFar(ps, k + 1, r, burn)
  {
    forall p, n ensures Amount(r.assets, p, n) == MintPart(ps[..k + 1], p, n, burn) {
      MintPartNext(ps, k, p, n, burn);
    }
  }

  /** The minted value, or with `burn` the burnt one, as a list form. */
  method GetMintedOrBurntValue(tx: Tx, burn: bool) returns (v: Value)
    requires forall p, n :: MintPart(MintDeltas(tx), p, n, burn) <= U64_MAX
    ensures v.lovelace == 0
    ensures forall p, n :: Amount(v.assets, p, n) == MintPart(MintDeltas(tx), p, n, burn)
  {
    v := ZERO_VALUE;
    if tx.mintBurnDeltas.None? {
      return;
    }
    var ps := tx.mintBurnDeltas.value;
    assert ps == MintDeltas(tx);
    for k := 0 to |ps|
      invariant MintedSoFar(ps, k, v, burn)
    {
      forall p, n ensures Amount(v.assets, p, n) + (if p == ps[k].policy then DeltaPart(ps[k].deltas, n, burn) else 0) <= U64_MAX {
        assert MintPart(MintDeltas(tx), p, n, burn) <= U64_MAX;
        RoomForPolicy(ps, k, v, p, n, burn);
      }
      ghost var before := v;
      v := AddPolicyPart(v, ps[k], burn);
      MintedNext(ps, k, before, v, burn);
    }
    assert ps[..|ps|] == ps;
  }

  // ---------------------------------------------------------------------------------
  // Many values together

  function Joined(vs: seq<Value>): seq<PolicyAssets> {
    if vs == [] then [] else Joined(vs[..|vs| - 1]) + vs[|vs| - 1].assets
  }

  function Lovelace(vs: seq<Value>): nat {
    if vs == [] then 0 else Lovelace(vs[..|vs| - 1]) + vs[|vs| - 1].lovelace
  }

  /** The values of the inputs that are in the UTXO set, in order. */
  function Inputs(consumes: seq<UTxOIdentifier>, utxos: Utxos): seq<Value> {
    if consumes == [] then [] else
    var last := consumes[|consumes| - 1];
    Inputs(consumes[..|consumes| - 1], utxos) + (if last in utxos then [utxos[last]] else [])
  }

  lemma {:induction false} JoinMeaning(a: seq<PolicyAssets>, b: seq<PolicyAssets>, p: PolicyId, n: AssetName)
    ensures Amount(a + b, p, n) == Amount(a, p, n) + Amount(b, p, n)
    ensures Names(a + b, p) == Names(a, p) + Names(b, p)
  {
    if b == [] {
      assert a + b == a;
    } else {
      var last := |b| - 1;
      JoinMeaning(a, b[..last], p, n);
      assert a + b == (a + b[..last]) + [b[last]];
      AmountAppend(a + b[..last], b[last], p, n);
    }
  }

  lemma {:induction false} JoinPolicies(a: seq<PolicyAssets>, b: seq<PolicyAssets>)
    ensures Policies(a + b) == Policies(a) + Policies(b)
  {
    if b == [] {
      assert a + b == a;
    } else {
      var last := |b| - 1;
      JoinPolicies(a, b[..last]);
      assert a + b == (a + b[..last]) + [b[last]];
      assert b == b[..last] + [b[last]];
      PoliciesAppend(a + b[..last], b[last]);
      PoliciesAppend(b[..last], b[last]);
    }
  }

  lemma SaturatedAmountTwice(m: map<PolicyId, AssetMap>, a: seq<PolicyAssets>, b: seq<PolicyAssets>,
                             m1: map<PolicyId, AssetMap>, m2: map<PolicyId, AssetMap>, p: PolicyId, n: AssetName)
    requires MapAmount(m1, p, n) == Min(MapAmount(m, p, n) + Amount(a, p, n), U64_MAX)
    requires MapAmount(m2, p, n) == Min(MapAmount(m1, p, n) + Amount(b, p, n), U64_MAX)
    ensures MapAmount(m2, p, n) == Min(MapAmount(m, p, n) + Amount(a + b, p, n), U64_MAX)
  {
    JoinMeaning(a, b, p, n);
  }

  /** Adding one list and then another is adding them joined: cutting at the word twice is cutting once. */
  lemma SaturatedTwice(m: map<PolicyId, AssetMap>, a: seq<PolicyAssets>, b: seq<PolicyAssets>,
                       m1: map<PolicyId, AssetMap>, m2: map<PolicyId, AssetMap>)
    requires SaturatedSum(m, a, m1) && SaturatedSum(m1, b, m2)
    ensures SaturatedSum(m, a + b, m2)
  {
    JoinPolicies(a, b);
    forall p, n ensures MapAmount(m2, p, n) == Min(MapAmount(m, p, n) + Amount(a + b, p, n), U64_MAX) {
      SaturatedAmountTwice(m, a, b, m1, m2, p, n);
    }
    forall p ensures MapNames(m2, p) == MapNames(m, p) + Names(a + b, p) {
      JoinMeaning(a, b, p, []);
    }
  }

  /** `m` is the saturated total of the values. */
  ghost predicate TotalOf(vs: seq<Value>, m: ValueMap) {
    m.lovelace == Min(Lovelace(vs), U64_MAX) && SaturatedSum(map[], Joined(vs), m.assets)
  }

  lemma TotalOfAppend(vs: seq<Value>, v: Value, m: ValueMap, m': ValueMap)
    requires TotalOf(vs, m)
    requires m'.lovelace == Min(m.lovelace + v.lovelace, U64_MAX) && SaturatedSum(m.assets, v.assets, m'.assets)
    ensures TotalOf(vs + [v], m')
  {
    assert (vs + [v])[..|vs|] == vs;
    SaturatedTwice(map[], Joined(vs), v.assets, m.assets, m'.assets);
  }

  method AddInputs(tx: Tx, utxos: Utxos) returns (total: ValueMap)
    ensures TotalOf(Inputs(tx.consumes, utxos), total)
  {
    total := ZERO_MAP;
    for k := 0 to |tx.consumes|
      invariant TotalOf(Inputs(tx.consumes[..k], utxos), total)
    {
      var input := tx.consumes[k];
      assert tx.consumes[..k + 1][..k] == tx.consumes[..k];
      if input in utxos {
        ghost var before := total;
        total := AddValue(total, utxos[input]);
        TotalOfAppend(Inputs(tx.consumes[..k], utxos), utxos[input], before, total);
      } else {
        assert Inputs(tx.consumes[..k + 1], utxos) == Inputs(tx.consumes[..k], utxos);
      }
    }
    assert tx.consumes[..|tx.consumes|] == tx.consumes;
  }

  method AddOutputs(tx: Tx) returns (total: ValueMap)
    ensures TotalOf(tx.produces, total)
  {
    total := ZERO_MAP;
    for k := 0 to |tx.produces|
      invariant TotalOf(tx.produces[..k], total)
    {
      ghost var before := total;
      assert tx.produces[..k + 1] == tx.produces[..k] + [tx.produces[k]];
      total := AddValue(total, tx.produces[k]);
      TotalOfAppend(tx.produces[..k], tx.produces[k], before, total);
    }
    assert tx.produces[..|tx.produces|] == tx.produces;
  }

  // ---------------------------------------------------------------------------------
  // The two sides of a valid transaction

  function InLovelace(tx: Tx, stake: seq<StakeUpdate>, utxos: Utxos): nat {
    Lovelace(Inputs(tx.consumes, utxos)) + Refunds(tx, stake) + Withdrawals(tx)
  }

  function Donation(tx: Tx): U64 {
    if tx.donation.Some? then tx.donation.value else 0
  }

  function OutLovelace(tx: Tx, pools: seq<PoolUpdate>, stake: seq<StakeUpdate>): nat {
    Lovelace(tx.produces) + Deposits(tx, pools, stake) + tx.fee + Donation(tx)
  }

  function InAmount(tx: Tx, utxos: Utxos, p: PolicyId, n: AssetName): nat {
    Amount(Joined(Inputs(tx.consumes, utxos)), p, n)
  }

  function OutAmount(tx: Tx, p: PolicyId, n: AssetName): nat {
    Amount(Joined(tx.produces), p, n)
  }

  // ---------------------------------------------------------------------------------
  // The sides, counted by position

  ghost function LovelaceTerm(vs: seq<Value>): int -> int {
    i => if 0 <= i < |vs| then vs[i].lovelace else 0
  }

  ghost function AssetTerm(vs: seq<Value>, p: PolicyId, n: AssetName): int -> int {
    i => if 0 <= i < |vs| then Amount(vs[i].assets, p, n) else 0
  }

  lemma {:induction false} LovelaceByPosition(vs: seq<Value>)
    ensures Lovelace(vs) == SumOver(Below(|vs|), LovelaceTerm(vs))
  {
    if vs != [] {
      var last := |vs| - 1;
      LovelaceByPosition(vs[..last]);
      NextPosition(last, LovelaceTerm(vs[..last]), LovelaceTerm(vs));
    }
  }

  lemma JoinedNext(vs: seq<Value>, p: PolicyId, n: AssetName)
    requires vs != []
    ensures Amount(Joined(vs), p, n) ==
            Amount(Joined(vs[..|vs| - 1]), p, n) + Amount(vs[|vs| - 1].assets, p, n)
  {
    JoinMeaning(Joined(vs[..|vs| - 1]), vs[|vs| - 1].assets, p, n);
  }

  lemma AssetNext(vs: seq<Value>, p: PolicyId, n: AssetName)
    requires vs != []
    ensures SumOver(Below(|vs|), AssetTerm(vs, p, n)) ==
            SumOver(Below(|vs| - 1), AssetTerm(vs[..|vs| - 1], p, n)) + Amount(vs[|vs| - 1].assets, p, n)
  {
    var last := |vs| - 1;
    NextPosition(last, AssetTerm(vs[..last], p, n), AssetTerm(vs, p, n));
  }

  lemma {:induction false} AssetsByPosition(vs: seq<Value>, p: PolicyId, n: AssetName)
    ensures Amount(Joined(vs), p, n) == SumOver(Below(|vs|), AssetTerm(vs, p, n))
  {
    if vs != [] {
      AssetsByPosition(vs[..|vs| - 1], p, n);
      JoinedNext(vs, p, n);
      AssetNext(vs, p, n);
    }
  }

  /** The value an input spends, or nothing when the UTXO set does not have it. */
  function Spent(consumes: seq<UTxOIdentifier>, utxos: Utxos, i: int): Value {
    if 0 <= i < |consumes| && consumes[i] in utxos then utxos[consumes[i]] else ZERO_VALUE
  }

  ghost function SpentLovelace(consumes: seq<UTxOIdentifier>, utxos: Utxos): int -> int {
    i => Spent(consumes, utxos, i).lovelace
  }

  ghost function SpentAsset(consumes: seq<UTxOIdentifier>, utxos: Utxos, p: PolicyId, n: AssetName): int -> int {
    i => Amount(Spent(consumes, utxos, i).assets, p, n)
  }

  lemma InputLovelaceNext(consumes: seq<UTxOIdentifier>, utxos: Utxos)
    requires consumes != []
    ensures Lovelace(Inputs(consumes, utxos)) ==
            Lovelace(Inputs(consumes[..|consumes| - 1], utxos)) + Spent(consumes, utxos, |consumes| - 1).lovelace
  {
    var last := |consumes| - 1;
    var before := Inputs(consumes[..last], utxos);
    if consumes[last] in utxos {
      assert (before + [utxos[consumes[last]]])[..|before|] == before;
    } else {
      assert before + [] == before;
    }
  }

  lemma InputAssetsNext(consumes: seq<UTxOIdentifier>, utxos: Utxos, p: PolicyId, n: AssetName)
    requires consumes != []
    ensures Amount(Joined(Inputs(consumes, utxos)), p, n) ==
            Amount(Joined(Inputs(consumes[..|consumes| - 1], utxos)), p, n) +
            Amount(Spent(consumes, utxos, |consumes| - 1).assets, p, n)
  {
    var last := |consumes| - 1;
    var before := Inputs(consumes[..last], utxos);
    if consumes[last] in utxos {
      var v := utxos[consumes[last]];
      assert (before + [v])[..|before|] == before;
      JoinMeaning(Joined(before), v.assets, p, n);
    } else {
      assert before + [] == before;
    }
  }

  lemma SpentNext(consumes: seq<UTxOIdentifier>, utxos: Utxos, p: PolicyId, n: AssetName)
    requires consumes != []
    ensures var (last, front) := (|consumes| - 1, consumes[..|consumes| - 1]);
            SumOver(Below(|consumes|), SpentAsset(consumes, utxos, p, n)) ==
            SumOver(Below(last), SpentAsset(front, utxos, p, n)) + Amount(Spent(consumes, utxos, last).assets, p, n)
  {
    var last := |consumes| - 1;
    NextPosition(last, SpentAsset(consumes[..last], utxos, p, n), SpentAsset(consumes, utxos, p, n));
  }

  lemma SpentLovelaceNext(consumes: seq<UTxOIdentifier>, utxos: Utxos)
    requires consumes != []
    ensures var (last, front) := (|consumes| - 1, consumes[..|consumes| - 1]);
            SumOver(Below(|consumes|), SpentLovelace(consumes, utxos)) ==
            SumOver(Below(last), SpentLovelace(front, utxos)) + Spent(consumes, utxos, last).lovelace
  {
    var last := |consumes| - 1;
    NextPosition(last, SpentLovelace(consumes[..last], utxos), SpentLovelace(consumes, utxos));
  }

  lemma {:induction false} InputLovelaceByPosition(consumes: seq<UTxOIdentifier>, utxos: Utxos)
    ensures Lovelace(Inputs(consumes, utxos)) == SumOver(Below(|consumes|), SpentLovelace(consumes, utxos))
  {
    if consumes != [] {
      InputLovelaceByPosition(consumes[..|consumes| - 1], utxos);
      InputLovelaceNext(consumes, utxos);
      SpentLovelaceNext(consumes, utxos);
    }
  }

  lemma {:induction false} InputAssetsByPosition(consumes: seq<UTxOIdentifier>, utxos: Utxos, p: PolicyId, n: AssetName)
    ensures Amount(Joined(Inputs(consumes, utxos)), p, n) == SumOver(Below(|consumes|), SpentAsset(consumes, utxos, p, n))
  {
    if consumes != [] {
      InputAssetsByPosition(consumes[..|consumes| - 1], utxos, p, n);
      InputAssetsNext(consumes, utxos, p, n);
      SpentNext(consumes, utxos, p, n);
    }
  }

  ghost function DeltaTerm(deltas: seq<AssetDelta>, n: AssetName): int -> int {
    j => if 0 <= j < |deltas| && deltas[j].name == n then deltas[j].amount else 0
  }

  ghost function DeltaPartTerm(deltas: seq<AssetDelta>, n: AssetName, burn: bool): int -> int {
    j => if 0 <= j < |deltas| && deltas[j].name == n
         then Max(0, if burn then 0 - deltas[j].amount else deltas[j].amount) else 0
  }

  ghost function MintTerm(ps: seq<PolicyDeltas>, p: PolicyId, n: AssetName): int -> int {
    i => if 0 <= i < |ps| && ps[i].policy == p then DeltaSum(ps[i].deltas, n) else 0
  }

  ghost function MintPartTerm(ps: seq<PolicyDeltas>, p: PolicyId, n: AssetName, burn: bool): int -> int {
    i => if 0 <= i < |ps| && ps[i].policy == p then DeltaPart(ps[i].deltas, n, burn) else 0
  }

  /** The signed sum of one list's entries for a name. */
  lemma {:induction false} DeltaSumByPosition(deltas: seq<AssetDelta>, n: AssetName)
    ensures DeltaSum(deltas, n) == SumOver(Below(|deltas|), DeltaTerm(deltas, n))
  {
    if deltas != [] {
      var last := |deltas| - 1;
      DeltaSumByPosition(deltas[..last], n);
      NextPosition(last, DeltaTerm(deltas[..last], n), DeltaTerm(deltas, n));
    }
  }

  /** The sum of the positive parts of one list's entries for a name, or of the negative ones. */
  lemma {:induction false} DeltaPartByPosition(deltas: seq<AssetDelta>, n: AssetName, burn: bool)
    ensures DeltaPart(deltas, n, burn) == SumOver(Below(|deltas|), DeltaPartTerm(deltas, n, burn))
  {
    if deltas != [] {
      var last := |deltas| - 1;
      DeltaPartByPosition(deltas[..last], n, burn);
      NextPosition(last, DeltaPartTerm(deltas[..last], n, burn), DeltaPartTerm(deltas, n, burn));
    }
  }

  lemma {:induction false} MintSumByPosition(ps: seq<PolicyDeltas>, p: PolicyId, n: AssetName)
    ensures MintSum(ps, p, n) == SumOver(Below(|ps|), MintTerm(ps, p, n))
  {
    if ps != [] {
      var last := |ps| - 1;
      MintSumByPosition(ps[..last], p, n);
      NextPosition(last, MintTerm(ps[..last], p, n), MintTerm(ps, p, n));
    }
  }

  lemma {:induction false} MintPartByPosition(ps: seq<PolicyDeltas>, p: PolicyId, n: AssetName, burn: bool)
    ensures MintPart(ps, p, n, burn) == SumOver(Below(|ps|), MintPartTerm(ps, p, n, burn))
  {
    if ps != [] {
      var last := |ps| - 1;
      MintPartByPosition(ps[..last], p, n, burn);
      NextPosition(last, MintPartTerm(ps[..last], p, n, burn), MintPartTerm(ps, p, n, burn));
    }
  }

  /**
   Both sides from the transaction alone: every known input, refund and withdrawal counted
   once, and every output, deposit, the fee and the donation counted once.
   */
  lemma SidesByPosition(tx: Tx, pools: seq<PoolUpdate>, stake: seq<StakeUpdate>, utxos: Utxos, p: PolicyId, n: AssetName)
    ensures InLovelace(tx, stake, utxos) ==
            SumOver(Below(|tx.consumes|), SpentLovelace(tx.consumes, utxos)) + RefundsCounted(tx, stake) +
            (match tx.withdrawals case None => 0 case Some(ws) => SumOver(Below(|ws|), ElementTerm(ws)))
    ensures OutLovelace(tx, pools, stake) ==
            SumOver(Below(|tx.produces|), LovelaceTerm(tx.produces)) + DepositsCounted(tx, pools, stake) + tx.fee +
            (match tx.donation case None => 0 case Some(d) => d)
    ensures InAmount(tx, utxos, p, n) == SumOver(Below(|tx.consumes|), SpentAsset(tx.consumes, utxos, p, n))
    ensures OutAmount(tx, p, n) == SumOver(Below(|tx.produces|), AssetTerm(tx.produces, p, n))
    ensures MintSum(MintDeltas(tx), p, n) ==
            match tx.mintBurnDeltas case None => 0 case Some(ps) => SumOver(Below(|ps|), MintTerm(ps, p, n))
  {
    InputLovelaceByPosition(tx.consumes, utxos);
    InputAssetsByPosition(tx.consumes, utxos, p, n);
    LovelaceByPosition(tx.produces);
    AssetsByPosition(tx.produces, p, n);
    LovelaceCounted(tx, pools, stake);
    if tx.withdrawals.Some? {
      TotalByPosition(tx.withdrawals.value);
    }
    MintSumByPosition(MintDeltas(tx), p, n);
  }

  /** Everything the transaction moves fits the word, so no addition is cut or wraps. */
  ghost predicate WithinSupply(tx: Tx, pools: seq<PoolUpdate>, stake: seq<StakeUpdate>, utxos: Utxos) {
    && InLovelace(tx, stake, utxos) <= U64_MAX
    && OutLovelace(tx, pools, stake) <= U64_MAX
    && (forall p, n :: InAmount(tx, utxos, p, n) + MintPart(MintDeltas(tx), p, n, false) <= U64_MAX)
    && (forall p, n :: OutAmount(tx, p, n) + MintPart(MintDeltas(tx), p, n, true) <= U64_MAX)
  }

  /** Preservation of value: lovelace in equals lovelace out, and every asset's inputs plus its mint equal its outputs. */
  ghost predicate ValuePreserved(tx: Tx, pools: seq<PoolUpdate>, stake: seq<StakeUpdate>, utxos: Utxos) {
    && InLovelace(tx, stake, utxos) == OutLovelace(tx, pools, stake)
    && (forall p, n :: InAmount(tx, utxos, p, n) + MintSum(MintDeltas(tx), p, n) == OutAmount(tx, p, n))
  }

  ghost predicate IsConsumed(tx: Tx, stake: seq<StakeUpdate>, utxos: Utxos, m: ValueMap) {
    && Normal(m)
    && m.lovelace == InLovelace(tx, stake, utxos)
    && (forall p, n :: MapAmount(m.assets, p, n) == InAmount(tx, utxos, p, n) + MintPart(MintDeltas(tx), p, n, false))
  }

  ghost predicate IsProduced(tx: Tx, pools: seq<PoolUpdate>, stake: seq<StakeUpdate>, m: ValueMap) {
    && Normal(m)
    && m.lovelace == OutLovelace(tx, pools, stake)
    && (forall p, n :: MapAmount(m.assets, p, n) == OutAmount(tx, p, n) + MintPart(MintDeltas(tx), p, n, true))
  }

  lemma SaturatedAmount(m: map<PolicyId, AssetMap>, assets: seq<PolicyAssets>, r: map<PolicyId, AssetMap>,
                        p: PolicyId, n: AssetName)
    requires SaturatedSum(m, assets, r) && MapAmount(m, p, n) + Amount(assets, p, n) <= U64_MAX
    ensures MapAmount(r, p, n) == MapAmount(m, p, n) + Amount(assets, p, n)
  {
  }

  /**
   Total consumed value. A valid transaction's is brought to normal form; a failed one
   consumes its collateral inputs, as they come.
   */
  method CalculateTotalConsumed(tx: Tx, stake: seq<StakeUpdate>, utxos: Utxos,
                                ghost pools: seq<PoolUpdate>) returns (total: ValueMap)
    requires tx.isValid ==> WithinSupply(tx, pools, stake, utxos)
    ensures tx.isValid ==> IsConsumed(tx, stake, utxos, total)
    ensures !tx.isValid ==> TotalOf(Inputs(tx.consumes, utxos), total)
  {
    total := AddInputs(tx, utxos);
    if !tx.isValid {
      return;
    }
    ghost var inputs := total;
    var refund := CalculateTotalRefund(tx, stake);
    var withdrawals := CalculateTotalWithdrawals(tx);
    total := AddValue(total, Value(refund + withdrawals, []));
    ghost var withCoin := total;
    forall p, n ensures MintPart(MintDeltas(tx), p, n, false) <= U64_MAX {
      assert InAmount(tx, utxos, p, n) + MintPart(MintDeltas(tx), p, n, false) <= U64_MAX;
    }
    var minted := GetMintedOrBurntValue(tx, false);
    total := AddValue(total, minted);
    forall p, n ensures MapAmount(total.assets, p, n) == InAmount(tx, utxos, p, n) + MintPart(MintDeltas(tx), p, n, false) {
      assert InAmount(tx, utxos, p, n) + MintPart(MintDeltas(tx), p, n, false) <= U64_MAX;
      SaturatedAmount(map[], Joined(Inputs(tx.consumes, utxos)), inputs.assets, p, n);
      SaturatedAmount(inputs.assets, [], withCoin.assets, p, n);
      SaturatedAmount(withCoin.assets, minted.assets, total.assets, p, n);
    }
    RemoveZeroAmountsNormalizes(total);
    total := RemoveZeroAmounts(total);
  }

  /**
   Total produced value. A failed transaction produces its outputs and the stated total
   collateral, or without a stated amount just what it consumed.
   */
  method CalculateTotalProduced(tx: Tx, pools: seq<PoolUpdate>, stake: seq<StakeUpdate>, utxos: Utxos)
    returns (total: ValueMap)
    requires tx.isValid ==> WithinSupply(tx, pools, stake, utxos)
    ensures tx.isValid ==> IsProduced(tx, pools, stake, total)
    ensures !tx.isValid && tx.statedTotalCollateral.Some? ==>
              TotalOf(tx.produces + [Value(tx.statedTotalCollateral.value, [])], total)
    ensures !tx.isValid && tx.statedTotalCollateral.None? ==> TotalOf(Inputs(tx.consumes, utxos), total)
  {
    total := AddOutputs(tx);
    ghost var outputs := total;
    if !tx.isValid {
      match tx.statedTotalCollateral
      case Some(collateral) =>
        total := AddValue(total, Value(collateral, []));
        TotalOfAppend(tx.produces, Value(collateral, []), outputs, total);
        return;
      case None =>
        total := AddInputs(tx, utxos);
        return;
    }
    var deposit := CalculateTotalDeposit(tx, pools, stake);
    total := AddValue(total, Value(deposit + tx.fee, []));
    ghost var withCoin := total;
    forall p, n ensures MintPart(MintDeltas(tx), p, n, true) <= U64_MAX {
      assert OutAmount(tx, p, n) + MintPart(MintDeltas(tx), p, n, true) <= U64_MAX;
    }
    var burnt := GetMintedOrBurntValue(tx, true);
    total := AddValue(total, burnt);
    ghost var withBurnt := total;
    if tx.donation.Some? {
      total := AddValue(total, Value(tx.donation.value, []));
    }
    forall p, n ensures MapAmount(total.assets, p, n) == OutAmount(tx, p, n) + MintPart(MintDeltas(tx), p, n, true) {
      assert OutAmount(tx, p, n) + MintPart(MintDeltas(tx), p, n, true) <= U64_MAX;
      SaturatedAmount(map[], Joined(tx.produces), outputs.assets, p, n);
      SaturatedAmount(outputs.assets, [], withCoin.assets, p, n);
      SaturatedAmount(withCoin.assets, burnt.assets, withBurnt.assets, p, n);
      if tx.donation.Some? {
        SaturatedAmount(withBurnt.assets, [], total.assets, p, n);
      }
    }
    RemoveZeroAmountsNormalizes(total);
    total := RemoveZeroAmounts(total);
  }

  /** Comparing the two maps decides preservation of value. */
  lemma BalanceDecidesPreservation(tx: Tx, pools: seq<PoolUpdate>, stake: seq<StakeUpdate>, utxos: Utxos,
                                   consumed: ValueMap, produced: ValueMap)
    requires IsConsumed(tx, stake, utxos, consumed) && IsProduced(tx, pools, stake, produced)
    ensures consumed == produced <==> ValuePreserved(tx, pools, stake, utxos)
  {
    NormalEquality(consumed, produced);
    forall p, n
      ensures MapAmount(consumed.assets, p, n) == MapAmount(produced.assets, p, n) <==>
              InAmount(tx, utxos, p, n) + MintSum(MintDeltas(tx), p, n) == OutAmount(tx, p, n)
    {
      MintSplits(MintDeltas(tx), p, n);
    }
    if ValuePreserved(tx, pools, stake, utxos) {
      forall p, n ensures MapAmount(consumed.assets, p, n) == MapAmount(produced.assets, p, n) {
        assert InAmount(tx, utxos, p, n) + MintSum(MintDeltas(tx), p, n) == OutAmount(tx, p, n);
      }
    }
    if consumed == produced {
      forall p, n ensures InAmount(tx, utxos, p, n) + MintSum(MintDeltas(tx), p, n) == OutAmount(tx, p, n) {
        assert MapAmount(consumed.assets, p, n) == MapAmount(produced.assets, p, n);
      }
    }
  }

  // ---------------------------------------------------------------------------------
  // Failed transactions

  /** The two sides have the same amounts and also mention the same policies and names. */
  ghost predicate SameTotals(inputs: seq<Value>, outputs: seq<Value>) {
    && Lovelace(inputs) == Lovelace(outputs)
    && Policies(Joined(inputs)) == Policies(Joined(outputs))
    && (forall p :: Names(Joined(inputs), p) == Names(Joined(outputs), p))
    && (forall p, n :: Min(Amount(Joined(inputs), p, n), U64_MAX) == Min(Amount(Joined(outputs), p, n), U64_MAX))
  }

  /**
   A failed transaction's sides are compared without removing zeros. They are equal if and
   only if lovelace and amounts agree and both sides mention the same policies and names.
   */
  lemma FailedBalance(inputs: seq<Value>, outputs: seq<Value>, consumed: ValueMap, produced: ValueMap)
    requires TotalOf(inputs, consumed) && TotalOf(outputs, produced)
    requires Lovelace(inputs) <= U64_MAX && Lovelace(outputs) <= U64_MAX
    ensures consumed == produced <==> SameTotals(inputs, outputs)
  {
    var a, b := Joined(inputs), Joined(outputs);
    assert MapOf(a, consumed.assets) && MapOf(b, produced.assets);
    if consumed == produced {
      forall p, n ensures Min(Amount(a, p, n), U64_MAX) == Min(Amount(b, p, n), U64_MAX) {
        assert MapAmount(consumed.assets, p, n) == Min(Amount(a, p, n), U64_MAX);
      }
      forall p ensures Names(a, p) == Names(b, p) {
        assert MapNames(consumed.assets, p) == Names(a, p);
      }
    }
    if SameTotals(inputs, outputs) {
      forall p, n ensures MapAmount(consumed.assets, p, n) == MapAmount(produced.assets, p, n) {
        assert Min(Amount(a, p, n), U64_MAX) == Min(Amount(b, p, n), U64_MAX);
      }
      MapExtensional(consumed.assets, produced.assets);
    }
  }

  /** What a failed transaction with a stated collateral sends on. */
  function Collected(tx: Tx): seq<Value> {
    tx.produces + (if tx.statedTotalCollateral.Some? then [Value(tx.statedTotalCollateral.value, [])] else [])
  }

  /** What the ledger asks of the two sides, for valid and failed transactions. */
  ghost predicate Balanced(tx: Tx, pools: seq<PoolUpdate>, stake: seq<StakeUpdate>, utxos: Utxos) {
    if tx.isValid then ValuePreserved(tx, pools, stake, utxos)
    else tx.statedTotalCollateral.Some? ==> SameTotals(Inputs(tx.consumes, utxos), Collected(tx))
  }

  ghost predicate AnyWithinSupply(tx: Tx, pools: seq<PoolUpdate>, stake: seq<StakeUpdate>, utxos: Utxos) {
    if tx.isValid then WithinSupply(tx, pools, stake, utxos)
    else Lovelace(Inputs(tx.consumes, utxos)) <= U64_MAX && Lovelace(Collected(tx)) <= U64_MAX
  }

  datatype UtxoError = BadInput(index: nat) | ValueNotConserved

  method Sides(tx: Tx, pools: seq<PoolUpdate>, stake: seq<StakeUpdate>, utxos: Utxos)
    returns (consumed: ValueMap, produced: ValueMap)
    requires AnyWithinSupply(tx, pools, stake, utxos)
    ensures consumed == produced <==> Balanced(tx, pools, stake, utxos)
  {
    consumed := CalculateTotalConsumed(tx, stake, utxos, pools);
    produced := CalculateTotalProduced(tx, pools, stake, utxos);
    if tx.isValid {
      BalanceDecidesPreservation(tx, pools, stake, utxos, consumed, produced);
    } else if tx.statedTotalCollateral.Some? {
      FailedBalance(Inputs(tx.consumes, utxos), Collected(tx), consumed, produced);
    } else {
      MapOfUnique(Joined(Inputs(tx.consumes, utxos)), consumed.assets, produced.assets);
    }
  }

  /** The ledger rule: every input is known and the sides balance, or the reason why not. */
  method Validate(tx: Tx, pools: seq<PoolUpdate>, stake: seq<StakeUpdate>, utxos: Utxos) returns (r: Result<(), UtxoError>)
    requires AnyWithinSupply(tx, pools, stake, utxos)
    ensures r.Ok? <==> (forall i | 0 <= i < |tx.consumes| :: tx.consumes[i] in utxos) && Balanced(tx, pools, stake, utxos)
    ensures r.Err? && r.error.BadInput? ==>
              && r.error.index < |tx.consumes| && tx.consumes[r.error.index] !in utxos
              && forall i | 0 <= i < r.error.index :: tx.consumes[i] in utxos
  {
    var consumed, produced := Sides(tx, pools, stake, utxos);
    for i := 0 to |tx.consumes|
      invariant forall j | 0 <= j < i :: tx.consumes[j] in utxos
    {
      if tx.consumes[i] !in utxos {
        return Err(BadInput(i));
      }
    }
    r := if consumed == produced then Ok(()) else Err(ValueNotConserved);
  }

  /** The same amounts on both sides need not give equal maps: one side may mention a policy with no assets. */
  lemma FailedBalanceNeedsSamePolicies(policy: PolicyId, consumed: ValueMap, produced: ValueMap)
    requires TotalOf([Value(5, [])], consumed)
    requires TotalOf([Value(0, [PolicyAssets(policy, [])]), Value(5, [])], produced)
    ensures consumed.lovelace == produced.lovelace
    ensures forall p, n :: MapAmount(consumed.assets, p, n) == MapAmount(produced.assets, p, n)
    ensures consumed != produced
  {
    var policyOnly := Value(0, [PolicyAssets(policy, [])]);
    var ins, outs := [Value(5, [])], [policyOnly, Value(5, [])];
    TwoValues(policyOnly, Value(5, []));
    assert ins[..0] == [];
    assert Joined(ins) == [] && Joined(outs) == [PolicyAssets(policy, [])];
    EmptyPolicy(policy);
    assert policy in produced.assets && policy !in consumed.assets;
  }

  lemma TwoValues(x: Value, y: Value)
    ensures Lovelace([x, y]) == x.lovelace + y.lovelace
    ensures Joined([x, y]) == x.assets + y.assets
  {
    assert [x, y][..1] == [x] && [x][..0] == [];
    assert Lovelace([x]) == x.lovelace && Joined([x]) == x.assets;
  }

  lemma EmptyPolicy(policy: PolicyId)
    ensures var assets := [PolicyAssets(policy, [])];
            policy in Policies(assets) && forall p, n :: Amount(assets, p, n) == 0
  {
    var assets := [PolicyAssets(policy, [])];
    assert assets[0].policy in Policies(assets);
    assert assets[..0] == [];
  }
}
