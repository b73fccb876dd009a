/** What every run of the claim store keeps.

    A run is any finite sequence of operations by any number of clients, including refused ones and
    rows edited out of band. The invariant below holds in every reachable state; the theorems about
    exclusivity, the complete log and fencing are read off it. */
module ClaimRuns {
  import opened Prelude
  import opened ClaimSpec

  datatype Op =
    | AcquireOp(c: Claim, keys: seq<Key>, expected: nat)
    | ExpireOp(now: real)
    | TransitionOp(id: Id, run: Id, driver: Id, gen: nat, change: Change, now: real)
    | ReceiptOp(receipt: ReceiptId)
    | OutOfBandOp(id: Id)

  /** A manual UPDATE that marks a claim released without going through the store. */
  function OutOfBand(s: Store, id: Id): Store {
    if id in s.claims then s.(claims := s.claims[id := s.claims[id].(state := Released)]) else s
  }

  function Step(s: Store, op: Op): Store {
    match op
    case AcquireOp(c, keys, expected) => Acquire(s, c, keys, expected).0
    case ExpireOp(now) => Expire(s, now)
    case TransitionOp(id, run, driver, gen, change, now) => Transition(s, id, run, driver, gen, change, now).0
    case ReceiptOp(receipt) => ConsumeReceipt(s, receipt).0
    case OutOfBandOp(id) => OutOfBand(s, id)
  }

  function Run(s: Store, ops: seq<Op>): Store
    decreases |ops|
  {
    if ops == [] then s else Run(Step(s, ops[0]), ops[1..])
  }

  // ---- The invariant ----

  /** Keys, scan order and owners agree with the claims table. */
  ghost predicate TablesMatch(s: Store) {
    && Distinct(s.rows)
    && (forall id :: id in s.rows <==> id in s.claims)
    && (forall id <- s.claims :: s.claims[id].claimId == id)
    && (forall k <- s.resources :: s.resources[k] in s.claims)
  }

  /** Row i of the log carries generation i + 1, and a claim's generation is the row that last wrote it. */
  ghost predicate LogMatches(s: Store) {
    && |s.history| == s.generation
    && (forall i :: 0 <= i < |s.history| ==> s.history[i].generation == i + 1)
    && (forall id <- s.claims ::
          1 <= s.claims[id].generation <= |s.history| && s.history[s.claims[id].generation - 1].claimId == id)
  }

  ghost predicate OneLivePerRun(s: Store) {
    forall a, b :: LiveId(s, a) && LiveId(s, b) && a != b ==>
      s.claims[a].issueId != s.claims[b].issueId && s.claims[a].runId != s.claims[b].runId
  }

  ghost predicate Inv(s: Store) {
    TablesMatch(s) && LogMatches(s) && OneLivePerRun(s)
  }

  // ---- Expiry ----

  lemma {:induction false} LapsedRowsDistinct(s: Store, rows: seq<Id>, now: real)
    requires Distinct(rows)
    ensures Distinct(LapsedRows(s, rows, now))
  {
    if rows != [] {
      LapsedRowsDistinct(s, rows[1..], now);
    }
  }

  lemma {:induction false} ExpireRowsExact(s: Store, ids: seq<Id>, now: real)
    requires forall id <- ids :: id in s.claims
    ensures forall id <- s.claims ::
      ExpireRows(s, ids, now).claims[id] ==
        if id in ids then s.claims[id].(state := ExpiredPending) else s.claims[id]
    ensures s.history <= ExpireRows(s, ids, now).history
    decreases |ids|
  {
    if ids != [] {
      ExpireRowsExact(ExpireOne(s, ids[0], now), ids[1..], now);
      assert forall id :: id in ids <==> id == ids[0] || id in ids[1..];
    }
  }

  lemma {:induction false} ExpireRowsKeepsLog(s: Store, ids: seq<Id>, now: real)
    requires LogMatches(s) && forall id <- ids :: id in s.claims
    ensures LogMatches(ExpireRows(s, ids, now))
    decreases |ids|
  {
    if ids != [] {
      ExpireRowsKeepsLog(ExpireOne(s, ids[0], now), ids[1..], now);
    }
  }

  ghost function LapsedSet(s: Store, now: real): set<Id> {
    set id | id in s.claims && LapsedAt(s, id, now)
  }

  /** Expiry relabels exactly the lapsed active claims, one generation each, and frees nothing. */
  lemma ExpireExact(s: Store, now: real)
    requires TablesMatch(s)
    ensures var e := Expire(s, now);
      && e.generation == s.generation + |LapsedSet(s, now)|
      && e.claims.Keys == s.claims.Keys && e.resources == s.resources && e.rows == s.rows && e.receipts == s.receipts
      && (forall id <- s.claims :: e.claims[id] ==
            if LapsedAt(s, id, now) then s.claims[id].(state := ExpiredPending) else s.claims[id])
      && s.history <= e.history
  {
    LapsedRowsDistinct(s, s.rows, now);
    DistinctSize(LapsedRows(s, s.rows, now));
    assert Elems(LapsedRows(s, s.rows, now)) == LapsedSet(s, now);
    ExpireRowsExact(s, LapsedRows(s, s.rows, now), now);
  }

  /** No lease that lapses ever stops excluding other claims. */
  lemma ExpireKeepsLiveness(s: Store, now: real)
    requires TablesMatch(s)
    ensures forall id :: LiveId(Expire(s, now), id) <==> LiveId(s, id)
    ensures TablesMatch(Expire(s, now))
  {
    hide Expire;
    ExpireExact(s, now);
  }

  lemma ExpireKeepsOneLive(s: Store, now: real)
    requires TablesMatch(s) && OneLivePerRun(s)
    ensures OneLivePerRun(Expire(s, now))
  {
    hide Expire, TablesMatch;
    ExpireExact(s, now);
    ExpireKeepsLiveness(s, now);
  }

  lemma ExpireKeepsLog(s: Store, now: real)
    requires LogMatches(s)
    ensures LogMatches(Expire(s, now))
  {
    hide LogMatches;
    ExpireRowsKeepsLog(s, LapsedRows(s, s.rows, now), now);
  }

  lemma ExpireKeepsInv(s: Store, now: real)
    requires Inv(s)
    ensures Inv(Expire(s, now))
  {
    hide TablesMatch, LogMatches, OneLivePerRun;
    ExpireKeepsLiveness(s, now);
    ExpireKeepsLog(s, now);
    ExpireKeepsOneLive(s, now);
  }

  // ---- Acquire ----

  /** Inserting succeeds exactly when no key is present, and then adds exactly the asked keys. */
  lemma {:induction false} InsertKeysExact(resources: map<Key, Id>, keys: seq<Key>, id: Id)
    requires Distinct(keys)
    ensures InsertKeys(resources, keys, id).1 <==> forall k <- keys :: k !in resources
    ensures InsertKeys(resources, keys, id).1 ==>
      forall k :: k in InsertKeys(resources, keys, id).0 <==> k in resources || k in keys
    ensures InsertKeys(resources, keys, id).1 ==>
      forall k <- InsertKeys(resources, keys, id).0 ::
        InsertKeys(resources, keys, id).0[k] == if k in keys then id else resources[k]
    decreases |keys|
  {
    if keys != [] && keys[0] !in resources {
      InsertKeysExact(resources[keys[0] := id], keys[1..], id);
      assert forall k :: k in keys <==> k == keys[0] || k in keys[1..];
    }
  }

  /** A caller can predict the decision: what must hold of the tables before the call. */
  ghost predicate CanAcquire(s: Store, c: Claim, keys: seq<Key>, expected: nat) {
    && c.state == Active && keys != [] && Distinct(keys)
    && expected == s.generation + |LapsedSet(s, c.profile.acquiredAt)|
    && c.claimId !in s.claims && !IssueTaken(s, c.issueId) && !RunTaken(s, c.runId)
    && forall k <- keys :: !KeyTaken(s, k)
  }

  lemma ExpiryKeepsConflicts(s: Store, c: Claim, now: real)
    requires TablesMatch(s)
    ensures ClaimRowConflicts(Expire(s, now), c) <==> ClaimRowConflicts(s, c)
    ensures forall k :: k in LiveResources(Expire(s, now)) <==> KeyTaken(s, k)
    ensures forall k <- LiveResources(Expire(s, now)) :: LiveResources(Expire(s, now))[k] == s.resources[k]
  {
    hide Expire;
    ExpireExact(s, now);
    ExpireKeepsLiveness(s, now);
    var e := Expire(s, now);
    if IssueTaken(s, c.issueId) {
      var id :| id in s.claims && LiveId(s, id) && s.claims[id].issueId == c.issueId;
      assert LiveId(e, id) && e.claims[id].issueId == c.issueId;
    }
    if RunTaken(s, c.runId) {
      var id :| id in s.claims && LiveId(s, id) && s.claims[id].runId == c.runId;
      assert LiveId(e, id) && e.claims[id].runId == c.runId;
    }
  }

  /** Acquire succeeds exactly when CanAcquire holds; a refusal changes nothing, expiries included. */
  lemma AcquireDecision(s: Store, c: Claim, keys: seq<Key>, expected: nat)
    requires TablesMatch(s)
    ensures Acquire(s, c, keys, expected).1.Ok? <==> CanAcquire(s, c, keys, expected)
    ensures !Acquire(s, c, keys, expected).1.Ok? ==> Acquire(s, c, keys, expected).0 == s
  {
    hide Expire, InsertKeys, LiveResources, IssueTaken, RunTaken, KeyTaken, TablesMatch;
    if c.state == Active && keys != [] && Distinct(keys) {
      var now := c.profile.acquiredAt;
      ExpireExact(s, now);
      ExpiryKeepsConflicts(s, c, now);
      InsertKeysExact(LiveResources(Expire(s, now)), keys, c.claimId);
    }
  }

  /** What a successful acquire leaves behind, field by field. */
  lemma AcquireEffect(s: Store, c: Claim, keys: seq<Key>, expected: nat)
    requires TablesMatch(s) && Acquire(s, c, keys, expected).1.Ok?
    ensures var (s', r) := Acquire(s, c, keys, expected);
      var e := Expire(s, c.profile.acquiredAt);
      && e.generation == expected && r.claim == c.(generation := expected + 1)
      && s'.generation == expected + 1
      && s'.claims == e.claims[c.claimId := r.claim]
      && (forall k :: k in s'.resources <==> k in keys || KeyTaken(s, k))
      && (forall k <- s'.resources :: s'.resources[k] == if k in keys then c.claimId else s.resources[k])
      && s'.history == e.history + [HistoryRow(c.claimId, expected + 1, Acquired(keys), c.profile.acquiredAt)]
      && s'.rows == s.rows + [c.claimId] && s'.receipts == s.receipts
  {
    hide Expire, InsertKeys, LiveResources, TablesMatch;
    var now := c.profile.acquiredAt;
    ExpireExact(s, now);
    ExpiryKeepsConflicts(s, c, now);
    InsertKeysExact(LiveResources(Expire(s, now)), keys, c.claimId);
  }

  lemma AcquireKeepsTables(s: Store, c: Claim, keys: seq<Key>, expected: nat)
    requires TablesMatch(s) && Acquire(s, c, keys, expected).1.Ok?
    ensures TablesMatch(Acquire(s, c, keys, expected).0)
    ensures forall id :: LiveId(Acquire(s, c, keys, expected).0, id) <==> id == c.claimId || LiveId(s, id)
  {
    hide Expire, Acquire;
    AcquireDecision(s, c, keys, expected);
    AcquireEffect(s, c, keys, expected);
    ExpireExact(s, c.profile.acquiredAt);
  }

  lemma AcquireKeepsLog(s: Store, c: Claim, keys: seq<Key>, expected: nat)
    requires TablesMatch(s) && LogMatches(s) && Acquire(s, c, keys, expected).1.Ok?
    ensures LogMatches(Acquire(s, c, keys, expected).0)
  {
    hide TablesMatch, Acquire, Expire;
    AcquireEffect(s, c, keys, expected);
    ExpireKeepsLog(s, c.profile.acquiredAt);
  }

  lemma AcquireKeepsOneLive(s: Store, c: Claim, keys: seq<Key>, expected: nat)
    requires TablesMatch(s) && OneLivePerRun(s) && Acquire(s, c, keys, expected).1.Ok?
    ensures OneLivePerRun(Acquire(s, c, keys, expected).0)
  {
    hide Expire, Acquire, TablesMatch;
    AcquireDecision(s, c, keys, expected);
    AcquireEffect(s, c, keys, expected);
    AcquireKeepsTables(s, c, keys, expected);
    ExpireExact(s, c.profile.acquiredAt);
  }

  lemma AcquireKeepsInv(s: Store, c: Claim, keys: seq<Key>, expected: nat)
    requires Inv(s)
    ensures Inv(Acquire(s, c, keys, expected).0)
  {
    hide TablesMatch, LogMatches, OneLivePerRun;
    AcquireDecision(s, c, keys, expected);
    if Acquire(s, c, keys, expected).1.Ok? {
      AcquireKeepsTables(s, c, keys, expected);
      AcquireKeepsLog(s, c, keys, expected);
      AcquireKeepsOneLive(s, c, keys, expected);
    }
  }

  // ---- Transitions and runs ----

  lemma TransitionKeepsTables(s: Store, id: Id, run: Id, driver: Id, gen: nat, change: Change, now: real)
    requires TablesMatch(s)
    ensures TablesMatch(Transition(s, id, run, driver, gen, change, now).0)
  {
  }

  lemma TransitionKeepsLog(s: Store, id: Id, run: Id, driver: Id, gen: nat, change: Change, now: real)
    requires LogMatches(s)
    ensures LogMatches(Transition(s, id, run, driver, gen, change, now).0)
  {
  }

  lemma TransitionKeepsOneLive(s: Store, id: Id, run: Id, driver: Id, gen: nat, change: Change, now: real)
    requires OneLivePerRun(s)
    ensures OneLivePerRun(Transition(s, id, run, driver, gen, change, now).0)
  {
  }

  lemma OutOfBandKeepsInv(s: Store, id: Id)
    requires Inv(s)
    ensures Inv(OutOfBand(s, id))
  {
    OutOfBandKeepsOneLive(s, id);
    hide OneLivePerRun;
  }

  lemma OutOfBandKeepsOneLive(s: Store, id: Id)
    requires OneLivePerRun(s)
    ensures OneLivePerRun(OutOfBand(s, id))
  {
    assert forall a :: LiveId(OutOfBand(s, id), a) ==> LiveId(s, a);
  }

  lemma StepKeepsInv(s: Store, op: Op)
    requires Inv(s)
    ensures Inv(Step(s, op))
  {
    hide TablesMatch, LogMatches, OneLivePerRun;
    match op
    case AcquireOp(c, keys, expected) => AcquireKeepsInv(s, c, keys, expected);
    case ExpireOp(now) => ExpireKeepsInv(s, now);
    case TransitionOp(id, run, driver, gen, change, now) =>
      TransitionKeepsTables(s, id, run, driver, gen, change, now);
      TransitionKeepsLog(s, id, run, driver, gen, change, now);
      TransitionKeepsOneLive(s, id, run, driver, gen, change, now);
    case ReceiptOp(receipt) => ReceiptKeepsInv(s, receipt);
    case OutOfBandOp(id) => OutOfBandKeepsInv(s, id);
  }

  lemma ReceiptKeepsInv(s: Store, receipt: ReceiptId)
    requires Inv(s)
    ensures Inv(ConsumeReceipt(s, receipt).0)
  {
    assert forall a :: LiveId(ConsumeReceipt(s, receipt).0, a) <==> LiveId(s, a);
  }

  /** The invariant holds in every state any run reaches. */
  lemma {:induction false} RunKeepsInv(s: Store, ops: seq<Op>)
    requires Inv(s)
    ensures Inv(Run(s, ops))
    decreases |ops|
  {
    hide Inv;
    if ops != [] {
      StepKeepsInv(s, ops[0]);
      RunKeepsInv(Step(s, ops[0]), ops[1..]);
    }
  }
}
