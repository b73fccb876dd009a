/** The claim store's promises over whole runs: exclusivity, fencing, the complete log, what a
    refusal reports, and when binding an engine session outside the transaction is safe. */
module ClaimTheorems {
  import opened Prelude
  import opened ClaimSpec
  import opened ClaimRuns

  lemma {:induction false} RunSplit(s: Store, a: seq<Op>, b: seq<Op>)
    ensures Run(s, a + b) == Run(Run(s, a), b)
    decreases |a|
  {
    if a == [] {
      assert a + b == b;
    } else {
      assert (a + b)[0] == a[0] && (a + b)[1..] == a[1..] + b;
      RunSplit(Step(s, a[0]), a[1..], b);
    }
  }

  // ---- Exclusivity ----

  /** `op` ends `id`'s hold: its owner's release, or a manual edit of that very row. */
  predicate Ends(op: Op, id: Id) {
    (op.TransitionOp? && op.id == id && op.change.Free?) || (op.OutOfBandOp? && op.id == id)
  }

  lemma StepKeepsHold(s: Store, op: Op, k: Key, id: Id)
    requires Inv(s) && Holds(s, k, id) && !Ends(op, id)
    ensures Holds(Step(s, op), k, id)
  {
    match op
    case AcquireOp(c, keys, expected) =>
      hide Acquire, Expire;
      AcquireDecision(s, c, keys, expected);
      if Acquire(s, c, keys, expected).1.Ok? {
        AcquireEffect(s, c, keys, expected);
        AcquireKeepsTables(s, c, keys, expected);
      }
    case ExpireOp(now) =>
      hide Expire;
      ExpireExact(s, now);
      ExpireKeepsLiveness(s, now);
    case _ =>
  }

  /** A held key stays with its claim through any run in which that claim is not ended; expiry of
      its lease does not end it. */
  lemma {:induction false} HeldKeyStays(s: Store, ops: seq<Op>, k: Key, id: Id)
    requires Inv(s) && Holds(s, k, id) && forall op <- ops :: !Ends(op, id)
    ensures Holds(Run(s, ops), k, id)
    decreases |ops|
  {
    hide Inv, Holds;
    if ops != [] {
      StepKeepsHold(s, ops[0], k, id);
      StepKeepsInv(s, ops[0]);
      HeldKeyStays(Step(s, ops[0]), ops[1..], k, id);
    }
  }

  /** While a key is held, every acquire that asks for it is refused and changes nothing. */
  lemma HeldKeyExcludes(s: Store, ops: seq<Op>, k: Key, id: Id, c: Claim, keys: seq<Key>, expected: nat)
    requires Inv(s) && Holds(s, k, id) && k in keys && forall op <- ops :: !Ends(op, id)
    ensures Acquire(Run(s, ops), c, keys, expected).1.Refused?
    ensures Acquire(Run(s, ops), c, keys, expected).0 == Run(s, ops)
  {
    HeldKeyStays(s, ops, k, id);
    RunKeepsInv(s, ops);
    hide Acquire;
    AcquireDecision(Run(s, ops), c, keys, expected);
  }

  // ---- What a refusal reports ----

  lemma {:induction false} HoldersExact(resources: map<Key, Id>, keys: seq<Key>)
    ensures forall k, o :: (k, o) in HoldersAmong(resources, keys) <==>
      k in keys && k in resources && resources[k] == o
  {
    if keys != [] {
      HoldersExact(resources, keys[1..]);
      assert forall k :: k in keys <==> k == keys[0] || k in keys[1..];
    }
  }

  /** A collision leaves the keys before the first taken one inserted for the requester. */
  lemma {:induction false} InsertStopsAtFirst(resources: map<Key, Id>, keys: seq<Key>, id: Id)
    requires !InsertKeys(resources, keys, id).1
    ensures var ins := InsertKeys(resources, keys, id).0;
      && (forall k <- resources :: k in ins && ins[k] == resources[k])
      && (forall k <- ins :: k in resources || (k in keys && ins[k] == id))
      && (keys[0] in ins) && (keys[0] !in resources ==> ins[keys[0]] == id)
      && (keys[0] in resources ==> ins == resources)
    decreases |keys|
  {
    if keys[0] !in resources {
      InsertStopsAtFirst(resources[keys[0] := id], keys[1..], id);
    }
  }

  /** Every live holder of a requested key is reported. The report names nobody else exactly when
      the claim row itself was refused or the first key is the taken one: otherwise it also lists
      keys under the requester's own, rolled-back claim id. */
  lemma ReportNamesHolders(s: Store, c: Claim, keys: seq<Key>, expected: nat)
    requires Inv(s)
    requires var r := Acquire(s, c, keys, expected).1; r.Refused? && r.why.AlreadyClaimed?
    ensures var holders := Acquire(s, c, keys, expected).1.why.holders;
      && (forall k <- keys :: KeyTaken(s, k) ==> (k, s.resources[k]) in holders)
      && ((forall p <- holders :: Holds(s, p.0, p.1)) <==> ClaimRowConflicts(s, c) || KeyTaken(s, keys[0]))
  {
    hide Expire, LiveResources, IssueTaken, RunTaken;
    var now := c.profile.acquiredAt;
    ExpireExact(s, now);
    ExpiryKeepsConflicts(s, c, now);
    var kept := LiveResources(Expire(s, now));
    if ClaimRowConflicts(s, c) {
      HoldersExact(kept, keys);
    } else {
      InsertStopsAtFirst(kept, keys, c.claimId);
      var ins := InsertKeys(kept, keys, c.claimId).0;
      HoldersExact(ins, keys);
      assert (keys[0], ins[keys[0]]) in HoldersAmong(ins, keys);
    }
  }

  // ---- Lapsed leases ----

  /** With a generation the store has already returned, an acquire cannot expire anything: any
      lapsed lease, on any issue, makes it fail. */
  lemma LapsedLeaseRefusesAcquire(s: Store, c: Claim, keys: seq<Key>, expected: nat, lapsed: Id)
    requires Inv(s) && expected <= s.generation && LapsedAt(s, lapsed, c.profile.acquiredAt)
    ensures Acquire(s, c, keys, expected).1.Refused? && Acquire(s, c, keys, expected).0 == s
  {
    hide Acquire;
    AcquireDecision(s, c, keys, expected);
    assert lapsed in LapsedSet(s, c.profile.acquiredAt);
  }

  /** So no number of launch attempts gets past one lapsed lease: the store stays as it is until
      someone expires, renews or releases that claim. */
  lemma {:induction false} LaunchesStall(s: Store, attempts: seq<Op>, lapsed: Id)
    requires Inv(s)
    requires forall op <- attempts ::
      op.AcquireOp? && op.expected <= s.generation && LapsedAt(s, lapsed, op.c.profile.acquiredAt)
    ensures Run(s, attempts) == s
  {
    if attempts != [] {
      hide Acquire, Inv;
      var op := attempts[0];
      LapsedLeaseRefusesAcquire(s, op.c, op.keys, op.expected, lapsed);
      LaunchesStall(s, attempts[1..], lapsed);
    }
  }

  // ---- Fencing ----

  predicate Succeeds(s: Store, op: Op) {
    match op
    case TransitionOp(id, run, driver, gen, change, now) => Transition(s, id, run, driver, gen, change, now).1.Ok?
    case _ => false
  }

  /** `c` is as it was when the store stood at `g`, expiry aside, or has been rewritten since. */
  ghost predicate SameOrRewritten(c0: Claim, g: nat, s: Store, id: Id) {
    id in s.claims && (s.claims[id].generation > g || s.claims[id].(state := c0.state) == c0)
  }

  lemma StepSameOrRewritten(s: Store, op: Op, c0: Claim, g: nat, id: Id)
    requires Inv(s) && g <= s.generation && SameOrRewritten(c0, g, s, id)
    ensures g <= Step(s, op).generation && SameOrRewritten(c0, g, Step(s, op), id)
  {
    match op
    case AcquireOp(c, keys, expected) =>
      hide Acquire, Expire;
      AcquireDecision(s, c, keys, expected);
      if Acquire(s, c, keys, expected).1.Ok? {
        AcquireEffect(s, c, keys, expected);
        ExpireExact(s, c.profile.acquiredAt);
      }
    case ExpireOp(now) =>
      hide Expire;
      ExpireExact(s, now);
    case _ =>
  }

  lemma {:induction false} RunSameOrRewritten(s: Store, ops: seq<Op>, c0: Claim, g: nat, id: Id)
    requires Inv(s) && g <= s.generation && SameOrRewritten(c0, g, s, id)
    ensures SameOrRewritten(c0, g, Run(s, ops), id)
    decreases |ops|
  {
    hide Inv, SameOrRewritten;
    if ops != [] {
      StepSameOrRewritten(s, ops[0], c0, g, id);
      StepKeepsInv(s, ops[0]);
      RunSameOrRewritten(Step(s, ops[0]), ops[1..], c0, g, id);
    }
  }

  lemma RunKeepsFence(s: Store, id: Id)
    requires Inv(s) && id in s.claims
    ensures s.claims[id].generation <= s.generation
  {
  }

  /** A (claim, generation) pair authorises at most one heartbeat, bind or release in any run. */
  lemma GenerationUsedOnce(s: Store, ops: seq<Op>, i: nat, j: nat)
    requires Inv(s) && i < j < |ops|
    requires ops[i].TransitionOp? && ops[j].TransitionOp? && ops[i].id == ops[j].id && ops[i].gen == ops[j].gen
    requires Succeeds(Run(s, ops[..i]), ops[i])
    ensures !Succeeds(Run(s, ops[..j]), ops[j])
  {
    hide Inv;
    var before := Run(s, ops[..i]);
    var after := Step(before, ops[i]);
    RunKeepsInv(s, ops[..i]);
    StepKeepsInv(before, ops[i]);
    assert ops[..j] == ops[..i] + ([ops[i]] + ops[i + 1..j]);
    RunSplit(s, ops[..i], [ops[i]] + ops[i + 1..j]);
    RunSplit(before, [ops[i]], ops[i + 1..j]);
    assert Run(before, [ops[i]]) == after;
    RunKeepsFence(before, ops[i].id);
    RunSameOrRewritten(after, ops[i + 1..j], after.claims[ops[i].id], ops[i].gen, ops[i].id);
  }

  // ---- Binding an engine session ----

  /** The session read at `s` before the transaction opens, then `ops` by others, then the write. */
  ghost predicate BindOverwrites(s: Store, ops: seq<Op>, id: Id, run: Id, driver: Id, gen: nat, session: Id,
                                 now: real) {
    var t := Run(s, ops);
    && Unbound(s, id)
    && Transition(t, id, run, driver, gen, Bind(session), now).1.Ok?
    && t.claims[id].engineSession.Some?
  }

  /** A caller that passes a generation the store had already returned never overwrites a session. */
  lemma BindNeverOverwrites(s: Store, ops: seq<Op>, id: Id, run: Id, driver: Id, gen: nat, session: Id, now: real)
    requires Inv(s) && gen <= s.generation
    ensures !BindOverwrites(s, ops, id, run, driver, gen, session, now)
  {
    if Unbound(s, id) {
      RunSameOrRewritten(s, ops, s.claims[id], s.generation, id);
    }
  }

  /** A caller that guesses a later generation can: the owner reaches it by heartbeats and a bind. */
  lemma GuessedGenerationOverwrites(s: Store, id: Id, gen: nat, other: Id, session: Id, now: real)
    returns (ops: seq<Op>)
    requires Inv(s) && Unbound(s, id) && s.claims[id].state == Active && gen > s.generation
    ensures BindOverwrites(s, ops, id, s.claims[id].runId, s.claims[id].driverId, gen, session, now)
    decreases gen - s.generation
  {
    var c := s.claims[id];
    if gen == s.generation + 1 {
      ops := [TransitionOp(id, c.runId, c.driverId, c.generation, Bind(other), now)];
      assert Run(s, ops) == Step(s, ops[0]);
    } else {
      var beat := TransitionOp(id, c.runId, c.driverId, c.generation, Beat(now, now + 1.0), now);
      StepKeepsInv(s, beat);
      var rest := GuessedGenerationOverwrites(Step(s, beat), id, gen, other, session, now);
      ops := [beat] + rest;
      assert ops[0] == beat && ops[1..] == rest;
    }
  }

  /** Reading outside the transaction is safe, whatever others do in between, exactly for generations
      the store has already returned. */
  lemma BindSafeExactly(s: Store, id: Id, gen: nat)
    requires Inv(s) && Unbound(s, id) && s.claims[id].state == Active
    ensures (forall ops, session, now ::
               !BindOverwrites(s, ops, id, s.claims[id].runId, s.claims[id].driverId, gen, session, now))
            <==> gen <= s.generation
  {
    if gen <= s.generation {
      forall ops, session, now
        ensures !BindOverwrites(s, ops, id, s.claims[id].runId, s.claims[id].driverId, gen, session, now)
      {
        BindNeverOverwrites(s, ops, id, s.claims[id].runId, s.claims[id].driverId, gen, session, now);
      }
    } else {
      var ops := GuessedGenerationOverwrites(s, id, gen, 0, 0, 0.0);
      assert BindOverwrites(s, ops, id, s.claims[id].runId, s.claims[id].driverId, gen, 0, 0.0);
    }
  }

  // ---- The log is complete ----

  /** What the log alone says: each claim's state, the generation that last wrote it, the resource table. */
  datatype Ledger = Ledger(states: map<Id, ClaimState>, fences: map<Id, nat>, resources: map<Key, Id>)

  ghost function LedgerOf(s: Store): Ledger {
    Ledger(map id | id in s.claims :: s.claims[id].state,
           map id | id in s.claims :: s.claims[id].generation,
           s.resources)
  }

  ghost function ReplayRow(l: Ledger, row: HistoryRow): Ledger {
    match row.event
    case Acquired(keys) =>
      Ledger(l.states[row.claimId := Active], l.fences[row.claimId := row.generation],
             l.resources + map k | k in keys :: row.claimId)
    case LeaseExpired => l.(states := l.states[row.claimId := ExpiredPending])
    case Changed(Free(_, _)) =>
      Ledger(l.states[row.claimId := Released], l.fences[row.claimId := row.generation],
             WithoutOwner(l.resources, row.claimId))
    case Changed(_) => l.(fences := l.fences[row.claimId := row.generation])
  }

  ghost function Replay(h: seq<HistoryRow>): Ledger {
    if h == [] then Ledger(map[], map[], map[]) else ReplayRow(Replay(h[..|h| - 1]), h[|h| - 1])
  }

  lemma ReplayAppend(h: seq<HistoryRow>, row: HistoryRow)
    ensures Replay(h + [row]) == ReplayRow(Replay(h), row)
  {
    assert (h + [row])[..|h|] == h;
  }

  /** The log explains the tables, and every resource row belongs to a live claim. */
  ghost predicate Logged(s: Store) {
    Replay(s.history) == LedgerOf(s) && forall k <- s.resources :: LiveId(s, s.resources[k])
  }

  lemma ExpireOneLogged(s: Store, id: Id, now: real)
    requires Logged(s) && id in s.claims && s.claims[id].state == Active
    ensures Logged(ExpireOne(s, id, now))
  {
    var e := ExpireOne(s, id, now);
    ReplayAppend(s.history, HistoryRow(id, s.generation + 1, LeaseExpired, now));
    assert LedgerOf(e).states == LedgerOf(s).states[id := ExpiredPending];
    assert LedgerOf(e).fences == LedgerOf(s).fences;
    assert forall a :: LiveId(e, a) <==> LiveId(s, a);
  }

  lemma {:induction false} ExpireRowsLogged(s: Store, ids: seq<Id>, now: real)
    requires Logged(s) && Distinct(ids)
    requires forall id <- ids :: id in s.claims && s.claims[id].state == Active
    ensures Logged(ExpireRows(s, ids, now))
    decreases |ids|
  {
    hide Logged;
    if ids != [] {
      ExpireOneLogged(s, ids[0], now);
      ExpireRowsLogged(ExpireOne(s, ids[0], now), ids[1..], now);
    }
  }

  lemma ExpireLogged(s: Store, now: real)
    requires Inv(s) && Logged(s)
    ensures Logged(Expire(s, now))
  {
    hide Logged;
    LapsedRowsDistinct(s, s.rows, now);
    ExpireRowsLogged(s, LapsedRows(s, s.rows, now), now);
  }

  lemma AcquireStates(s: Store, c: Claim, keys: seq<Key>, expected: nat)
    requires TablesMatch(s) && Acquire(s, c, keys, expected).1.Ok?
    ensures var (t, e) := (Acquire(s, c, keys, expected).0, Expire(s, c.profile.acquiredAt));
      && LedgerOf(t).states == LedgerOf(e).states[c.claimId := Active]
      && LedgerOf(t).fences == LedgerOf(e).fences[c.claimId := expected + 1]
  {
    hide Acquire, Expire, TablesMatch;
    AcquireDecision(s, c, keys, expected);
    AcquireEffect(s, c, keys, expected);
  }

  lemma AcquireResources(s: Store, c: Claim, keys: seq<Key>, expected: nat)
    requires TablesMatch(s) && Acquire(s, c, keys, expected).1.Ok?
    requires forall k <- s.resources :: LiveId(s, s.resources[k])
    ensures Acquire(s, c, keys, expected).0.resources ==
      Expire(s, c.profile.acquiredAt).resources + map k | k in keys :: c.claimId
  {
    hide Acquire, Expire, TablesMatch;
    AcquireEffect(s, c, keys, expected);
    ExpireExact(s, c.profile.acquiredAt);
  }

  lemma AcquireLedger(s: Store, c: Claim, keys: seq<Key>, expected: nat)
    requires TablesMatch(s) && Acquire(s, c, keys, expected).1.Ok?
    requires forall k <- s.resources :: LiveId(s, s.resources[k])
    ensures LedgerOf(Acquire(s, c, keys, expected).0) ==
      ReplayRow(LedgerOf(Expire(s, c.profile.acquiredAt)),
                HistoryRow(c.claimId, expected + 1, Acquired(keys), c.profile.acquiredAt))
  {
    hide Acquire, Expire, TablesMatch;
    AcquireStates(s, c, keys, expected);
    AcquireResources(s, c, keys, expected);
  }

  lemma AcquireLogged(s: Store, c: Claim, keys: seq<Key>, expected: nat)
    requires Inv(s) && Logged(s) && Acquire(s, c, keys, expected).1.Ok?
    ensures Logged(Acquire(s, c, keys, expected).0)
  {
    hide Acquire, Expire, LedgerOf, ReplayRow, TablesMatch, LogMatches, OneLivePerRun;
    var e := Expire(s, c.profile.acquiredAt);
    AcquireDecision(s, c, keys, expected);
    AcquireEffect(s, c, keys, expected);
    AcquireKeepsTables(s, c, keys, expected);
    AcquireLedger(s, c, keys, expected);
    ExpireLogged(s, c.profile.acquiredAt);
    ReplayAppend(e.history, HistoryRow(c.claimId, expected + 1, Acquired(keys), c.profile.acquiredAt));
  }

  lemma TransitionLedger(s: Store, id: Id, run: Id, driver: Id, gen: nat, change: Change, now: real)
    requires Transition(s, id, run, driver, gen, change, now).1.Ok?
    ensures LedgerOf(Transition(s, id, run, driver, gen, change, now).0) ==
      ReplayRow(LedgerOf(s), HistoryRow(id, s.generation + 1, Changed(change), now))
  {
    var s' := Transition(s, id, run, driver, gen, change, now).0;
    assert LedgerOf(s').fences == LedgerOf(s).fences[id := s.generation + 1];
    if change.Free? {
      assert LedgerOf(s').states == LedgerOf(s).states[id := Released];
    } else {
      assert LedgerOf(s').states == LedgerOf(s).states;
    }
  }

  lemma TransitionLogged(s: Store, id: Id, run: Id, driver: Id, gen: nat, change: Change, now: real)
    requires Logged(s)
    ensures Logged(Transition(s, id, run, driver, gen, change, now).0)
  {
    hide LedgerOf, ReplayRow;
    if Transition(s, id, run, driver, gen, change, now).1.Ok? {
      TransitionLedger(s, id, run, driver, gen, change, now);
      ReplayAppend(s.history, HistoryRow(id, s.generation + 1, Changed(change), now));
    }
  }

  /** In every state a run of store operations reaches from the empty store, row i of the log carries
      generation i + 1, there are as many rows as generations, and replaying them rebuilds every
      claim's state, every fence and the whole resource table. */
  lemma {:induction false} HistoryIsComplete(ops: seq<Op>)
    requires forall op <- ops :: !op.OutOfBandOp?
    ensures var s := Run(EMPTY_STORE, ops);
      && |s.history| == s.generation
      && (forall i :: 0 <= i < |s.history| ==> s.history[i].generation == i + 1)
      && Replay(s.history) == LedgerOf(s)
  {
    assert LedgerOf(EMPTY_STORE) == Replay([]);
    RunLogged(EMPTY_STORE, ops);
  }

  lemma {:induction false} RunLogged(s: Store, ops: seq<Op>)
    requires Inv(s) && Logged(s) && forall op <- ops :: !op.OutOfBandOp?
    ensures Inv(Run(s, ops)) && Logged(Run(s, ops))
    decreases |ops|
  {
    hide Inv, Logged;
    if ops != [] {
      StepKeepsInv(s, ops[0]);
      StepLogged(s, ops[0]);
      RunLogged(Step(s, ops[0]), ops[1..]);
    }
  }

  lemma StepLogged(s: Store, op: Op)
    requires Inv(s) && Logged(s) && !op.OutOfBandOp?
    ensures Logged(Step(s, op))
  {
    match op
    case AcquireOp(c, keys, expected) =>
      hide Acquire, Logged;
      AcquireDecision(s, c, keys, expected);
      if Acquire(s, c, keys, expected).1.Ok? {
        AcquireLogged(s, c, keys, expected);
      }
    case ExpireOp(now) => hide Expire; ExpireLogged(s, now);
    case TransitionOp(id, run, driver, gen, change, now) => TransitionLogged(s, id, run, driver, gen, change, now);
    case ReceiptOp(receipt) =>
      var s' := ConsumeReceipt(s, receipt).0;
      assert LedgerOf(s') == LedgerOf(s) && forall id :: LiveId(s', id) <==> LiveId(s, id);
  }
}
