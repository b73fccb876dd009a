/** The launch gate: any number of launchers, each reading the store in two steps, acquiring, looking
    its claim up again and validating its receipt, interleaved with each other and with every other
    store operation. */
module LaunchGate {
  import opened Prelude
  import opened ClaimSpec
  import opened ClaimRuns
  import opened ClaimTheorems

  function SessionKey(session: Option<Id>, engine: bool): seq<Key> {
    match session
    case None => []
    case Some(x) => [if engine then EngineSessionKey(x) else StoreSessionKey(x)]
  }

  /** The resources a claim is exclusive about. */
  predicate Exclusive(c: Claim, k: Key) {
    match k
    case IssueKey(i) => i == c.issueId
    case RunKey(r) => r == c.runId
    case BranchKey(r) => r == c.runId
    case WorktreeKey(w) => w == c.profile.worktree
    case WorkflowLabelKey(i) => i == c.issueId
    case LabelStateKey(i, l) => i == c.issueId && l == c.profile.expectedLabel
    case StoreSessionKey(x) => c.profile.storeSession == Some(x)
    case EngineSessionKey(x) => c.engineSession == Some(x)
  }

  /** A claim's collision keys in sorted order, which their distinct prefixes decide. */
  function CollisionKeys(c: Claim): (keys: seq<Key>)
    ensures Distinct(keys) && keys != []
    ensures forall k :: k in keys <==> Exclusive(c, k)
    ensures {IssueKey(c.issueId), RunKey(c.runId), BranchKey(c.runId), WorktreeKey(c.profile.worktree),
             WorkflowLabelKey(c.issueId), LabelStateKey(c.issueId, c.profile.expectedLabel)} <= Elems(keys)
  {
    [BranchKey(c.runId)] + SessionKey(c.engineSession, true) +
    [IssueKey(c.issueId), LabelStateKey(c.issueId, c.profile.expectedLabel), RunKey(c.runId)] +
    SessionKey(c.profile.storeSession, false) +
    [WorkflowLabelKey(c.issueId), WorktreeKey(c.profile.worktree)]
  }

  /** A snapshot's fingerprint: everything but the generation stands in `rest`, read once. */
  datatype Fingerprint = Fingerprint(rest: nat, generation: nat)

  datatype Receipt = Receipt(
    id: ReceiptId, fingerprint: Fingerprint, claimId: Id, generation: nat, keys: seq<Key>, runId: Id, expiresAt: real)

  /** `ready` is every check that does not read the store; `rest` is the part of the snapshot it covers. */
  datatype Request = Request(claim: Claim, rest: nat, ready: bool, ttl: real)

  datatype Phase =
    | Start
    | SawClaims(collides: bool)
    | SawGeneration(collides: bool, generation: nat)
    | Admitted(receipt: Receipt)
    | LookedUp(receipt: Receipt, claim: Claim)
    | Allowed(receipt: Receipt, claim: Claim)
    | Rejected

  datatype Launcher = Launcher(request: Request, phase: Phase)

  datatype World = World(store: Store, launchers: seq<Launcher>)

  /** One step of launcher `i`, or one operation by anybody else. `same` is what the second issue read found. */
  datatype Move = Advance(i: nat, now: real, same: bool) | Other(op: Op)

  predicate Collides(s: Store, keys: seq<Key>) {
    exists id <- s.claims :: LiveId(s, id) && exists k <- keys :: k in CollisionKeys(s.claims[id])
  }

  function TryAcquire(s: Store, q: Request, read: nat): (Store, Phase) {
    var keys := CollisionKeys(q.claim);
    var (s', r) := Acquire(s, q.claim, keys, read);
    match r
    case Refused(_) => (s', Rejected)
    case Ok(c) =>
      var at := q.claim.profile.acquiredAt;
      (s', Admitted(Receipt(ReceiptId(c.claimId, c.runId, c.generation, at), Fingerprint(q.rest, read),
                            c.claimId, c.generation, keys, c.runId, at + if q.ttl < 30.0 then q.ttl else 30.0)))
  }

  /** The receipt's checks before it is consumed; the snapshot's generation is recomputed from the claim. */
  predicate ReceiptMatches(r: Receipt, c: Claim, q: Request, now: real) {
    && now < r.expiresAt && r.runId == q.claim.runId && r.claimId == c.claimId
    && r.generation == c.generation && CollisionKeys(q.claim) == r.keys
    && r.generation > 0 && Fingerprint(q.rest, r.generation - 1) == r.fingerprint
  }

  function GiveUp(s: Store, c: Claim, now: real): (Store, Phase) {
    (Release(s, c.claimId, c.runId, c.driverId, c.generation, Some(0), now).0, Rejected)
  }

  function AdvanceOne(s: Store, l: Launcher, now: real, same: bool): (Store, Phase) {
    match l.phase
    case Start => (s, SawClaims(!l.request.ready || Collides(s, CollisionKeys(l.request.claim))))
    case SawClaims(collides) => (s, SawGeneration(collides, s.generation))
    case SawGeneration(collides, read) => if collides then (s, Rejected) else TryAcquire(s, l.request, read)
    case Admitted(r) => (s, if LiveId(s, r.claimId) then LookedUp(r, s.claims[r.claimId]) else Rejected)
    case LookedUp(r, c) =>
      if !same || !ReceiptMatches(r, c, l.request, now) then GiveUp(s, c, now)
      else
        var (s', unused) := ConsumeReceipt(s, r.id);
        if unused then (s', Allowed(r, c)) else GiveUp(s, c, now)
    case _ => (s, l.phase)
  }

  function Apply(w: World, m: Move): World {
    match m
    case Other(op) => w.(store := Step(w.store, op))
    case Advance(i, now, same) =>
      if i < |w.launchers| then
        var (s', p) := AdvanceOne(w.store, w.launchers[i], now, same);
        World(s', w.launchers[i := w.launchers[i].(phase := p)])
      else w
  }

  function Play(w: World, moves: seq<Move>): (t: World)
    ensures |t.launchers| == |w.launchers|
    decreases |moves|
  {
    if moves == [] then w else Play(Apply(w, moves[0]), moves[1..])
  }

  // ---- The invariant ----

  predicate Holding(p: Phase) {
    p.Admitted? || p.LookedUp? || p.Allowed?
  }

  /** A launcher past its acquire: its receipt is one generation past the snapshot it read, and while
      its claim is live the claim holds every key the receipt lists. */
  ghost predicate ReceiptSound(s: Store, l: Launcher) {
    Holding(l.phase) ==>
      var r := l.phase.receipt;
      && r.claimId in s.claims
      && r.keys == CollisionKeys(l.request.claim)
      && r.fingerprint.rest == l.request.rest && r.fingerprint.generation + 1 == r.generation
      && r.id.claimId == r.claimId && r.id.generation == r.generation
      && (LiveId(s, r.claimId) ==> forall k <- r.keys :: Holds(s, k, r.claimId))
  }

  ghost predicate Separate(w: World) {
    forall i, j :: 0 <= i < j < |w.launchers| && Holding(w.launchers[i].phase) && Holding(w.launchers[j].phase) ==>
      w.launchers[i].phase.receipt.claimId != w.launchers[j].phase.receipt.claimId
  }

  ghost predicate Sound(w: World) {
    && Inv(w.store)
    && (forall l <- w.launchers :: ReceiptSound(w.store, l))
    && Separate(w)
  }

  /** No operation revives a claim, and a claim that stays live keeps its keys. */
  lemma StepKeepsReceipts(s: Store, op: Op, l: Launcher)
    requires Inv(s) && ReceiptSound(s, l)
    ensures ReceiptSound(Step(s, op), l)
  {
    hide Step, Inv, CollisionKeys;
    if Holding(l.phase) {
      var r := l.phase.receipt;
      StepKeepsDead(s, op, r.claimId);
      if LiveId(Step(s, op), r.claimId) && Ends(op, r.claimId) {
        EndedOrSame(s, op, r.claimId);
      } else if LiveId(Step(s, op), r.claimId) {
        forall k | k in r.keys
          ensures Holds(Step(s, op), k, r.claimId)
        {
          StepKeepsHold(s, op, k, r.claimId);
        }
      }
    }
  }

  /** An attempt to end a claim that leaves it live was refused. */
  lemma EndedOrSame(s: Store, op: Op, id: Id)
    requires Ends(op, id) && LiveId(Step(s, op), id)
    ensures Step(s, op) == s
  {
  }

  lemma StepKeepsDead(s: Store, op: Op, id: Id)
    requires Inv(s) && id in s.claims
    ensures id in Step(s, op).claims && (LiveId(Step(s, op), id) ==> LiveId(s, id))
  {
    match op
    case AcquireOp(c, keys, expected) =>
      hide Acquire, Expire;
      AcquireDecision(s, c, keys, expected);
      if Acquire(s, c, keys, expected).1.Ok? {
        AcquireEffect(s, c, keys, expected);
        AcquireKeepsTables(s, c, keys, expected);
        ExpireExact(s, c.profile.acquiredAt);
      }
    case ExpireOp(now) =>
      hide Expire;
      ExpireExact(s, now);
      ExpireKeepsLiveness(s, now);
    case _ =>
  }

  /** The store operation a launcher's step performs. */
  function OpOf(s: Store, l: Launcher, now: real, same: bool): Option<Op> {
    match l.phase
    case SawGeneration(false, read) => Some(AcquireOp(l.request.claim, CollisionKeys(l.request.claim), read))
    case LookedUp(r, c) =>
      if same && ReceiptMatches(r, c, l.request, now) && r.id !in s.receipts then Some(ReceiptOp(r.id))
      else Some(TransitionOp(c.claimId, c.runId, c.driverId, c.generation, Free(now, 0), now))
    case _ => None
  }

  lemma AdvanceIsStep(s: Store, l: Launcher, now: real, same: bool)
    ensures AdvanceOne(s, l, now, same).0 ==
      match OpOf(s, l, now, same) case None => s case Some(op) => Step(s, op)
  {
    hide Acquire, Transition, Expire;
  }

  /** A launcher that gets past its acquire does so under a claim id the store had never seen. */
  lemma AcquireIsSound(s: Store, q: Request, read: nat)
    requires Inv(s)
    ensures var (s', p) := TryAcquire(s, q, read);
      p.Admitted? ==> p.receipt.claimId !in s.claims && ReceiptSound(s', Launcher(q, p))
  {
    hide Acquire, Inv, CollisionKeys;
    var keys := CollisionKeys(q.claim);
    assert TablesMatch(s) by { InvTables(s); }
    AcquireDecision(s, q.claim, keys, read);
    if Acquire(s, q.claim, keys, read).1.Ok? {
      AcquireEffect(s, q.claim, keys, read);
      AcquireKeepsTables(s, q.claim, keys, read);
    }
  }

  lemma InvTables(s: Store)
    requires Inv(s)
    ensures TablesMatch(s)
  {
  }

  lemma AdvanceKeepsReceipts(w: World, i: nat, now: real, same: bool)
    requires Sound(w) && i < |w.launchers|
    ensures var w' := Apply(w, Advance(i, now, same));
      Inv(w'.store) && forall l <- w'.launchers :: ReceiptSound(w'.store, l)
  {
    hide Inv, ReceiptSound, Step, AdvanceOne, OpOf, Separate;
    var (s, l) := (w.store, w.launchers[i]);
    StoreMoves(w, OpOf(s, l, now, same));
    AdvanceIsStep(s, l, now, same);
    AdvanceOwn(s, l, now, same);
    var w' := Apply(w, Advance(i, now, same));
    forall x | x in w'.launchers
      ensures ReceiptSound(w'.store, x)
    {
      var j :| 0 <= j < |w'.launchers| && w'.launchers[j] == x;
      if j == i {
        assert x == l.(phase := AdvanceOne(s, l, now, same).1);
      } else {
        assert x == w.launchers[j] && x in w.launchers;
      }
    }
  }

  lemma AdvanceKeepsSeparate(w: World, i: nat, now: real, same: bool)
    requires Sound(w) && i < |w.launchers|
    ensures Separate(Apply(w, Advance(i, now, same)))
  {
    hide Inv, ReceiptSound, AdvanceOne;
    AdvanceOwn(w.store, w.launchers[i], now, same);
    forall j | 0 <= j < |w.launchers| && Holding(w.launchers[j].phase)
      ensures w.launchers[j].phase.receipt.claimId in w.store.claims
    {
      KnownClaim(w.store, w.launchers[j]);
    }
  }

  lemma KnownClaim(s: Store, l: Launcher)
    requires ReceiptSound(s, l) && Holding(l.phase)
    ensures l.phase.receipt.claimId in s.claims
  {
  }

  /** What one launcher's step does to its own receipt. */
  lemma AdvanceOwn(s: Store, l: Launcher, now: real, same: bool)
    requires Inv(s) && ReceiptSound(s, l)
    ensures var (s', p) := AdvanceOne(s, l, now, same);
      && ReceiptSound(s', l.(phase := p))
      && (Holding(p) ==> p.receipt.claimId !in s.claims || (Holding(l.phase) && p.receipt == l.phase.receipt))
  {
    hide Inv, CollisionKeys, Collides, TryAcquire, ReceiptSound, ReceiptMatches, GiveUp;
    match l.phase
    case SawGeneration(collides, read) => AcquireOwn(s, l, now, same);
    case LookedUp(_, _) => ValidateOwn(s, l, now, same);
    case _ => ReadOwn(s, l, now, same);
  }

  lemma AcquireOwn(s: Store, l: Launcher, now: real, same: bool)
    requires Inv(s) && l.phase.SawGeneration?
    ensures var (s', p) := AdvanceOne(s, l, now, same);
      ReceiptSound(s', l.(phase := p)) && (Holding(p) ==> p.receipt.claimId !in s.claims)
  {
    hide Inv, TryAcquire, CollisionKeys, LiveId;
    if !l.phase.collides { AcquireIsSound(s, l.request, l.phase.generation); }
    AcquirePhase(s, l.request, l.phase.generation);
  }

  lemma AcquirePhase(s: Store, q: Request, read: nat)
    ensures TryAcquire(s, q, read).1.Rejected? || TryAcquire(s, q, read).1.Admitted?
  {
    hide Acquire, CollisionKeys;
  }

  lemma ValidateOwn(s: Store, l: Launcher, now: real, same: bool)
    requires ReceiptSound(s, l) && l.phase.LookedUp?
    ensures var (s', p) := AdvanceOne(s, l, now, same);
      ReceiptSound(s', l.(phase := p)) && (Holding(p) ==> p.receipt == l.phase.receipt)
  {
    hide Release, CollisionKeys, LiveId, ReceiptMatches;
    ReceiptsAside(s, l.phase.receipt.id);
  }

  lemma ReadOwn(s: Store, l: Launcher, now: real, same: bool)
    requires ReceiptSound(s, l) && !l.phase.LookedUp? && !l.phase.SawGeneration?
    ensures var (s', p) := AdvanceOne(s, l, now, same);
      ReceiptSound(s', l.(phase := p)) && (Holding(p) ==> Holding(l.phase) && p.receipt == l.phase.receipt)
  {
    hide CollisionKeys, Collides, LiveId;
  }

  lemma ReceiptsAside(s: Store, id: ReceiptId)
    ensures forall a :: LiveId(ConsumeReceipt(s, id).0, a) <==> LiveId(s, a)
    ensures forall k, a :: Holds(ConsumeReceipt(s, id).0, k, a) <==> Holds(s, k, a)
  {
  }

  lemma StoreMoves(w: World, op: Option<Op>)
    requires Sound(w)
    ensures var s' := match op case None => w.store case Some(o) => Step(w.store, o);
      Inv(s') && forall l <- w.launchers :: ReceiptSound(s', l)
  {
    hide Inv, ReceiptSound, Step;
    if op.Some? {
      StepKeepsInv(w.store, op.value);
      forall l | l in w.launchers
        ensures ReceiptSound(Step(w.store, op.value), l)
      {
        StepKeepsReceipts(w.store, op.value, l);
      }
    }
  }

  lemma {:induction false} PlayKeepsSound(w: World, moves: seq<Move>)
    requires Sound(w)
    ensures Sound(Play(w, moves))
    decreases |moves|
  {
    if moves != [] {
      hide Inv, ReceiptSound;
      var m := moves[0];
      if m.Advance? && m.i < |w.launchers| {
        AdvanceKeepsReceipts(w, m.i, m.now, m.same);
        AdvanceKeepsSeparate(w, m.i, m.now, m.same);
      } else if m.Other? {
        StoreMoves(w, Some(m.op));
        assert Separate(Apply(w, m));
      }
      PlayKeepsSound(Apply(w, m), moves[1..]);
    }
  }

  // ---- The gate's promises ----

  ghost predicate AllStart(w: World) {
    forall l <- w.launchers :: l.phase.Start?
  }

  /** Under any interleaving, two launchers whose claims are both live share no collision key. */
  lemma OneWinner(w: World, moves: seq<Move>, i: nat, j: nat)
    requires Inv(w.store) && AllStart(w) && i < j < |w.launchers|
    ensures var t := Play(w, moves);
      Holding(t.launchers[i].phase) && Holding(t.launchers[j].phase)
      && LiveId(t.store, t.launchers[i].phase.receipt.claimId) &&
        LiveId(t.store, t.launchers[j].phase.receipt.claimId) ==>
        forall k <- t.launchers[i].phase.receipt.keys :: k !in t.launchers[j].phase.receipt.keys
  {
    hide Inv, CollisionKeys;
    PlayKeepsSound(w, moves);
    var t := Play(w, moves);
    assert ReceiptSound(t.store, t.launchers[i]) && ReceiptSound(t.store, t.launchers[j]);
  }

  /** The launcher recomputes its snapshot from the claim's generation, and always gets it right:
      validation can only fail on time, on a rewritten claim or on a used receipt. */
  lemma FingerprintAlwaysMatches(w: World, moves: seq<Move>, i: nat, now: real)
    requires Inv(w.store) && AllStart(w) && i < |w.launchers|
    requires Play(w, moves).launchers[i].phase.LookedUp?
    ensures var t := Play(w, moves);
      var l := t.launchers[i];
      var r := l.phase.receipt;
      r.generation > 0 && r.fingerprint == Fingerprint(l.request.rest, r.generation - 1) &&
        r.keys == CollisionKeys(l.request.claim)
  {
    hide Inv, CollisionKeys;
    PlayKeepsSound(w, moves);
    var t := Play(w, moves);
    assert ReceiptSound(t.store, t.launchers[i]);
  }

  /** The two claims are about the same issue, run, worktree or session. */
  predicate Rivals(c: Claim, d: Claim) {
    || c.issueId == d.issueId || c.runId == d.runId || c.profile.worktree == d.profile.worktree
    || (c.profile.storeSession.Some? && c.profile.storeSession == d.profile.storeSession)
    || (c.engineSession.Some? && c.engineSession == d.engineSession)
  }

  /** Rivals are exactly the claims whose collision keys meet. */
  lemma RivalsExactly(c: Claim, d: Claim)
    ensures Rivals(c, d) <==> exists k :: k in CollisionKeys(c) && k in CollisionKeys(d)
  {
    hide CollisionKeys;
    Shares(c, d, IssueKey(c.issueId));
    Shares(c, d, RunKey(c.runId));
    Shares(c, d, WorktreeKey(c.profile.worktree));
    if c.profile.storeSession.Some? { Shares(c, d, StoreSessionKey(c.profile.storeSession.value)); }
    if c.engineSession.Some? { Shares(c, d, EngineSessionKey(c.engineSession.value)); }
  }

  lemma Shares(c: Claim, d: Claim, k: Key)
    ensures k in CollisionKeys(c) && k in CollisionKeys(d) <==> Exclusive(c, k) && Exclusive(d, k)
  {
    hide Exclusive;
  }

  lemma CollidesExactly(s: Store, c: Claim)
    ensures Collides(s, CollisionKeys(c)) <==> exists id :: LiveId(s, id) && Rivals(s.claims[id], c)
  {
    hide CollisionKeys, Rivals;
    forall id | id in s.claims
      ensures Rivals(s.claims[id], c) <==> exists k <- CollisionKeys(c) :: k in CollisionKeys(s.claims[id])
    {
      RivalsExactly(s.claims[id], c);
    }
  }

  /** What a launcher does with the claim it looked up: it is allowed exactly if the issue still reads the same and
      its receipt is in time, for this run, this claim, this generation, these keys and this snapshot, and unused.
      Otherwise it is rejected and its claim, if still current, is released with all its keys. */
  lemma ValidateExactly(s: Store, l: Launcher, now: real, same: bool)
    requires l.phase.LookedUp?
    ensures var ((s', p), r, c, q) := (AdvanceOne(s, l, now, same), l.phase.receipt, l.phase.claim, l.request);
      var valid :=
        && same && now < r.expiresAt && r.id !in s.receipts
        && r.runId == q.claim.runId && r.claimId == c.claimId && r.generation == c.generation
        && r.keys == CollisionKeys(q.claim) && r.fingerprint == Fingerprint(q.rest, r.fingerprint.generation)
        && r.fingerprint.generation + 1 == r.generation;
      && (valid ==> p == Allowed(r, c) && s' == s.(receipts := s.receipts + {r.id}))
      && (!valid ==> p == Rejected)
      && (!valid && Owns(s, c.claimId, c.runId, c.driverId, c.generation) && s.claims[c.claimId].state == Active ==>
            s'.claims[c.claimId].state == Released && forall k <- s'.resources :: s'.resources[k] != c.claimId)
      && (!valid && !(Owns(s, c.claimId, c.runId, c.driverId, c.generation) && s.claims[c.claimId].state == Active) ==>
            s' == s)
  {
    hide CollisionKeys;
  }

  /** A launcher whose five steps nobody interrupts. */
  function Alone(s: Store, l: Launcher, now: real, steps: nat): (Store, Phase)
    decreases steps
  {
    if steps == 0 then (s, l.phase)
    else
      var (s', p) := AdvanceOne(s, l, now, true);
      Alone(s', l.(phase := p), now, steps - 1)
  }

  /** An undisturbed launch is allowed exactly when its checks pass, it collides with no live claim,
      the store can take the claim as it stands, and its receipt is fresh and in time. */
  lemma UndisturbedLaunch(s: Store, q: Request, now: real)
    requires Inv(s)
    ensures Alone(s, Launcher(q, Start), now, 5).1.Allowed? <==>
      var (c, keys) := (q.claim, CollisionKeys(q.claim));
      && q.ready && CanAcquire(s, c, keys, s.generation)
      && !(exists id :: LiveId(s, id) && Rivals(s.claims[id], c))
      && now < c.profile.acquiredAt + (if q.ttl < 30.0 then q.ttl else 30.0)
      && ReceiptId(c.claimId, c.runId, s.generation + 1, c.profile.acquiredAt) !in s.receipts
  {
    hide Acquire, Inv, CollisionKeys, Collides, CanAcquire, Release, Rivals;
    InvTables(s);
    CollidesExactly(s, q.claim);
    var keys := CollisionKeys(q.claim);
    var l2 := Launcher(q, SawGeneration(!q.ready || Collides(s, keys), s.generation));
    assert Alone(s, Launcher(q, Start), now, 5) ==
      Alone(s, Launcher(q, SawClaims(!q.ready || Collides(s, keys))), now, 4);
    assert Alone(s, Launcher(q, Start), now, 5) == Alone(s, l2, now, 3);
    AcquireDecision(s, q.claim, keys, s.generation);
    var (s3, p3) := AdvanceOne(s, l2, now, true);
    assert Alone(s, l2, now, 3) == Alone(s3, Launcher(q, p3), now, 2);
    if p3.Admitted? {
      AcquireEffect(s, q.claim, keys, s.generation);
      AcquireKeepsTables(s, q.claim, keys, s.generation);
      var (s4, p4) := AdvanceOne(s3, Launcher(q, p3), now, true);
      assert p4.LookedUp?;
      assert Alone(s3, Launcher(q, p3), now, 2) == Alone(s4, Launcher(q, p4), now, 1);
      assert Alone(s4, Launcher(q, p4), now, 1) == AdvanceOne(s4, Launcher(q, p4), now, true);
    } else {
      assert Alone(s3, Launcher(q, p3), now, 2) == Alone(s3, Launcher(q, Rejected), now, 1);
    }
  }

  lemma {:induction false} ReceiptsStayUsed(s: Store, ops: seq<Op>, id: ReceiptId)
    requires id in s.receipts
    ensures id in Run(s, ops).receipts
    decreases |ops|
  {
    if ops != [] {
      ReceiptsStayUsed(Step(s, ops[0]), ops[1..], id);
    }
  }

  /** A receipt validates at most once in any run, whoever presents it. */
  lemma ReceiptUsedOnce(s: Store, ops: seq<Op>, i: nat, j: nat, id: ReceiptId)
    requires i < j < |ops| && ops[i] == ReceiptOp(id) && ops[j] == ReceiptOp(id)
    ensures !ConsumeReceipt(Run(s, ops[..j]), id).1
  {
    assert ops[..j] == ops[..i + 1] + ops[i + 1..j] && ops[..i + 1] == ops[..i] + [ops[i]];
    RunSplit(s, ops[..i], [ops[i]]);
    RunSplit(s, ops[..i + 1], ops[i + 1..j]);
    ReceiptsStayUsed(Run(s, ops[..i + 1]), ops[i + 1..j], id);
  }
}
