/** The claim store's tables as values, and every store operation as a function on them.

    A write either returns the new tables or the old ones: the functions below return the store
    they were given on every refusal, which is what BEGIN IMMEDIATE with rollback does. */
module ClaimSpec {
  import opened Prelude

  /** Identifiers and inert texts are only ever compared, so a number stands for each string. */
  type Id = nat

  /** The exclusive resources a launch asks for, one constructor per key prefix. */
  datatype Key =
    | IssueKey(issue: Id)
    | RunKey(run: Id)
    | BranchKey(run: Id)
    | WorktreeKey(path: Id)
    | WorkflowLabelKey(issue: Id)
    | LabelStateKey(issue: Id, workflowLabel: Id)
    | StoreSessionKey(session: Id)
    | EngineSessionKey(session: Id)

  datatype ClaimState = Active | ExpiredPending | Released

  /** The columns no operation reads or changes after the claim row is written. */
  datatype Profile = Profile(
    workflow: Id, branchRef: Id, worktree: Id, storeSession: Option<Id>, engineId: Id, expectedLabel: Id,
    acquiredAt: real)

  datatype Lease = Lease(heartbeatAt: real, expiresAt: real)

  datatype Claim = Claim(
    claimId: Id, issueId: Id, runId: Id, driverId: Id, profile: Profile,
    state: ClaimState, lease: Lease, engineSession: Option<Id>,
    released: Option<(real, Id)>, generation: nat)

  /** The three guarded updates an owner may make to its own claim. */
  datatype Change =
    | Beat(at: real, leaseUntil: real)
    | Bind(session: Id)
    | Free(freedAt: real, reason: Id)

  datatype Event = Acquired(keys: seq<Key>) | Changed(change: Change) | LeaseExpired

  datatype HistoryRow = HistoryRow(claimId: Id, generation: nat, event: Event, at: real)

  /** The SHA-256 receipt id, taken as an injective function of the four values it is seeded with. */
  datatype ReceiptId = ReceiptId(claimId: Id, runId: Id, generation: nat, at: real)

  /** `rows` is the order in which a scan of the claims table visits it: insertion order. */
  datatype Store = Store(
    generation: nat, rows: seq<Id>, claims: map<Id, Claim>, resources: map<Key, Id>,
    history: seq<HistoryRow>, receipts: set<ReceiptId>)

  const EMPTY_STORE := Store(0, [], map[], map[], [], {})

  datatype Rejection =
    | InvalidRequest
    | GenerationChanged
    | AlreadyClaimed(holders: seq<(Key, Id)>)
    | AlreadyBound
    | OwnershipMismatch
    | NotActive

  datatype Result = Ok(claim: Claim) | Refused(why: Rejection)

  // ---- Reading ----

  predicate Live(c: Claim) {
    c.state == Active || c.state == ExpiredPending
  }

  /** `id` names a claim that still excludes others. */
  predicate LiveId(s: Store, id: Id) {
    id in s.claims && Live(s.claims[id])
  }

  predicate Holds(s: Store, k: Key, id: Id) {
    k in s.resources && s.resources[k] == id && LiveId(s, id)
  }

  predicate IssueTaken(s: Store, issue: Id) {
    exists id <- s.claims :: LiveId(s, id) && s.claims[id].issueId == issue
  }

  predicate RunTaken(s: Store, run: Id) {
    exists id <- s.claims :: LiveId(s, id) && s.claims[id].runId == run
  }

  predicate KeyTaken(s: Store, k: Key) {
    k in s.resources && LiveId(s, s.resources[k])
  }

  /** The order in which live claims are listed: by issue, then by claim id. */
  predicate Before(a: Claim, b: Claim) {
    a.issueId < b.issueId || (a.issueId == b.issueId && a.claimId <= b.claimId)
  }

  predicate Listed(live: seq<Claim>) {
    forall i, j :: 0 <= i < j < |live| ==> live[i] != live[j] && Before(live[i], live[j])
  }

  // ---- Lease expiry ----

  predicate LapsedAt(s: Store, id: Id, now: real) {
    id in s.claims && s.claims[id].state == Active && s.claims[id].lease.expiresAt <= now
  }

  function LapsedRows(s: Store, rows: seq<Id>, now: real): (ids: seq<Id>)
    ensures forall id :: id in ids <==> id in rows && LapsedAt(s, id, now)
  {
    if rows == [] then []
    else if LapsedAt(s, rows[0], now) then [rows[0]] + LapsedRows(s, rows[1..], now)
    else LapsedRows(s, rows[1..], now)
  }

  function ExpireOne(s: Store, id: Id, now: real): Store
    requires id in s.claims
  {
    s.(generation := s.generation + 1,
       claims := s.claims[id := s.claims[id].(state := ExpiredPending)],
       history := s.history + [HistoryRow(id, s.generation + 1, LeaseExpired, now)])
  }

  function ExpireRows(s: Store, ids: seq<Id>, now: real): (e: Store)
    requires forall id <- ids :: id in s.claims
    ensures e.generation == s.generation + |ids|
    ensures e.rows == s.rows && e.resources == s.resources && e.receipts == s.receipts
    ensures e.claims.Keys == s.claims.Keys
    decreases |ids|
  {
    if ids == [] then s else ExpireRows(ExpireOne(s, ids[0], now), ids[1..], now)
  }

  function Expire(s: Store, now: real): Store {
    ExpireRows(s, LapsedRows(s, s.rows, now), now)
  }

  // ---- Acquire ----

  /** Rows owed by claims that are no longer live are reclaimed before an insert. */
  function LiveResources(s: Store): map<Key, Id> {
    map k | k in s.resources && (s.resources[k] !in s.claims || LiveId(s, s.resources[k])) :: s.resources[k]
  }

  /** Inserts `keys` for `id` one by one, stopping at the first key that is already present. */
  function InsertKeys(resources: map<Key, Id>, keys: seq<Key>, id: Id): (map<Key, Id>, bool)
    decreases |keys|
  {
    if keys == [] then (resources, true)
    else if keys[0] in resources then (resources, false)
    else InsertKeys(resources[keys[0] := id], keys[1..], id)
  }

  function HoldersAmong(resources: map<Key, Id>, keys: seq<Key>): seq<(Key, Id)> {
    if keys == [] then []
    else if keys[0] in resources then [(keys[0], resources[keys[0]])] + HoldersAmong(resources, keys[1..])
    else HoldersAmong(resources, keys[1..])
  }

  predicate ClaimRowConflicts(s: Store, c: Claim) {
    c.claimId in s.claims || IssueTaken(s, c.issueId) || RunTaken(s, c.runId)
  }

  /** `keys` is the requested resource list in the order `sorted` gives it. */
  function Acquire(s: Store, c: Claim, keys: seq<Key>, expected: nat): (Store, Result) {
    if c.state != Active || !Distinct(keys) || keys == [] then (s, Refused(InvalidRequest))
    else
      var e := Expire(s, c.profile.acquiredAt);
      if e.generation != expected then (s, Refused(GenerationChanged))
      else
        var kept := LiveResources(e);
        if ClaimRowConflicts(e, c) then (s, Refused(AlreadyClaimed(HoldersAmong(kept, keys))))
        else
          var (inserted, clean) := InsertKeys(kept, keys, c.claimId);
          if !clean then (s, Refused(AlreadyClaimed(HoldersAmong(inserted, keys))))
          else
            var g := e.generation + 1;
            var stored := c.(generation := g);
            (e.(generation := g,
                rows := e.rows + [c.claimId],
                claims := e.claims[c.claimId := stored],
                resources := inserted,
                history := e.history + [HistoryRow(c.claimId, g, Acquired(keys), c.profile.acquiredAt)]),
             Ok(stored))
  }

  // ---- Guarded transitions ----

  function Updated(c: Claim, change: Change): Claim {
    match change
    case Beat(at, until) => c.(lease := Lease(at, until))
    case Bind(session) => c.(engineSession := Some(session))
    case Free(at, reason) => c.(state := Released, released := Some((at, reason)))
  }

  function WithoutOwner(resources: map<Key, Id>, id: Id): map<Key, Id> {
    map k | k in resources && resources[k] != id :: resources[k]
  }

  predicate Owns(s: Store, id: Id, run: Id, driver: Id, gen: nat) {
    id in s.claims && s.claims[id].runId == run && s.claims[id].driverId == driver
    && s.claims[id].generation == gen
  }

  function Transition(s: Store, id: Id, run: Id, driver: Id, gen: nat, change: Change, now: real): (Store, Result) {
    if !Owns(s, id, run, driver, gen) then (s, Refused(OwnershipMismatch))
    else if s.claims[id].state != Active then (s, Refused(NotActive))
    else
      var g := s.generation + 1;
      var c := Updated(s.claims[id], change).(generation := g);
      (s.(generation := g,
          claims := s.claims[id := c],
          resources := if change.Free? then WithoutOwner(s.resources, id) else s.resources,
          history := s.history + [HistoryRow(id, g, Changed(change), now)]),
       Ok(c))
  }

  function Heartbeat(s: Store, id: Id, run: Id, driver: Id, gen: nat, until: real, now: real): (Store, Result) {
    if until <= now then (s, Refused(InvalidRequest))
    else Transition(s, id, run, driver, gen, Beat(now, until), now)
  }

  /** A reason of None stands for one that is blank after stripping. */
  function Release(s: Store, id: Id, run: Id, driver: Id, gen: nat, reason: Option<Id>, now: real): (Store, Result) {
    if reason.None? then (s, Refused(InvalidRequest))
    else Transition(s, id, run, driver, gen, Free(now, reason.value), now)
  }

  /** The read `bind_engine_session` makes before it opens its transaction. */
  predicate Unbound(s: Store, id: Id) {
    id in s.claims && s.claims[id].engineSession.None?
  }

  /** Undisturbed, the read and the guarded write make one step. */
  function BindEngineSession(s: Store, id: Id, run: Id, driver: Id, gen: nat, session: Option<Id>,
                             now: real): (Store, Result) {
    if session.None? then (s, Refused(InvalidRequest))
    else if !Unbound(s, id) then (s, Refused(AlreadyBound))
    else Transition(s, id, run, driver, gen, Bind(session.value), now)
  }

  function ConsumeReceipt(s: Store, receipt: ReceiptId): (Store, bool) {
    if receipt in s.receipts then (s, false) else (s.(receipts := s.receipts + {receipt}), true)
  }
}
