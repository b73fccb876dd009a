/** What each store operation decides and writes, told from the rows alone: who is expired and in what order, which
    guarded writes go through, and why the others are refused. */
module ClaimTerms {
  import opened Prelude
  import opened ClaimSpec
  import opened ClaimRuns
  import opened ClaimTheorems

  /** `some` is part of `all`, in the same order: the positions `at` grow. */
  ghost predicate Selects<T>(all: seq<T>, at: seq<nat>, some: seq<T>) {
    && |at| == |some|
    && (forall i :: 0 <= i < |at| ==> at[i] < |all| && some[i] == all[at[i]])
    && (forall i, j :: 0 <= i < j < |at| ==> at[i] < at[j])
  }

  function Shifted(at: seq<nat>): (later: seq<nat>)
    ensures |later| == |at| && forall i :: 0 <= i < |at| ==> later[i] == at[i] + 1
  {
    if at == [] then [] else [at[0] + 1] + Shifted(at[1..])
  }

  lemma SelectsLater<T>(all: seq<T>, at: seq<nat>, some: seq<T>)
    requires all != [] && Selects(all[1..], at, some)
    ensures Selects(all, Shifted(at), some)
    ensures Selects(all, [0] + Shifted(at), [all[0]] + some)
  {
    hide Shifted;
    var (later, more) := (Shifted(at), [all[0]] + some);
    assert forall i :: 0 <= i < |at| ==> all[1..][at[i]] == all[later[i]];
    assert forall i :: 0 < i < |more| ==> ([0] + later)[i] == later[i - 1] && more[i] == some[i - 1];
  }

  // ---- Expiry ----

  predicate HasLapsed(s: Store, id: Id, now: real) {
    id in s.claims && s.claims[id].state == Active && s.claims[id].lease.expiresAt <= now
  }

  lemma {:induction false} LapsedSelected(s: Store, rows: seq<Id>, now: real) returns (at: seq<nat>)
    ensures Selects(rows, at, LapsedRows(s, rows, now))
  {
    at := [];
    if rows != [] {
      var rest := LapsedSelected(s, rows[1..], now);
      SelectsLater(rows, rest, LapsedRows(s, rows[1..], now));
      hide Selects;
      at := if LapsedAt(s, rows[0], now) then [0] + Shifted(rest) else Shifted(rest);
    }
  }

  lemma {:induction false} ExpireRowsLog(s: Store, ids: seq<Id>, now: real)
    requires forall id <- ids :: id in s.claims
    ensures var e := ExpireRows(s, ids, now);
      && |e.history| == |s.history| + |ids| && e.history[..|s.history|] == s.history
      && forall k :: 0 <= k < |ids| ==>
           e.history[|s.history| + k] == HistoryRow(ids[k], s.generation + k + 1, LeaseExpired, now)
    decreases |ids|
  {
    if ids != [] {
      var t := ExpireOne(s, ids[0], now);
      ExpireRowsLog(t, ids[1..], now);
      assert t.history[..|s.history|] == s.history;
      assert t.history[|s.history|] == HistoryRow(ids[0], t.generation, LeaseExpired, now);
      var e := ExpireRows(s, ids, now);
      assert e.history[..|t.history|] == t.history;
      assert e.history[..|s.history|] == t.history[..|s.history|];
      forall k | 0 < k < |ids|
        ensures e.history[|s.history| + k] == HistoryRow(ids[k], s.generation + k + 1, LeaseExpired, now)
      {
        assert e.history[|t.history| + (k - 1)] == HistoryRow(ids[1..][k - 1], t.generation + k, LeaseExpired, now);
      }
    }
  }

  /** Expiry takes the active claims whose lease has run out, in the order of the table, relabels each and logs it
      with the next generation, and touches nothing else. */
  lemma ExpireTerms(s: Store, now: real) returns (due: seq<Id>, at: seq<nat>)
    requires TablesMatch(s)
    ensures Selects(s.rows, at, due) && Distinct(due) && forall id :: id in due <==> HasLapsed(s, id, now)
    ensures var e := Expire(s, now);
      && e.generation == s.generation + |due|
      && e.claims.Keys == s.claims.Keys
      && (forall id <- s.claims ::
            e.claims[id] == if id in due then s.claims[id].(state := ExpiredPending) else s.claims[id])
      && (e.rows, e.resources, e.receipts) == (s.rows, s.resources, s.receipts)
      && |e.history| == |s.history| + |due| && e.history[..|s.history|] == s.history
      && forall k :: 0 <= k < |due| ==>
           e.history[|s.history| + k] == HistoryRow(due[k], s.generation + k + 1, LeaseExpired, now)
  {
    due := LapsedRows(s, s.rows, now);
    LapsedRowsDistinct(s, s.rows, now);
    at := LapsedSelected(s, s.rows, now);
    ExpireRowsLog(s, due, now);
    ExpireExact(s, now);
    hide ExpireRows, LapsedRows, Selects, Distinct;
    assert forall id :: HasLapsed(s, id, now) <==> LapsedAt(s, id, now);
  }

  /** Reclaiming takes away exactly the keys of claims that are released, and leaves every other row as it is. */
  lemma ReclaimTerms(s: Store, k: Key)
    ensures k in LiveResources(s) <==>
      k in s.resources && !(s.resources[k] in s.claims && s.claims[s.resources[k]].state == Released)
    ensures k in LiveResources(s) ==> LiveResources(s)[k] == s.resources[k]
  {
    if k in s.resources && s.resources[k] in s.claims {
      match s.claims[s.resources[k]].state
      case Active =>
      case ExpiredPending =>
      case Released =>
    }
  }

  // ---- Why an acquire is refused ----

  /** The reason for a refused acquire: a request that is none, then a generation other than the one the store has
      once every lapsed lease is expired, and only then a conflict. */
  lemma RefusalTerms(s: Store, c: Claim, keys: seq<Key>, expected: nat, lapsed: set<Id>)
    requires TablesMatch(s) && forall id :: id in lapsed <==> HasLapsed(s, id, c.profile.acquiredAt)
    ensures var r := Acquire(s, c, keys, expected).1;
      var sensible := c.state == Active && keys != [] && Distinct(keys);
      && (r == Refused(InvalidRequest) <==> !sensible)
      && (r == Refused(GenerationChanged) <==> sensible && expected != s.generation + |lapsed|)
      && (r.Refused? && r.why.AlreadyClaimed? <==>
            sensible && expected == s.generation + |lapsed| && !CanAcquire(s, c, keys, expected))
  {
    hide Expire, InsertKeys, LiveResources, IssueTaken, RunTaken, KeyTaken, TablesMatch;
    assert lapsed == LapsedSet(s, c.profile.acquiredAt);
    ExpireExact(s, c.profile.acquiredAt);
    AcquireDecision(s, c, keys, expected);
  }

  /** Conflicts are reported in the order of the requested keys. */
  lemma {:induction false} HoldersSelected(resources: map<Key, Id>, keys: seq<Key>)
    returns (at: seq<nat>, taken: seq<Key>)
    ensures Selects(keys, at, taken) && (forall k <- keys :: k in taken <==> k in resources)
    ensures var holders := HoldersAmong(resources, keys);
      |holders| == |taken| && forall i :: 0 <= i < |taken| ==>
        holders[i].0 == taken[i] && taken[i] in resources && holders[i].1 == resources[taken[i]]
  {
    at, taken := [], [];
    if keys != [] {
      var rest, later := HoldersSelected(resources, keys[1..]);
      SelectsLater(keys, rest, later);
      hide Selects;
      assert forall k :: k in keys <==> k == keys[0] || k in keys[1..];
      if keys[0] in resources {
        at, taken := [0] + Shifted(rest), [keys[0]] + later;
      } else {
        at, taken := Shifted(rest), later;
      }
    }
  }

  // ---- Guarded writes ----

  /** The claim is this run's and this driver's, and still at this generation. */
  predicate Unmoved(s: Store, id: Id, run: Id, driver: Id, gen: nat) {
    id in s.claims && s.claims[id].runId == run && s.claims[id].driverId == driver && s.claims[id].generation == gen
  }

  predicate Current(s: Store, id: Id, run: Id, driver: Id, gen: nat) {
    Unmoved(s, id, run, driver, gen) && s.claims[id].state == Active
  }

  /** A write goes through exactly on a claim that is unmoved and active. It then stamps the claim and one log row
      with the next generation; any other claim, and on a refusal everything, stays as it was. */
  lemma TransitionTerms(s: Store, id: Id, run: Id, driver: Id, gen: nat, change: Change, now: real)
    ensures var (t, r) := Transition(s, id, run, driver, gen, change, now);
      && (r.Ok? <==> Current(s, id, run, driver, gen))
      && (!r.Ok? ==> t == s)
      && (r == Refused(NotActive) <==> Unmoved(s, id, run, driver, gen) && s.claims[id].state != Active)
      && (r == Refused(OwnershipMismatch) <==> !Unmoved(s, id, run, driver, gen))
      && (r.Ok? ==>
            && t.generation == s.generation + 1 && t.claims == s.claims[id := r.claim] && t.rows == s.rows
            && t.receipts == s.receipts
            && t.history == s.history + [HistoryRow(id, s.generation + 1, Changed(change), now)]
            && r.claim.generation == s.generation + 1)
  {
  }

  /** What each of the three writes changes in its claim and in the resource table. */
  lemma ChangeTerms(s: Store, id: Id, run: Id, driver: Id, gen: nat, change: Change, now: real)
    requires Transition(s, id, run, driver, gen, change, now).1.Ok?
    ensures var (t, c) := (Transition(s, id, run, driver, gen, change, now).0, s.claims[id]);
      var d := t.claims[id];
      && (d.claimId, d.issueId, d.runId, d.driverId) == (c.claimId, c.issueId, c.runId, c.driverId)
      && d.profile == c.profile
      && (!change.Free? ==> t.resources == s.resources && d.state == Active && d.released == c.released)
      && (change.Beat? ==>
            && d.lease.heartbeatAt == change.at && d.lease.expiresAt == change.leaseUntil
            && d.engineSession == c.engineSession)
      && (change.Bind? ==> d.engineSession == Some(change.session) && d.lease == c.lease)
      && (change.Free? ==>
            && d.state == Released && d.released == Some((change.freedAt, change.reason))
            && d.lease == c.lease && d.engineSession == c.engineSession
            && forall k :: (k in t.resources <==> k in s.resources && s.resources[k] != id)
                 && (k in t.resources ==> t.resources[k] == s.resources[k]))
  {
  }

  /** A heartbeat needs a lease that ends later than now, a release needs a reason, and a binding needs a session and
      a claim without one; otherwise each is the guarded write, or a refusal that changes nothing. */
  lemma RequestTerms(s: Store, id: Id, run: Id, driver: Id, gen: nat, until: real, text: Option<Id>, now: real)
    ensures var (t, r) := Heartbeat(s, id, run, driver, gen, until, now);
      && (r == Refused(InvalidRequest) <==> until <= now)
      && (r.Ok? <==> until > now && Current(s, id, run, driver, gen)) && (!r.Ok? ==> t == s)
      && (r.Ok? ==>
            && r.claim.lease.heartbeatAt == now && r.claim.lease.expiresAt == until
            && (t, r) == Transition(s, id, run, driver, gen, Beat(now, until), now))
    ensures var (t, r) := Release(s, id, run, driver, gen, text, now);
      && (r == Refused(InvalidRequest) <==> text.None?)
      && (r.Ok? <==> text.Some? && Current(s, id, run, driver, gen)) && (!r.Ok? ==> t == s)
      && (r.Ok? ==>
            && r.claim.state == Released && r.claim.released == Some((now, text.value))
            && (t, r) == Transition(s, id, run, driver, gen, Free(now, text.value), now))
    ensures var (t, r) := BindEngineSession(s, id, run, driver, gen, text, now);
      && (r == Refused(InvalidRequest) <==> text.None?)
      && (r == Refused(AlreadyBound) <==> text.Some? && (id !in s.claims || s.claims[id].engineSession.Some?))
      && (r.Ok? <==> text.Some? && Current(s, id, run, driver, gen) && s.claims[id].engineSession.None?)
      && (!r.Ok? ==> t == s)
      && (r.Ok? ==>
            && r.claim.engineSession == text
            && (t, r) == Transition(s, id, run, driver, gen, Bind(text.value), now))
  {
  }
}
