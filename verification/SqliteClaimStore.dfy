/** The claim store as an object whose tables are updated statement by statement inside one
    transaction. Every method is proved to do to its tables exactly what ClaimSpec says. */
module SqliteClaimStore {
  import opened Prelude
  import Spec = ClaimSpec

  class ClaimStore {
    var generation: nat
    var rows: seq<Spec.Id>
    var claims: map<Spec.Id, Spec.Claim>
    var resources: map<Spec.Key, Spec.Id>
    var history: seq<Spec.HistoryRow>
    var receipts: set<Spec.ReceiptId>

    function View(): Spec.Store
      reads this
    {
      Spec.Store(generation, rows, claims, resources, history, receipts)
    }

    constructor ()
      ensures View() == Spec.EMPTY_STORE
    {
      generation, rows, claims, resources, history, receipts := 0, [], map[], map[], [], {};
    }

    method Rollback(saved: Spec.Store)
      modifies this
      ensures View() == saved
    {
      generation, rows, claims := saved.generation, saved.rows, saved.claims;
      resources, history, receipts := saved.resources, saved.history, saved.receipts;
    }

    /** Each live claim once, in listing order. */
    method ActiveClaims() returns (live: seq<Spec.Claim>)
      ensures forall c :: c in live <==> exists id <- claims :: Spec.LiveId(View(), id) && claims[id] == c
      ensures forall c <- live :: c.state == Spec.Active || c.state == Spec.ExpiredPending
      ensures Spec.Listed(live) && forall i, j :: 0 <= i < j < |live| ==>
        && live[i].issueId <= live[j].issueId && live[i] != live[j]
        && (live[i].issueId == live[j].issueId ==> live[i].claimId <= live[j].claimId)
    {
      var rest := set id | id in claims && Spec.Live(claims[id]) :: claims[id];
      live := [];
      while rest != {}
        invariant forall c ::
          c in live || c in rest <==> exists id <- claims :: Spec.LiveId(View(), id) && claims[id] == c
        invariant Spec.Listed(live) && forall a, b :: a in live && b in rest ==> a != b && Spec.Before(a, b)
        decreases rest
      {
        var next := First(rest);
        assert forall i :: 0 <= i < |live| ==> live[i] in live;
        live := live + [next];
        rest := rest - {next};
      }
    }

    static method First(claims: set<Spec.Claim>) returns (low: Spec.Claim)
      requires claims != {}
      ensures low in claims && forall c <- claims :: Spec.Before(low, c)
    {
      low :| low in claims;
      var rest := claims - {low};
      while rest != {}
        invariant low in claims && rest <= claims && forall c <- claims :: c in rest || Spec.Before(low, c)
        decreases rest
      {
        var c :| c in rest;
        if !Spec.Before(low, c) {
          low := c;
        }
        rest := rest - {c};
      }
    }

    method ExpireLocked(now: real)
      modifies this
      ensures View() == Spec.Expire(old(View()), now)
    {
      var due := Spec.LapsedRows(View(), rows, now);
      for i := 0 to |due|
        invariant forall id <- due :: id in claims
        invariant Spec.ExpireRows(View(), due[i..], now) == Spec.ExpireRows(old(View()), due, now)
      {
        ghost var before := View();
        var id := due[i];
        claims := claims[id := claims[id].(state := Spec.ExpiredPending)];
        generation := generation + 1;
        history := history + [Spec.HistoryRow(id, generation, Spec.LeaseExpired, now)];
        assert View() == Spec.ExpireOne(before, id, now);
        assert due[i..][0] == id && due[i..][1..] == due[i + 1..];
      }
    }

    method ExpireLeases(now: real) returns (live: seq<Spec.Claim>)
      modifies this
      ensures View() == Spec.Expire(old(View()), now)
      ensures forall c :: c in live <==> exists id <- claims :: Spec.LiveId(View(), id) && claims[id] == c
      ensures Spec.Listed(live)
    {
      ExpireLocked(now);
      live := ActiveClaims();
    }

    /** The (key, owner) pairs among `keys`, in key order. */
    method ResourceConflicts(keys: seq<Spec.Key>) returns (holders: seq<(Spec.Key, Spec.Id)>)
      ensures holders == Spec.HoldersAmong(resources, keys)
    {
      holders := [];
      for i := 0 to |keys|
        invariant holders + Spec.HoldersAmong(resources, keys[i..]) == Spec.HoldersAmong(resources, keys)
      {
        assert keys[i..][0] == keys[i] && keys[i..][1..] == keys[i + 1..];
        if keys[i] in resources {
          holders := holders + [(keys[i], resources[keys[i]])];
        }
      }
    }

    /** Inserts one resource row per key; stops at the first that is already there. */
    method InsertResources(keys: seq<Spec.Key>, id: Spec.Id) returns (clean: bool)
      modifies this`resources
      ensures (resources, clean) == Spec.InsertKeys(old(resources), keys, id)
    {
      clean := true;
      for i := 0 to |keys|
        invariant Spec.InsertKeys(resources, keys[i..], id) == Spec.InsertKeys(old(resources), keys, id)
      {
        assert keys[i..][0] == keys[i] && keys[i..][1..] == keys[i + 1..];
        if keys[i] in resources {
          return false;
        }
        resources := resources[keys[i] := id];
      }
    }

    method Acquire(c: Spec.Claim, keys: seq<Spec.Key>, expected: nat) returns (r: Spec.Result)
      modifies this
      ensures (View(), r) == Spec.Acquire(old(View()), c, keys, expected)
    {
      if c.state != Spec.Active || !Distinct(keys) || keys == [] {
        return Spec.Refused(Spec.InvalidRequest);
      }
      var saved := View();
      ExpireLocked(c.profile.acquiredAt);
      if generation != expected {
        Rollback(saved);
        return Spec.Refused(Spec.GenerationChanged);
      }
      ghost var e := View();
      generation := generation + 1;
      resources := Spec.LiveResources(View());
      assert resources == Spec.LiveResources(e);
      if Spec.ClaimRowConflicts(View(), c) {
        assert Spec.ClaimRowConflicts(e, c);
        var holders := ResourceConflicts(keys);
        Rollback(saved);
        return Spec.Refused(Spec.AlreadyClaimed(holders));
      }
      assert !Spec.ClaimRowConflicts(e, c);
      var stored := c.(generation := generation);
      claims := claims[c.claimId := stored];
      rows := rows + [c.claimId];
      var clean := InsertResources(keys, c.claimId);
      if !clean {
        var holders := ResourceConflicts(keys);
        Rollback(saved);
        return Spec.Refused(Spec.AlreadyClaimed(holders));
      }
      history := history + [Spec.HistoryRow(c.claimId, generation, Spec.Acquired(keys), c.profile.acquiredAt)];
      return Spec.Ok(stored);
    }

    method Transition(id: Spec.Id, run: Spec.Id, driver: Spec.Id, gen: nat, change: Spec.Change, now: real)
      returns (r: Spec.Result)
      modifies this
      ensures (View(), r) == Spec.Transition(old(View()), id, run, driver, gen, change, now)
    {
      if id !in claims || claims[id].runId != run || claims[id].driverId != driver || claims[id].generation != gen {
        return Spec.Refused(Spec.OwnershipMismatch);
      }
      if claims[id].state != Spec.Active {
        return Spec.Refused(Spec.NotActive);
      }
      generation := generation + 1;
      claims := claims[id := Spec.Updated(claims[id], change).(generation := generation)];
      if change.Free? {
        resources := map k | k in resources && resources[k] != id :: resources[k];
      }
      history := history + [Spec.HistoryRow(id, generation, Spec.Changed(change), now)];
      return Spec.Ok(claims[id]);
    }

    method Heartbeat(id: Spec.Id, run: Spec.Id, driver: Spec.Id, gen: nat, until: real, now: real)
      returns (r: Spec.Result)
      modifies this
      ensures (View(), r) == Spec.Heartbeat(old(View()), id, run, driver, gen, until, now)
    {
      if until <= now {
        return Spec.Refused(Spec.InvalidRequest);
      }
      r := Transition(id, run, driver, gen, Spec.Beat(now, until), now);
    }

    method Release(id: Spec.Id, run: Spec.Id, driver: Spec.Id, gen: nat, reason: Option<Spec.Id>, now: real)
      returns (r: Spec.Result)
      modifies this
      ensures (View(), r) == Spec.Release(old(View()), id, run, driver, gen, reason, now)
    {
      if reason.None? {
        return Spec.Refused(Spec.InvalidRequest);
      }
      r := Transition(id, run, driver, gen, Spec.Free(now, reason.value), now);
    }

    /** The session is read before the transaction opens. */
    method BindEngineSession(id: Spec.Id, run: Spec.Id, driver: Spec.Id, gen: nat, session: Option<Spec.Id>, now: real)
      returns (r: Spec.Result)
      modifies this
      ensures (View(), r) == Spec.BindEngineSession(old(View()), id, run, driver, gen, session, now)
    {
      if session.None? {
        return Spec.Refused(Spec.InvalidRequest);
      }
      if id !in claims || claims[id].engineSession.Some? {
        return Spec.Refused(Spec.AlreadyBound);
      }
      r := Transition(id, run, driver, gen, Spec.Bind(session.value), now);
    }

    method ConsumeReceipt(receipt: Spec.ReceiptId) returns (unused: bool)
      modifies this
      ensures (View(), unused) == Spec.ConsumeReceipt(old(View()), receipt)
    {
      if receipt in receipts {
        return false;
      }
      receipts := receipts + {receipt};
      return true;
    }
  }
}
