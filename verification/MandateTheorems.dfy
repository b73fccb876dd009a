/** What mandate verification promises over any sequence of calls. */
module MandateTheorems {
  import opened Prelude
  import opened Mandate

  datatype Attempt = Attempt(env: Envelope, call: Call, w: World)

  const EMPTY := Stores({}, map[])

  predicate ClearsIn(a: Attempt, c: Check, st: Stores) {
    Clears(c, a.env, a.call, a.w, st)
  }

  function After(a: Attempt, st: Stores): Stores {
    Verify(a.env, a.call, a.w, st).1
  }

  predicate Accepted(a: Attempt, st: Stores) {
    Verify(a.env, a.call, a.w, st).0.reason.None?
  }

  function Run(st: Stores, attempts: seq<Attempt>): Stores
    decreases |attempts|
  {
    if |attempts| == 0 then st else Run(After(attempts[0], st), attempts[1..])
  }

  // ---- The order of the checks ----

  lemma {:induction false} PassesUntil(c: Check, x: Check, env: Envelope, call: Call, w: World, st: Stores)
    requires var f := FirstFailure(c, env, call, w, st);
      Place(c) <= Place(x) && (f.Some? ==> Place(x) < Place(f.value))
    ensures Passes(x, env, call, w, st)
    decreases 20 - Place(c)
  {
    hide Passes;
    NextInOrder(c, x);
    if c != x && Passes(c, env, call, w, st) {
      PassesUntil(Following(c).value, x, env, call, w, st);
    }
  }

  lemma NextInOrder(c: Check, x: Check)
    requires Place(c) <= Place(x)
    ensures c != x ==> Following(c).Some? && Place(Following(c).value) == Place(c) + 1 && Place(c) < Place(x)
  {
  }

  /** A check fails first exactly when it fails and every check before it passes; a call is accepted exactly
      when every check passes. */
  lemma FirstFailureDecides(a: Attempt, st: Stores, c: Check)
    ensures FirstFailure(Present, a.env, a.call, a.w, st) == Some(c) <==>
      && !Passes(c, a.env, a.call, a.w, st)
      && forall x :: Place(x) < Place(c) ==> Passes(x, a.env, a.call, a.w, st)
    ensures Accepted(a, st) <==> forall x :: Passes(x, a.env, a.call, a.w, st)
  {
    hide Passes, ReasonOf, Text, MandateId, Debited;
    var f := FirstFailure(Present, a.env, a.call, a.w, st);
    forall x | f.Some? ==> Place(x) < Place(f.value)
      ensures Passes(x, a.env, a.call, a.w, st)
    {
      PassesUntil(Present, x, a.env, a.call, a.w, st);
    }
    if f.Some? { FailureFails(Present, a.env, a.call, a.w, st); }
  }

  lemma {:induction false} FailureFails(c: Check, env: Envelope, call: Call, w: World, st: Stores)
    requires FirstFailure(c, env, call, w, st).Some?
    ensures !Passes(FirstFailure(c, env, call, w, st).value, env, call, w, st)
    decreases 20 - Place(c)
  {
    hide Passes;
    NextInOrder(c, Scope);
    if Passes(c, env, call, w, st) && Following(c).Some? { FailureFails(Following(c).value, env, call, w, st); }
  }

  lemma ClearMeansPassed(a: Attempt, c: Check, st: Stores)
    requires ClearsIn(a, c, st)
    ensures Passes(c, a.env, a.call, a.w, st)
  {
    hide Passes, FirstFailure;
    PassesUntil(Present, c, a.env, a.call, a.w, st);
  }

  // ---- The stores ----

  /** A call that fails before or at the nonce check changes neither store; any other leaves its nonce spent,
      accepted or not. */
  lemma StoresChangeExactly(a: Attempt, st: Stores)
    ensures var t := After(a, st);
      && (t == st <==> !ClearsIn(a, NonceUnused, st))
      && (ClearsIn(a, NonceUnused, st) ==>
            Text(a.env, NonceField) !in st.used && t.used == st.used + {Text(a.env, NonceField)})
      && (t.spent != st.spent ==> ClearsIn(a, CapReadable, st) && MandateId(a.env).Some?)
  {
    hide FirstFailure, Text, MandateId, Debited;
    if ClearsIn(a, NonceUnused, st) {
      ClearMeansPassed(a, NonceUnused, st);
    }
    assert ClearsIn(a, CapReadable, st) ==> ClearsIn(a, NonceUnused, st);
  }

  // ---- Each nonce once ----

  lemma {:induction false} UsedGrows(st: Stores, attempts: seq<Attempt>)
    ensures st.used <= Run(st, attempts).used
    decreases |attempts|
  {
    hide After, Clears;
    if |attempts| > 0 {
      StoresChangeExactly(attempts[0], st);
      UsedGrows(After(attempts[0], st), attempts[1..]);
    }
  }

  /** In any sequence of calls no two that get past the nonce check carry the same nonce. */
  lemma NonceOnce(st: Stores, attempts: seq<Attempt>, i: nat, j: nat)
    requires i < j < |attempts|
    requires ClearsIn(attempts[i], NonceUnused, Run(st, attempts[..i]))
    requires ClearsIn(attempts[j], NonceUnused, Run(st, attempts[..j]))
    ensures Text(attempts[i].env, NonceField) != Text(attempts[j].env, NonceField)
  {
    hide After, ClearsIn, Text;
    var (si, sj) := (Run(st, attempts[..i]), Run(st, attempts[..j]));
    StoresChangeExactly(attempts[i], si);
    StoresChangeExactly(attempts[j], sj);
    RunExtends(st, attempts[..i], attempts[i]);
    assert attempts[..i] + [attempts[i]] == attempts[..i + 1];
    RunParts(st, attempts[..i + 1], attempts[i + 1..j]);
    assert attempts[..i + 1] + attempts[i + 1..j] == attempts[..j];
    UsedGrows(Run(st, attempts[..i + 1]), attempts[i + 1..j]);
  }

  lemma {:induction false} RunParts(st: Stores, a: seq<Attempt>, b: seq<Attempt>)
    ensures Run(st, a + b) == Run(Run(st, a), b)
    decreases |a|
  {
    hide After;
    if |a| == 0 {
      assert a + b == b;
    } else {
      assert (a + b)[1..] == a[1..] + b;
      RunParts(After(a[0], st), a[1..], b);
    }
  }

  lemma RunExtends(st: Stores, a: seq<Attempt>, last: Attempt)
    ensures Run(st, a + [last]) == After(last, Run(st, a))
  {
    hide After;
    RunParts(st, a, [last]);
    assert [last][1..] == [];
  }

  // ---- The accounts ----

  predicate Debits(a: Attempt, st: Stores, id: string) {
    ClearsIn(a, CapReadable, st) && MandateId(a.env) == Some(id)
  }

  /** What all calls that reached the budget check cost a mandate. */
  function DebitedCost(st: Stores, attempts: seq<Attempt>, id: string): real
    decreases |attempts|
  {
    if |attempts| == 0 then 0.0
    else
      var first := if Debits(attempts[0], st, id) then Clamped(attempts[0].call.cost) else 0.0;
      first + DebitedCost(After(attempts[0], st), attempts[1..], id)
  }

  /** What the accepted ones cost it. */
  function AcceptedCost(st: Stores, attempts: seq<Attempt>, id: string): real
    decreases |attempts|
  {
    if |attempts| == 0 then 0.0
    else
      var counts := Accepted(attempts[0], st) && MandateId(attempts[0].env) == Some(id);
      (if counts then Clamped(attempts[0].call.cost) else 0.0) + AcceptedCost(After(attempts[0], st), attempts[1..], id)
  }

  lemma StepDebits(a: Attempt, st: Stores, id: string)
    requires id != ""
    ensures Spent(After(a, st).spent, id) ==
      Spent(st.spent, id) + if Debits(a, st, id) then Clamped(a.call.cost) else 0.0
    ensures Accepted(a, st) && MandateId(a.env) == Some(id) ==> Debits(a, st, id)
  {
    hide FirstFailure, Text, MandateId;
  }

  /** Nothing is lost: a mandate's total is what it was plus everything debited since, accepted or not. */
  lemma {:induction false} SpentIsDebited(st: Stores, attempts: seq<Attempt>, id: string)
    requires id != ""
    ensures Spent(Run(st, attempts).spent, id) == Spent(st.spent, id) + DebitedCost(st, attempts, id)
    ensures 0.0 <= AcceptedCost(st, attempts, id) <= DebitedCost(st, attempts, id)
    decreases |attempts|
  {
    hide After, Debits, Accepted, Spent;
    if |attempts| > 0 {
      StepDebits(attempts[0], st, id);
      SpentIsDebited(After(attempts[0], st), attempts[1..], id);
    }
  }

  /** At each acceptance the clamped cost of all calls accepted so far under that mandate id, this one
      included, is within this envelope's cap. */
  lemma AcceptedWithinCap(attempts: seq<Attempt>, last: Attempt)
    requires Accepted(last, Run(EMPTY, attempts))
    ensures MandateId(last.env).Some? && Cap(last.w, last.env).Some?
    ensures AcceptedCost(EMPTY, attempts + [last], MandateId(last.env).value) <= Cap(last.w, last.env).value
  {
    hide FirstFailure, AcceptedCost, Clears;
    var st := Run(EMPTY, attempts);
    FirstFailureDecides(last, st, Budget);
    assert Passes(Budget, last.env, last.call, last.w, st);
    var id := MandateId(last.env).value;
    SpentIsDebited(EMPTY, attempts, id);
    AcceptedExtends(EMPTY, attempts, last, id);
  }

  lemma {:induction false} AcceptedExtends(st: Stores, attempts: seq<Attempt>, last: Attempt, id: string)
    ensures AcceptedCost(st, attempts + [last], id) == AcceptedCost(st, attempts, id) +
      if Accepted(last, Run(st, attempts)) && MandateId(last.env) == Some(id) then Clamped(last.call.cost) else 0.0
    decreases |attempts|
  {
    hide After, Accepted;
    if |attempts| == 0 {
      assert attempts + [last] == [last] && [last][1..] == [];
    } else {
      assert (attempts + [last])[1..] == attempts[1..] + [last];
      AcceptedExtends(After(attempts[0], st), attempts[1..], last, id);
    }
  }
}
