/** What a mandate's fields must say, told from the raw envelope: which calls are accepted, with which reason the
    others are refused, and when the two registers are written. */
module MandateTerms {
  import opened Prelude
  import opened Mandate
  import opened MandateTheorems

  const CLASSES := ["L0", "L1", "L2", "L3"]

  const FIELDS := {
    SchemaVersion, MandateName, GrantedBy, Kid, IssueRefField, AllowedTools, DataClassMax,
    BudgetMax, MaxRuntimeSeconds, ExpiresAt, NonceField, ScopeFingerprint, SignatureField}

  // ---- The terms, one by one ----

  /** Exactly the fields of schema 2, naming a key of a known issuer. */
  predicate NamesKey(f: Fields, w: World) {
    && f.Keys == FIELDS && f[SchemaVersion] == Num(2.0)
    && f[GrantedBy].Str? && f[GrantedBy].text in w.keys
    && f[Kid].Str? && f[Kid].text != "" && f[Kid].text in w.keys[f[GrantedBy].text]
  }

  /** That key is not revoked and signed everything but the signature. */
  predicate Authentic(f: Fields, w: World) {
    && NamesKey(f, w) && !w.revoked(f[GrantedBy].text, f[Kid].text)
    && f[SignatureField].Str? && f[SignatureField].text != ""
    && w.verifies(w.keys[f[GrantedBy].text][f[Kid].text], f[SignatureField].text,
                  map field | field in f && field != SignatureField :: f[field])
  }

  /** An authentic envelope whose nonce has not been seen: its nonce is spent, whatever comes later. */
  predicate Spends(f: Fields, w: World, st: Stores) {
    Authentic(f, w) && f[NonceField].Str? && f[NonceField].text != "" && f[NonceField].text !in st.used
  }

  predicate Unexpired(f: Fields, w: World)
    requires f.Keys == FIELDS
  {
    w.parseTime(f[ExpiresAt]).Some? && w.now < w.parseTime(f[ExpiresAt]).value
  }

  predicate Lists(f: Fields, tool: string)
    requires f.Keys == FIELDS
  {
    f[AllowedTools].List? && Str(tool) in f[AllowedTools].items
  }

  predicate IsClass(c: Json) {
    c.Str? && c.text in CLASSES
  }

  /** The call's class comes no later in the order than the envelope's. */
  ghost predicate ClassCovers(f: Fields, dataClass: string)
    requires f.Keys == FIELDS
  {
    exists i, j :: 0 <= i <= j < |CLASSES| && CLASSES[i] == dataClass && Str(CLASSES[j]) == f[DataClassMax]
  }

  predicate WholeSeconds(f: Fields)
    requires f.Keys == FIELDS
  {
    f[MaxRuntimeSeconds].Num? && f[MaxRuntimeSeconds].value >= 0.0 &&
    f[MaxRuntimeSeconds].value.Floor as real == f[MaxRuntimeSeconds].value
  }

  predicate RuntimeCovers(f: Fields, runtime: Option<real>)
    requires f.Keys == FIELDS
  {
    WholeSeconds(f) && (runtime.Some? ==> runtime.value <= f[MaxRuntimeSeconds].value)
  }

  /** Everything that is checked before the account is debited, the nonce included. */
  ghost predicate Debitable(f: Fields, call: Call, w: World, st: Stores) {
    && Spends(f, w, st) && Unexpired(f, w) && Lists(f, call.tool) && ClassCovers(f, call.dataClass)
    && RuntimeCovers(f, call.runtime) && w.parseNumber(f[BudgetMax]).Some?
  }

  function Account(st: Stores, id: string): real {
    if id in st.spent then st.spent[id] else 0.0
  }

  predicate Named(f: Fields) {
    MandateName in f && f[MandateName].Str? && f[MandateName].text != ""
  }

  /** The mandate has a name, and its account with this call is within the cap. */
  predicate Affordable(f: Fields, call: Call, w: World, st: Stores)
    requires f.Keys == FIELDS && w.parseNumber(f[BudgetMax]).Some?
  {
    Named(f) &&
    Account(st, f[MandateName].text) + (if call.cost > 0.0 then call.cost else 0.0) <=
    w.parseNumber(f[BudgetMax]).value
  }

  predicate SameIssue(f: Fields, call: Call)
    requires f.Keys == FIELDS
  {
    call.issueRef != "" ==> f[IssueRefField] == Str(call.issueRef)
  }

  /** An expected fingerprint is compared as it is; otherwise the scope text's is. */
  predicate SameScope(f: Fields, call: Call, w: World)
    requires f.Keys == FIELDS
  {
    && (call.expected.Some? ==> f[ScopeFingerprint] == Str(call.expected.value))
    && (call.expected.None? && call.scopeText.Some? ==> f[ScopeFingerprint] == Str(w.hash(call.scopeText.value)))
  }

  // ---- The reasons, in their documented order ----

  function FormReason(env: Envelope, w: World): (r: Option<Reason>)
    ensures r.None? ==> env.Dict? && NamesKey(env.fields, w)
  {
    if env.Missing? then Some(MandateMissing)
    else if env.NotADict? then Some(Malformed)
    else
      var f := env.fields;
      if SchemaVersion in f && f[SchemaVersion] != Num(2.0) then Some(UnknownSchema)
      else if f.Keys != FIELDS then Some(Malformed)
      else if !f[GrantedBy].Str? || f[GrantedBy].text !in w.keys then Some(UnknownIssuer)
      else if !NamesKey(f, w) then Some(UnknownKey)
      else None
  }

  function SignatureReason(f: Fields, w: World): Option<Reason>
    requires NamesKey(f, w)
  {
    if w.revoked(f[GrantedBy].text, f[Kid].text) then Some(KeyRevoked)
    else if !f[SignatureField].Str? || f[SignatureField].text == "" then Some(MissingSignature)
    else if !Authentic(f, w) then Some(InvalidSignature)
    else None
  }

  function NonceReason(f: Fields, st: Stores): Option<Reason>
    requires f.Keys == FIELDS
  {
    if !f[NonceField].Str? || f[NonceField].text == "" then Some(Malformed)
    else if f[NonceField].text in st.used then Some(NonceReplayed)
    else None
  }

  ghost function TermReason(f: Fields, call: Call, w: World): Option<Reason>
    requires f.Keys == FIELDS
  {
    if w.parseTime(f[ExpiresAt]).None? then Some(ExpiryInvalid)
    else if !Unexpired(f, w) then Some(Expired)
    else if !Lists(f, call.tool) then Some(ToolNotAllowed)
    else if call.dataClass !in CLASSES || !IsClass(f[DataClassMax]) then Some(InvalidDataClass)
    else if !ClassCovers(f, call.dataClass) then Some(DataClassExceeded)
    else None
  }

  function LimitReason(f: Fields, call: Call, w: World): (r: Option<Reason>)
    requires f.Keys == FIELDS
    ensures r.None? ==> w.parseNumber(f[BudgetMax]).Some?
  {
    if !WholeSeconds(f) then Some(Malformed)
    else if !RuntimeCovers(f, call.runtime) then Some(RuntimeExceeded)
    else if w.parseNumber(f[BudgetMax]).None? then Some(Malformed)
    else None
  }

  function TargetReason(f: Fields, call: Call, w: World, st: Stores): Option<Reason>
    requires f.Keys == FIELDS && w.parseNumber(f[BudgetMax]).Some?
  {
    if !Affordable(f, call, w, st) then Some(BudgetExceeded)
    else if !SameIssue(f, call) then Some(IssueMismatch)
    else if !SameScope(f, call, w) then Some(FingerprintMismatch)
    else None
  }

  function First(a: Option<Reason>, b: Option<Reason>): Option<Reason> {
    if a.Some? then a else b
  }

  /** The reason, if any, from the signature on: signature, nonce, terms, limits, then budget, issue and scope. */
  ghost function LaterReason(f: Fields, call: Call, w: World, st: Stores): Option<Reason>
    requires NamesKey(f, w)
  {
    First(SignatureReason(f, w), First(NonceReason(f, st), First(TermReason(f, call, w),
      if LimitReason(f, call, w).Some? then LimitReason(f, call, w) else TargetReason(f, call, w, st))))
  }

  ghost function Refusal(env: Envelope, call: Call, w: World, st: Stores): Option<Reason> {
    if FormReason(env, w).Some? then FormReason(env, w) else LaterReason(env.fields, call, w, st)
  }

  // ---- The checks are these terms ----

  /** The search for a failure from `c` on ends with this reason, or goes on from `next`. */
  predicate Stage(a: Attempt, st: Stores, c: Check, reason: Option<Reason>, next: Option<Check>) {
    var f := FirstFailure(c, a.env, a.call, a.w, st);
    if reason.Some? then
      f.Some? && ReasonOf(f.value, a.env) == reason.value && (next.Some? ==> Place(f.value) < Place(next.value))
    else if next.Some? then f == FirstFailure(next.value, a.env, a.call, a.w, st)
    else f.None?
  }

  lemma FormStage(a: Attempt, st: Stores)
    ensures Stage(a, st, Present, FormReason(a.env, a.w), Some(Revocation))
  {
    NextCheck(Present, a.env, a.call, a.w, st);
    NextCheck(Schema, a.env, a.call, a.w, st);
    NextCheck(Shape, a.env, a.call, a.w, st);
    NextCheck(Issuer, a.env, a.call, a.w, st);
    NextCheck(Key, a.env, a.call, a.w, st);
    hide FirstFailure;
  }

  lemma SignatureStage(a: Attempt, st: Stores)
    requires a.env.Dict? && NamesKey(a.env.fields, a.w)
    ensures Stage(a, st, Revocation, SignatureReason(a.env.fields, a.w), Some(NonceShape))
  {
    NextCheck(Revocation, a.env, a.call, a.w, st);
    NextCheck(SignaturePresent, a.env, a.call, a.w, st);
    NextCheck(Signature, a.env, a.call, a.w, st);
    SignatureChecks(a, st);
    assert ReasonOf(Revocation, a.env) == KeyRevoked && ReasonOf(SignaturePresent, a.env) == MissingSignature;
    assert ReasonOf(Signature, a.env) == InvalidSignature;
    assert Place(Revocation) < Place(SignaturePresent) < Place(Signature) < Place(NonceShape);
    assert Following(Revocation) == Some(SignaturePresent) && Following(SignaturePresent) == Some(Signature);
    assert Following(Signature) == Some(NonceShape);
    hide FirstFailure, Passes, Authentic, NamesKey, FIELDS, Place, ReasonOf, Following;
  }

  lemma NonceStage(a: Attempt, st: Stores)
    requires a.env.Dict? && a.env.fields.Keys == FIELDS
    ensures Stage(a, st, NonceShape, NonceReason(a.env.fields, st), Some(ExpiryReadable))
  {
    NextCheck(NonceShape, a.env, a.call, a.w, st);
    NextCheck(NonceUnused, a.env, a.call, a.w, st);
    hide FirstFailure;
  }

  lemma SignatureChecks(a: Attempt, st: Stores)
    requires a.env.Dict? && NamesKey(a.env.fields, a.w)
    ensures var f := a.env.fields;
      && (Passes(Revocation, a.env, a.call, a.w, st) <==> !a.w.revoked(f[GrantedBy].text, f[Kid].text))
      && (Passes(SignaturePresent, a.env, a.call, a.w, st) <==> f[SignatureField].Str? && f[SignatureField].text != "")
    ensures var f := a.env.fields;
      && (Passes(Revocation, a.env, a.call, a.w, st) && Passes(SignaturePresent, a.env, a.call, a.w, st) ==>
            (Passes(Signature, a.env, a.call, a.w, st) <==> Authentic(f, a.w)))
  {
    var f := a.env.fields;
    assert Signed(f) == map field | field in f && field != SignatureField :: f[field];
  }

  /** The rank of a class is its place in the order. */
  lemma ClassRank(c: string)
    ensures Rank(c).Some? <==> c in CLASSES
    ensures Rank(c).Some? ==> Rank(c).value < 4 && CLASSES[Rank(c).value] == c
    ensures forall i :: 0 <= i < 4 && CLASSES[i] == c ==> Rank(c) == Some(i)
  {
    assert CLASSES[0] == "L0" && CLASSES[1] == "L1" && CLASSES[2] == "L2" && CLASSES[3] == "L3";
    assert "L0"[1] == '0' && "L1"[1] == '1' && "L2"[1] == '2' && "L3"[1] == '3';
  }

  lemma ClassChecks(a: Attempt, st: Stores)
    requires a.env.Dict? && a.env.fields.Keys == FIELDS
    ensures var f := a.env.fields;
      && (Passes(DataClassKnown, a.env, a.call, a.w, st) <==> a.call.dataClass in CLASSES && IsClass(f[DataClassMax]))
      && (Passes(DataClass, a.env, a.call, a.w, st) <==> ClassCovers(f, a.call.dataClass))
  {
    var (f, c) := (a.env.fields, a.call.dataClass);
    ClassRank(c);
    ClassRank("");
    assert "" !in CLASSES by { assert forall k <- CLASSES :: |k| == 2; }
    if f[DataClassMax].Str? { ClassRank(f[DataClassMax].text); }
    hide Rank, CLASSES;
    if ClassWithin(a.env, a.call) {
      var (i, j) := (Rank(c).value, Rank(f[DataClassMax].text).value);
      assert CLASSES[i] == c && Str(CLASSES[j]) == f[DataClassMax];
    }
    if ClassCovers(f, c) {
      var i, j :| 0 <= i <= j < |CLASSES| && CLASSES[i] == c && Str(CLASSES[j]) == f[DataClassMax];
      assert CLASSES[i] in CLASSES && CLASSES[j] in CLASSES;
    }
  }

  lemma TermChecks(a: Attempt, st: Stores)
    requires a.env.Dict? && a.env.fields.Keys == FIELDS
    ensures var f := a.env.fields;
      && (Passes(ExpiryReadable, a.env, a.call, a.w, st) <==> a.w.parseTime(f[ExpiresAt]).Some?)
      && (Passes(Expiry, a.env, a.call, a.w, st) <==> Unexpired(f, a.w))
      && (Passes(Tools, a.env, a.call, a.w, st) <==> Lists(f, a.call.tool))
      && (Passes(RuntimeShape, a.env, a.call, a.w, st) <==> WholeSeconds(f))
      && (Passes(Runtime, a.env, a.call, a.w, st) <==> RuntimeCovers(f, a.call.runtime))
      && (Passes(CapReadable, a.env, a.call, a.w, st) <==> a.w.parseNumber(f[BudgetMax]).Some?)
  {
  }

  lemma TermStage(a: Attempt, st: Stores)
    requires a.env.Dict? && a.env.fields.Keys == FIELDS
    ensures Stage(a, st, ExpiryReadable, TermReason(a.env.fields, a.call, a.w), Some(RuntimeShape))
  {
    NextCheck(ExpiryReadable, a.env, a.call, a.w, st);
    NextCheck(Expiry, a.env, a.call, a.w, st);
    NextCheck(Tools, a.env, a.call, a.w, st);
    NextCheck(DataClassKnown, a.env, a.call, a.w, st);
    NextCheck(DataClass, a.env, a.call, a.w, st);
    TermChecks(a, st);
    ClassChecks(a, st);
    hide FirstFailure, Passes, Unexpired, Lists, IsClass, ClassCovers, FIELDS, CLASSES;
  }

  lemma LimitStage(a: Attempt, st: Stores)
    requires a.env.Dict? && a.env.fields.Keys == FIELDS
    ensures Stage(a, st, RuntimeShape, LimitReason(a.env.fields, a.call, a.w), Some(Budget))
  {
    NextCheck(RuntimeShape, a.env, a.call, a.w, st);
    NextCheck(Runtime, a.env, a.call, a.w, st);
    NextCheck(CapReadable, a.env, a.call, a.w, st);
    TermChecks(a, st);
    hide FirstFailure, Passes, WholeSeconds, RuntimeCovers, FIELDS;
  }

  lemma TargetStage(a: Attempt, st: Stores)
    requires a.env.Dict? && a.env.fields.Keys == FIELDS && a.w.parseNumber(a.env.fields[BudgetMax]).Some?
    ensures Stage(a, st, Budget, TargetReason(a.env.fields, a.call, a.w, st), None)
  {
    NextCheck(Budget, a.env, a.call, a.w, st);
    NextCheck(IssueRef, a.env, a.call, a.w, st);
    NextCheck(Scope, a.env, a.call, a.w, st);
    hide FirstFailure;
  }

  // ---- What verification decides ----

  /** Where the search for a failure gets to, stage by stage. */
  lemma Stages(a: Attempt, st: Stores)
    ensures Stage(a, st, Present, FormReason(a.env, a.w), Some(Revocation))
    ensures FormReason(a.env, a.w).None? ==> var f := a.env.fields;
      && Stage(a, st, Revocation, SignatureReason(f, a.w), Some(NonceShape))
      && Stage(a, st, NonceShape, NonceReason(f, st), Some(ExpiryReadable))
      && Stage(a, st, ExpiryReadable, TermReason(f, a.call, a.w), Some(RuntimeShape))
      && Stage(a, st, RuntimeShape, LimitReason(f, a.call, a.w), Some(Budget))
      && (LimitReason(f, a.call, a.w).None? ==> Stage(a, st, Budget, TargetReason(f, a.call, a.w, st), None))
  {
    hide Stage, SignatureReason, NonceReason, TermReason, LimitReason, TargetReason;
    FormStage(a, st);
    if FormReason(a.env, a.w).None? {
      SignatureStage(a, st);
      NonceStage(a, st);
      TermStage(a, st);
      LimitStage(a, st);
      if LimitReason(a.env.fields, a.call, a.w).None? { TargetStage(a, st); }
    }
  }

  /** Every call gets exactly the first reason, in the documented order, that its raw fields give. */
  lemma ReasonExactly(a: Attempt, st: Stores)
    ensures Verify(a.env, a.call, a.w, st).0.reason == Refusal(a.env, a.call, a.w, st)
    ensures Verify(a.env, a.call, a.w, st).0.mandateId ==
      if a.env.Dict? && Named(a.env.fields) then Some(a.env.fields[MandateName].text) else None
  {
    Stages(a, st);
    hide FirstFailure, FormReason, SignatureReason, NonceReason, TermReason, LimitReason, TargetReason, ReasonOf;
  }

  /** What is left when the reasons up to the nonce, or up to the limits, are not given. */
  lemma ReasonsMean(a: Attempt, st: Stores)
    requires FormReason(a.env, a.w).None?
    ensures var f := a.env.fields;
      && (SignatureReason(f, a.w).None? && NonceReason(f, st).None? <==> Spends(f, a.w, st))
      && (Spends(f, a.w, st) && TermReason(f, a.call, a.w).None? && LimitReason(f, a.call, a.w).None? <==>
            Debitable(f, a.call, a.w, st))
  {
    var f := a.env.fields;
    if ClassCovers(f, a.call.dataClass) { CoversKnown(f, a.call); }
    hide CLASSES, ClassCovers, IsClass;
  }

  lemma CoversKnown(f: Fields, call: Call)
    requires f.Keys == FIELDS && ClassCovers(f, call.dataClass)
    ensures call.dataClass in CLASSES && IsClass(f[DataClassMax])
  {
  }

  /** A call is accepted exactly if its envelope is authentic with an unseen nonce, has not expired, lists the tool,
      covers the data class and the runtime, can afford the cost, and names the issue and the scope. */
  lemma AcceptedExactly(a: Attempt, st: Stores)
    ensures Accepted(a, st) <==>
      && a.env.Dict? && Debitable(a.env.fields, a.call, a.w, st) && Affordable(a.env.fields, a.call, a.w, st)
      && SameIssue(a.env.fields, a.call) && SameScope(a.env.fields, a.call, a.w)
  {
    ReasonExactly(a, st);
    FormMeans(a.env, a.w);
    if FormReason(a.env, a.w).None? { ReasonsMean(a, st); }
    hide Verify, Spends, FormReason, SignatureReason, NonceReason, TermReason, LimitReason;
    hide Affordable, SameIssue, SameScope;
  }

  lemma FormMeans(env: Envelope, w: World)
    ensures FormReason(env, w).None? <==> env.Dict? && NamesKey(env.fields, w)
  {
  }

  /** The nonce is spent exactly if the call gets that far, and the account debited exactly if it gets there with a
      mandate name, whether or not the call is accepted. */
  lemma RegistersExactly(a: Attempt, st: Stores)
    ensures After(a, st).used ==
      if a.env.Dict? && Spends(a.env.fields, a.w, st) then st.used + {a.env.fields[NonceField].text} else st.used
    ensures After(a, st).spent ==
      if a.env.Dict? && Debitable(a.env.fields, a.call, a.w, st) && Named(a.env.fields) then
        var id := a.env.fields[MandateName].text;
        st.spent[id := Account(st, id) + if a.call.cost > 0.0 then a.call.cost else 0.0]
      else st.spent
  {
    ClearsExactly(a, st);
    StoresAre(a, st);
    hide After, Clears;
    if a.env.Dict? && Spends(a.env.fields, a.w, st) { AccountIs(a, st); }
    hide Text, MandateId, Debited, Authentic, Account, Unexpired, Lists, ClassCovers, RuntimeCovers;
  }

  lemma StoresAre(a: Attempt, st: Stores)
    ensures After(a, st).used ==
      if Clears(NonceUnused, a.env, a.call, a.w, st) then st.used + {Text(a.env, NonceField)} else st.used
    ensures After(a, st).spent ==
      if Clears(CapReadable, a.env, a.call, a.w, st) && MandateId(a.env).Some? then
        st.spent[MandateId(a.env).value := Debited(a.env, a.call, st)]
      else st.spent
  {
    hide Clears, FirstFailure, ReasonOf, Text, MandateId, Debited;
  }

  lemma AccountIs(a: Attempt, st: Stores)
    requires a.env.Dict? && a.env.fields.Keys == FIELDS
    ensures var f := a.env.fields;
      && MandateId(a.env) == (if Named(f) then Some(f[MandateName].text) else None)
      && (f[NonceField].Str? ==> Text(a.env, NonceField) == f[NonceField].text)
    ensures Named(a.env.fields) ==> var added := if a.call.cost > 0.0 then a.call.cost else 0.0;
      Debited(a.env, a.call, st) == Account(st, a.env.fields[MandateName].text) + added
  {
  }

  lemma ClearsExactly(a: Attempt, st: Stores)
    ensures Clears(NonceUnused, a.env, a.call, a.w, st) <==> a.env.Dict? && Spends(a.env.fields, a.w, st)
    ensures Clears(CapReadable, a.env, a.call, a.w, st) <==> a.env.Dict? && Debitable(a.env.fields, a.call, a.w, st)
  {
    StagesClear(a, st);
    FormMeans(a.env, a.w);
    if FormReason(a.env, a.w).None? { ReasonsMean(a, st); }
    hide FirstFailure, Clears, Spends, FormReason, SignatureReason, NonceReason, TermReason, LimitReason;
  }

  lemma StagesClear(a: Attempt, st: Stores)
    ensures Clears(NonceUnused, a.env, a.call, a.w, st) <==>
      FormReason(a.env, a.w).None? && SignatureReason(a.env.fields, a.w).None? && NonceReason(a.env.fields, st).None?
    ensures Clears(CapReadable, a.env, a.call, a.w, st) <==>
      && FormReason(a.env, a.w).None? && SignatureReason(a.env.fields, a.w).None?
      && NonceReason(a.env.fields, st).None?
      && TermReason(a.env.fields, a.call, a.w).None? && LimitReason(a.env.fields, a.call, a.w).None?
  {
    Stages(a, st);
    Places();
    FailuresFollow(ExpiryReadable, a.env, a.call, a.w, st);
    FailuresFollow(Budget, a.env, a.call, a.w, st);
    hide FirstFailure, ReasonOf, Place, FormReason, SignatureReason, NonceReason, TermReason, LimitReason, TargetReason;
    if FormReason(a.env, a.w).None? && SignatureReason(a.env.fields, a.w).None? {
      if NonceReason(a.env.fields, st).None? {
        assert TermReason(a.env.fields, a.call, a.w).Some? ==> !Clears(CapReadable, a.env, a.call, a.w, st);
      }
    }
  }

  lemma Places()
    ensures Place(Present) < Place(Revocation) < Place(NonceShape) < Place(NonceUnused) < Place(ExpiryReadable)
    ensures Place(ExpiryReadable) < Place(RuntimeShape) < Place(CapReadable) < Place(Budget)
    ensures forall c: Check :: Place(c) < Place(ExpiryReadable) ==> Place(c) <= Place(NonceUnused)
    ensures forall c: Check :: Place(c) < Place(Budget) ==> Place(c) <= Place(CapReadable)
  {
  }
}
