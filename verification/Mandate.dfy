/** Mandate verification: a fixed order of checks over one envelope and one call, with a durable nonce
    register and a durable spend register that later checks never give back. */
module Mandate {
  import opened Prelude

  datatype Json = Null | Bool(b: bool) | Num(value: real) | Str(text: string) | List(items: seq<Json>) | Object

  datatype Field =
    | SchemaVersion | MandateName | GrantedBy | Kid | IssueRefField | AllowedTools | DataClassMax
    | BudgetMax | MaxRuntimeSeconds | ExpiresAt | NonceField | ScopeFingerprint | SignatureField | Unknown(name: string)

  type Fields = map<Field, Json>

  datatype Envelope = Missing | NotADict | Dict(fields: Fields)

  datatype Call = Call(
    tool: string, issueRef: string, dataClass: string, cost: real, runtime: Option<real>,
    scopeText: Option<string>, expected: Option<string>)

  /** What the verifier is configured with or asks outside: the key ring, revocation, signature
      verification, parsing, hashing and the clock. */
  datatype World = World(
    keys: map<string, map<string, string>>, revoked: (string, string) -> bool,
    verifies: (string, string, Fields) -> bool, parseTime: Json -> Option<real>,
    parseNumber: Json -> Option<real>, hash: string -> string, now: real)

  datatype Stores = Stores(used: set<string>, spent: map<string, real>)

  datatype Reason =
    | MandateMissing | Malformed | UnknownSchema | UnknownIssuer | UnknownKey | KeyRevoked
    | MissingSignature | InvalidSignature | NonceReplayed | ExpiryInvalid | Expired | ToolNotAllowed
    | InvalidDataClass | DataClassExceeded | RuntimeExceeded | BudgetExceeded | IssueMismatch | FingerprintMismatch

  datatype Decision = Decision(reason: Option<Reason>, mandateId: Option<string>)

  const REQUIRED := {
    SchemaVersion, MandateName, GrantedBy, Kid, IssueRefField, AllowedTools, DataClassMax,
    BudgetMax, MaxRuntimeSeconds, ExpiresAt, NonceField, ScopeFingerprint, SignatureField}

  // ---- Reading the envelope ----

  function Get(env: Envelope, field: Field): Json {
    if env.Dict? && field in env.fields then env.fields[field] else Null
  }

  /** A string field; absent, empty or of another type it reads empty. */
  function Text(env: Envelope, field: Field): string {
    match Get(env, field)
    case Str(t) => t
    case _ => ""
  }

  function MandateId(env: Envelope): Option<string> {
    if Text(env, MandateName) == "" then None else Some(Text(env, MandateName))
  }

  function KeyOf(w: World, env: Envelope): Option<string> {
    var (issuer, kid) := (Text(env, GrantedBy), Text(env, Kid));
    if issuer in w.keys && kid != "" && kid in w.keys[issuer] then Some(w.keys[issuer][kid]) else None
  }

  function Rank(dataClass: string): Option<nat> {
    match dataClass
    case "L0" => Some(0)
    case "L1" => Some(1)
    case "L2" => Some(2)
    case "L3" => Some(3)
    case _ => None
  }

  function MaxRuntime(env: Envelope): Option<real> {
    match Get(env, MaxRuntimeSeconds)
    case Num(n) => if n >= 0.0 && n == n.Floor as real then Some(n) else None
    case _ => None
  }

  function Fingerprint(w: World, call: Call): Option<string> {
    if call.expected.Some? then call.expected
    else if call.scopeText.Some? then Some(w.hash(call.scopeText.value)) else None
  }

  // ---- The checks, in their documented order ----

  datatype Check =
    | Present | Schema | Shape | Issuer | Key | Revocation | SignaturePresent | Signature
    | NonceShape | NonceUnused | ExpiryReadable | Expiry | Tools | DataClassKnown | DataClass
    | RuntimeShape | Runtime | CapReadable | Budget | IssueRef | Scope

  /** The place of a check in the order. */
  function Place(c: Check): (k: nat)
    ensures k <= 20
  {
    match c
    case Present => 0
    case Schema => 1
    case Shape => 2
    case Issuer => 3
    case Key => 4
    case Revocation => 5
    case SignaturePresent => 6
    case Signature => 7
    case NonceShape => 8
    case NonceUnused => 9
    case ExpiryReadable => 10
    case Expiry => 11
    case Tools => 12
    case DataClassKnown => 13
    case DataClass => 14
    case RuntimeShape => 15
    case Runtime => 16
    case CapReadable => 17
    case Budget => 18
    case IssueRef => 19
    case Scope => 20
  }

  function Following(c: Check): Option<Check> {
    match c
    case Present => Some(Schema)
    case Schema => Some(Shape)
    case Shape => Some(Issuer)
    case Issuer => Some(Key)
    case Key => Some(Revocation)
    case Revocation => Some(SignaturePresent)
    case SignaturePresent => Some(Signature)
    case Signature => Some(NonceShape)
    case NonceShape => Some(NonceUnused)
    case NonceUnused => Some(ExpiryReadable)
    case ExpiryReadable => Some(Expiry)
    case Expiry => Some(Tools)
    case Tools => Some(DataClassKnown)
    case DataClassKnown => Some(DataClass)
    case DataClass => Some(RuntimeShape)
    case RuntimeShape => Some(Runtime)
    case Runtime => Some(CapReadable)
    case CapReadable => Some(Budget)
    case Budget => Some(IssueRef)
    case IssueRef => Some(Scope)
    case Scope => None
  }

  predicate SchemaKnown(env: Envelope) {
    env.Dict? && (SchemaVersion in env.fields ==> env.fields[SchemaVersion] == Num(2.0))
  }

  predicate WellShaped(env: Envelope) {
    env.Dict? && env.fields.Keys == REQUIRED
  }

  predicate IssuerKnown(env: Envelope, w: World) {
    Get(env, GrantedBy).Str? && Get(env, GrantedBy).text in w.keys
  }

  predicate Revoked(env: Envelope, w: World) {
    w.revoked(Text(env, GrantedBy), Text(env, Kid))
  }

  predicate SignatureValid(env: Envelope, w: World) {
    env.Dict? && KeyOf(w, env).Some? && w.verifies(KeyOf(w, env).value, Text(env, SignatureField), Signed(env.fields))
  }

  function Expires(env: Envelope, w: World): Option<real> {
    w.parseTime(Get(env, ExpiresAt))
  }

  predicate ToolAllowed(env: Envelope, call: Call) {
    Get(env, AllowedTools).List? && Str(call.tool) in Get(env, AllowedTools).items
  }

  predicate ClassesKnown(env: Envelope, call: Call) {
    Rank(call.dataClass).Some? && Rank(Text(env, DataClassMax)).Some?
  }

  predicate ClassWithin(env: Envelope, call: Call) {
    ClassesKnown(env, call) && Rank(call.dataClass).value <= Rank(Text(env, DataClassMax)).value
  }

  predicate RuntimeWithin(env: Envelope, call: Call) {
    MaxRuntime(env).Some? && (call.runtime.Some? ==> call.runtime.value <= MaxRuntime(env).value)
  }

  predicate BudgetWithin(env: Envelope, call: Call, w: World, st: Stores) {
    MandateId(env).Some? && Cap(w, env).Some? && Debited(env, call, st) <= Cap(w, env).value
  }

  predicate IssueMatches(env: Envelope, call: Call) {
    call.issueRef == "" || Get(env, IssueRefField) == Str(call.issueRef)
  }

  predicate ScopeMatches(env: Envelope, call: Call, w: World) {
    Fingerprint(w, call).None? || Get(env, ScopeFingerprint) == Str(Fingerprint(w, call).value)
  }

  predicate Passes(c: Check, env: Envelope, call: Call, w: World, st: Stores) {
    match c
    case Present => !env.Missing?
    case Schema => SchemaKnown(env)
    case Shape => WellShaped(env)
    case Issuer => IssuerKnown(env, w)
    case Key => KeyOf(w, env).Some?
    case Revocation => !Revoked(env, w)
    case SignaturePresent => Text(env, SignatureField) != ""
    case Signature => SignatureValid(env, w)
    case NonceShape => Text(env, NonceField) != ""
    case NonceUnused => Text(env, NonceField) !in st.used
    case ExpiryReadable => Expires(env, w).Some?
    case Expiry => Expires(env, w).Some? && Expires(env, w).value > w.now
    case Tools => ToolAllowed(env, call)
    case DataClassKnown => ClassesKnown(env, call)
    case DataClass => ClassWithin(env, call)
    case RuntimeShape => MaxRuntime(env).Some?
    case Runtime => RuntimeWithin(env, call)
    case CapReadable => Cap(w, env).Some?
    case Budget => BudgetWithin(env, call, w, st)
    case IssueRef => IssueMatches(env, call)
    case Scope => ScopeMatches(env, call, w)
  }

  /** The signature covers everything but itself. */
  function Signed(fields: Fields): Fields {
    fields - {SignatureField}
  }

  function Cap(w: World, env: Envelope): Option<real> {
    w.parseNumber(Get(env, BudgetMax))
  }

  function Clamped(cost: real): real {
    if cost > 0.0 then cost else 0.0
  }

  function Spent(spent: map<string, real>, id: string): real {
    if id in spent then spent[id] else 0.0
  }

  /** The mandate's total once this call is debited. */
  function Debited(env: Envelope, call: Call, st: Stores): real
    requires MandateId(env).Some?
  {
    Spent(st.spent, MandateId(env).value) + Clamped(call.cost)
  }

  function ReasonOf(c: Check, env: Envelope): Reason {
    match c
    case Present => MandateMissing
    case Schema => if env.Dict? then UnknownSchema else Malformed
    case Shape => Malformed
    case Issuer => UnknownIssuer
    case Key => UnknownKey
    case Revocation => KeyRevoked
    case SignaturePresent => MissingSignature
    case Signature => InvalidSignature
    case NonceShape => Malformed
    case NonceUnused => NonceReplayed
    case ExpiryReadable => ExpiryInvalid
    case Expiry => Expired
    case Tools => ToolNotAllowed
    case DataClassKnown => InvalidDataClass
    case DataClass => DataClassExceeded
    case RuntimeShape => Malformed
    case Runtime => RuntimeExceeded
    case CapReadable => Malformed
    case Budget => BudgetExceeded
    case IssueRef => IssueMismatch
    case Scope => FingerprintMismatch
  }

  /** The first check, from `c` on, that does not pass. */
  function FirstFailure(c: Check, env: Envelope, call: Call, w: World, st: Stores): (f: Option<Check>)
    decreases 20 - Place(c)
  {
    if !Passes(c, env, call, w, st) then Some(c)
    else if Following(c).None? then None
    else FirstFailure(Following(c).value, env, call, w, st)
  }

  /** Whether a call gets past a check. */
  predicate Clears(c: Check, env: Envelope, call: Call, w: World, st: Stores) {
    var f := FirstFailure(Present, env, call, w, st);
    f.Some? ==> Place(c) < Place(f.value)
  }

  /** The first failing check decides. The nonce is spent once its check passes, and the call is debited once
      the budget check is reached, whatever comes later. */
  function Verify(env: Envelope, call: Call, w: World, st: Stores): (Decision, Stores) {
    var f := FirstFailure(Present, env, call, w, st);
    (Decision(if f.Some? then Some(ReasonOf(f.value, env)) else None, MandateId(env)),
     Stores(if Clears(NonceUnused, env, call, w, st) then st.used + {Text(env, NonceField)} else st.used,
            if Clears(CapReadable, env, call, w, st) && MandateId(env).Some? then
              st.spent[MandateId(env).value := Debited(env, call, st)]
            else st.spent))
  }

  lemma NextCheck(c: Check, env: Envelope, call: Call, w: World, st: Stores)
    ensures FirstFailure(c, env, call, w, st) ==
      if !Passes(c, env, call, w, st) then Some(c)
      else if Following(c).None? then None
      else FirstFailure(Following(c).value, env, call, w, st)
  {
  }

  lemma {:induction false} FailuresFollow(c: Check, env: Envelope, call: Call, w: World, st: Stores)
    ensures var f := FirstFailure(c, env, call, w, st); f.Some? ==> Place(c) <= Place(f.value)
    decreases 20 - Place(c)
  {
    hide Passes;
    var next := Following(c);
    if Passes(c, env, call, w, st) && next.Some? {
      assert Place(next.value) == Place(c) + 1;
      FailuresFollow(next.value, env, call, w, st);
    }
  }

  // ---- The verifier and its stores ----

  class NonceStore {
    var used: set<string>

    constructor ()
      ensures used == {}
    {
      used := {};
    }

    method CheckAndConsume(nonce: string) returns (ok: bool)
      modifies this
      ensures ok <==> nonce != "" && nonce !in old(used)
      ensures used == if ok then old(used) + {nonce} else old(used)
    {
      if nonce == "" || nonce in used {
        return false;
      }
      used := used + {nonce};
      return true;
    }
  }

  class BudgetStore {
    var spent: map<string, real>

    constructor ()
      ensures spent == map[]
    {
      spent := map[];
    }

    /** The debit happens whether or not the total is still within the cap. */
    method RecordAndCheck(id: Option<string>, cost: real, cap: real) returns (ok: bool)
      modifies this
      ensures id.None? || id.value == "" ==> !ok && spent == old(spent)
      ensures id.Some? && id.value != "" ==>
        var total := Spent(old(spent), id.value) + Clamped(cost);
        spent == old(spent)[id.value := total] && (ok <==> total <= cap)
    {
      if id.None? || id.value == "" {
        return false;
      }
      var total := if id.value in spent then spent[id.value] else 0.0;
      if cost > 0.0 {
        total := total + cost;
      }
      spent := spent[id.value := total];
      return total <= cap;
    }
  }

  class MandateVerifier {
    const w: World
    const nonces: NonceStore
    const budget: BudgetStore

    constructor (w: World, nonces: NonceStore, budget: BudgetStore)
      ensures this.w == w && this.nonces == nonces && this.budget == budget
    {
      this.w, this.nonces, this.budget := w, nonces, budget;
    }

    function View(): Stores
      reads nonces, budget
    {
      Stores(nonces.used, budget.spent)
    }

    /** An early return at the first check that fails, with each store written when its own check runs. */
    method VerifyMandate(env: Envelope, call: Call) returns (d: Decision)
      requires nonces as object != budget as object
      modifies nonces, budget
      ensures (d, View()) == Verify(env, call, w, old(View()))
    {
      hide FirstFailure, Text, MandateId, Debited;
      ghost var st := View();
      var id := MandateId(env);
      var failure := CheckBeforeNonce(env, call, st);
      if failure.Some? {
        return Decision(failure, id);
      }
      NextCheck(NonceUnused, env, call, w, st);
      var nonceOk := nonces.CheckAndConsume(Text(env, NonceField));
      if !nonceOk {
        return Decision(Some(NonceReplayed), id);
      }
      FailuresFollow(ExpiryReadable, env, call, w, st);
      failure := CheckAfterNonce(env, call, st);
      return Decision(failure, id);
    }

    method CheckBeforeNonce(env: Envelope, ghost call: Call, ghost st: Stores) returns (failure: Option<Reason>)
      ensures failure.None? ==> Text(env, NonceField) != ""
      ensures var f := FirstFailure(Present, env, call, w, st);
        if failure.None? then f == FirstFailure(NonceUnused, env, call, w, st)
        else f.Some? && Place(f.value) < Place(NonceUnused) && failure.value == ReasonOf(f.value, env)
    {
      hide FirstFailure, Text, ReasonOf;
      failure := CheckForm(env, call, st);
      if failure.None? {
        failure := CheckSignature(env, call, st);
      }
    }

    method CheckAfterNonce(env: Envelope, call: Call, ghost st: Stores) returns (failure: Option<Reason>)
      requires budget.spent == st.spent
      modifies budget
      ensures var f := FirstFailure(ExpiryReadable, env, call, w, st);
        && failure == (if f.Some? then Some(ReasonOf(f.value, env)) else None)
        && budget.spent == if (f.Some? ==> Place(CapReadable) < Place(f.value)) && MandateId(env).Some? then
                             st.spent[MandateId(env).value := Debited(env, call, st)]
                           else st.spent
    {
      hide FirstFailure, IssueMatches, ScopeMatches, Cap, Text;
      assert MandateId(env).Some? ==> MandateId(env).value != "";
      failure := CheckTerms(env, call, st);
      if failure.Some? {
        return;
      }
      failure := CheckLimits(env, call, st);
      if failure.Some? {
        return;
      }
      NextCheck(Budget, env, call, w, st);
      var within := budget.RecordAndCheck(MandateId(env), call.cost, Cap(w, env).value);
      if !within {
        return Some(BudgetExceeded);
      }
      NextCheck(IssueRef, env, call, w, st);
      if !IssueMatches(env, call) {
        return Some(IssueMismatch);
      }
      NextCheck(Scope, env, call, w, st);
      if !ScopeMatches(env, call, w) {
        return Some(FingerprintMismatch);
      }
      return None;
    }

    /** The envelope's form and the key it names. */
    method CheckForm(env: Envelope, ghost call: Call, ghost st: Stores) returns (failure: Option<Reason>)
      ensures var f := FirstFailure(Present, env, call, w, st);
        if failure.None? then f == FirstFailure(Revocation, env, call, w, st)
        else f.Some? && Place(f.value) < Place(Revocation) && failure.value == ReasonOf(f.value, env)
    {
      hide FirstFailure, SchemaKnown, WellShaped, IssuerKnown, KeyOf, Revoked, SignatureValid, Text;
      NextCheck(Present, env, call, w, st);
      if env.Missing? {
        return Some(MandateMissing);
      }
      NextCheck(Schema, env, call, w, st);
      if !SchemaKnown(env) {
        return Some(if env.Dict? then UnknownSchema else Malformed);
      }
      NextCheck(Shape, env, call, w, st);
      if !WellShaped(env) {
        return Some(Malformed);
      }
      NextCheck(Issuer, env, call, w, st);
      if !IssuerKnown(env, w) {
        return Some(UnknownIssuer);
      }
      NextCheck(Key, env, call, w, st);
      if KeyOf(w, env).None? {
        return Some(UnknownKey);
      }
      return None;
    }

    /** Revocation, signature and the presence of a nonce. */
    method CheckSignature(env: Envelope, ghost call: Call, ghost st: Stores) returns (failure: Option<Reason>)
      ensures failure.None? ==> Text(env, NonceField) != ""
      ensures var f := FirstFailure(Revocation, env, call, w, st);
        if failure.None? then f == FirstFailure(NonceUnused, env, call, w, st)
        else f.Some? && Place(f.value) < Place(NonceUnused) && failure.value == ReasonOf(f.value, env)
    {
      hide FirstFailure, SchemaKnown, WellShaped, IssuerKnown, KeyOf, Revoked, SignatureValid, Text;
      NextCheck(Revocation, env, call, w, st);
      if Revoked(env, w) {
        return Some(KeyRevoked);
      }
      NextCheck(SignaturePresent, env, call, w, st);
      if Text(env, SignatureField) == "" {
        return Some(MissingSignature);
      }
      NextCheck(Signature, env, call, w, st);
      if !SignatureValid(env, w) {
        return Some(InvalidSignature);
      }
      NextCheck(NonceShape, env, call, w, st);
      if Text(env, NonceField) == "" {
        return Some(Malformed);
      }
      return None;
    }

    /** Expiry, tool and data class. */
    method CheckTerms(env: Envelope, call: Call, ghost st: Stores) returns (failure: Option<Reason>)
      ensures var f := FirstFailure(ExpiryReadable, env, call, w, st);
        if failure.None? then f == FirstFailure(RuntimeShape, env, call, w, st)
        else f.Some? && Place(f.value) < Place(RuntimeShape) && failure.value == ReasonOf(f.value, env)
    {
      hide FirstFailure, Expires, ToolAllowed, ClassesKnown, ClassWithin, MaxRuntime, RuntimeWithin, Cap;
      NextCheck(ExpiryReadable, env, call, w, st);
      var expires := Expires(env, w);
      if expires.None? {
        return Some(ExpiryInvalid);
      }
      NextCheck(Expiry, env, call, w, st);
      if expires.value <= w.now {
        return Some(Expired);
      }
      NextCheck(Tools, env, call, w, st);
      if !ToolAllowed(env, call) {
        return Some(ToolNotAllowed);
      }
      NextCheck(DataClassKnown, env, call, w, st);
      if !ClassesKnown(env, call) {
        return Some(InvalidDataClass);
      }
      NextCheck(DataClass, env, call, w, st);
      if !ClassWithin(env, call) {
        return Some(DataClassExceeded);
      }
      return None;
    }

    /** The runtime limit and the cap itself. */
    method CheckLimits(env: Envelope, call: Call, ghost st: Stores) returns (failure: Option<Reason>)
      ensures var f := FirstFailure(RuntimeShape, env, call, w, st);
        if failure.None? then Cap(w, env).Some? && f == FirstFailure(Budget, env, call, w, st)
        else f.Some? && Place(f.value) < Place(Budget) && failure.value == ReasonOf(f.value, env)
    {
      hide FirstFailure, Expires, ToolAllowed, ClassesKnown, ClassWithin, MaxRuntime, RuntimeWithin, Cap;
      NextCheck(RuntimeShape, env, call, w, st);
      if MaxRuntime(env).None? {
        return Some(Malformed);
      }
      NextCheck(Runtime, env, call, w, st);
      if !RuntimeWithin(env, call) {
        return Some(RuntimeExceeded);
      }
      NextCheck(CapReadable, env, call, w, st);
      if Cap(w, env).None? {
        return Some(Malformed);
      }
      return None;
    }
  }
}
