/** Authorization constraints and their dictionary form. */
module AuthConstraints {
  import opened Common

  /** A deserialized value: what a dictionary of a constraint can hold. */
  datatype Val =
    | VNone
    | VStr(s: string)
    | VInt(i: int)
    | VBool(b: bool)
    | VList(items: seq<Val>)
    | VDict(d: map<string, Val>)

  /** The role of a constraint: None is IDENTITY_OWNER, "*" is any role. */
  datatype Constraint =
    | RoleConstraint(role: Option<string>, sigCount: int, needToBeOwner: bool, offLedger: Option<bool>,
                     metadata: map<string, Val>)
    | AndConstraint(parts: seq<Constraint>)
    | OrConstraint(parts: seq<Constraint>)
    | Forbidden

  datatype Failure = KeyError | TypeError | ValueError

  const CONSTRAINT_ID := "constraint_id"
  const AUTH_CONSTRAINTS := "auth_constraints"
  const ROLE := "role"
  const METADATA := "metadata"
  const SIG_COUNT := "sig_count"
  const NEED_TO_BE_OWNER := "need_to_be_owner"
  const OFF_LEDGER_SIGNATURE := "off_ledger_signature"

  const TRUSTEE := "0"
  const STEWARD := "2"
  const ENDORSER := "101"
  const NETWORK_MONITOR := "201"

  predicate AcceptedRole(role: Option<string>) {
    role.None? || role.value in [NETWORK_MONITOR, ENDORSER, STEWARD, TRUSTEE, "*"]
  }

  predicate RoleValid(role: Option<string>, offLedger: Option<bool>) {
    AcceptedRole(role) && (offLedger == Some(true) ==> role == Some("*"))
  }

  /** Trees that the constructors let through. */
  ghost predicate WellFormed(c: Constraint) {
    match c
    case RoleConstraint(role, _, _, off, _) => RoleValid(role, off)
    case AndConstraint(parts) => forall i :: 0 <= i < |parts| ==> WellFormed(parts[i])
    case OrConstraint(parts) => forall i :: 0 <= i < |parts| ==> WellFormed(parts[i])
    case Forbidden => true
  }

  // ----- as_dict -----

  function RoleVal(role: Option<string>): Val {
    if role.None? then VNone else VStr(role.value)
  }

  function AsDict(c: Constraint): map<string, Val> {
    match c
    case RoleConstraint(role, n, owner, off, metadata) =>
      map[CONSTRAINT_ID := VStr("ROLE"), ROLE := RoleVal(role), SIG_COUNT := VInt(n),
          NEED_TO_BE_OWNER := VBool(owner), METADATA := VDict(metadata)]
      + if off.Some? then map[OFF_LEDGER_SIGNATURE := VBool(off.value)] else map[]
    case AndConstraint(parts) =>
      map[CONSTRAINT_ID := VStr("AND"),
          AUTH_CONSTRAINTS := VList(seq(|parts|, i requires 0 <= i < |parts| => VDict(AsDict(parts[i]))))]
    case OrConstraint(parts) =>
      map[CONSTRAINT_ID := VStr("OR"),
          AUTH_CONSTRAINTS := VList(seq(|parts|, i requires 0 <= i < |parts| => VDict(AsDict(parts[i]))))]
    case Forbidden => map[CONSTRAINT_ID := VStr("FORBIDDEN")]
  }

  // ----- create_constraint and from_dict -----

  function RoleFromDict(d: map<string, Val>): Result<Constraint, Failure> {
    if ROLE !in d || SIG_COUNT !in d then Err(KeyError)
    else if !(d[ROLE].VNone? || d[ROLE].VStr?) || !d[SIG_COUNT].VInt? then Err(TypeError)
    else if NEED_TO_BE_OWNER in d && !d[NEED_TO_BE_OWNER].VBool? then Err(TypeError)
    else if METADATA in d && !d[METADATA].VDict? then Err(TypeError)
    else if OFF_LEDGER_SIGNATURE in d && !(d[OFF_LEDGER_SIGNATURE].VBool? || d[OFF_LEDGER_SIGNATURE].VNone?)
    then Err(TypeError)
    else
      var role := if d[ROLE].VNone? then None else Some(d[ROLE].s);
      var owner := if NEED_TO_BE_OWNER in d then d[NEED_TO_BE_OWNER].b else false;
      var off := if OFF_LEDGER_SIGNATURE in d && d[OFF_LEDGER_SIGNATURE].VBool?
                 then Some(d[OFF_LEDGER_SIGNATURE].b) else None;
      var metadata := if METADATA in d then d[METADATA].d else map[];
      if RoleValid(role, off) then Ok(RoleConstraint(role, d[SIG_COUNT].i, owner, off, metadata)) else Err(ValueError)
  }

  function CreateConstraint(v: Val): Result<Constraint, Failure>
    decreases v, 1
  {
    if !v.VDict? then Err(TypeError)
    else if CONSTRAINT_ID !in v.d || v.d[CONSTRAINT_ID].VNone? then Err(KeyError)
    else
      var rest := v.d - {CONSTRAINT_ID};
      match v.d[CONSTRAINT_ID]
      case VStr(id) =>
        if id == "ROLE" then RoleFromDict(rest)
        else if id == "FORBIDDEN" then Ok(Forbidden)
        else if id == "AND" || id == "OR" then
          if AUTH_CONSTRAINTS !in rest then Err(KeyError)
          else if !v.d[AUTH_CONSTRAINTS].VList? then Err(TypeError)
          else
            var parts := CreateAll(v.d[AUTH_CONSTRAINTS].items);
            if parts.Err? then Err(parts.error)
            else if rest.Keys != {AUTH_CONSTRAINTS} then Err(TypeError)
            else Ok(if id == "AND" then AndConstraint(parts.value) else OrConstraint(parts.value))
        else Err(TypeError)
      case _ => Err(TypeError)
  }

  /** The loop over the nested constraints, from the left; the first failure wins. */
  function CreateAll(items: seq<Val>): (r: Result<seq<Constraint>, Failure>)
    ensures r.Ok? ==> |r.value| == |items|
    decreases items, 0
  {
    if items == [] then Ok([])
    else
      var before := CreateAll(items[..|items| - 1]);
      if before.Err? then before
      else
        var last := CreateConstraint(items[|items| - 1]);
        if last.Err? then Err(last.error) else Ok(before.value + [last.value])
  }

  lemma {:induction false} CreateAllFrom(items: seq<Val>, parts: seq<Constraint>)
    requires |items| == |parts|
    requires forall i :: 0 <= i < |items| ==> CreateConstraint(items[i]) == Ok(parts[i])
    ensures CreateAll(items) == Ok(parts)
  {
    if items != [] {
      CreateAllFrom(items[..|items| - 1], parts[..|parts| - 1]);
      assert parts == parts[..|parts| - 1] + [parts[|parts| - 1]];
    }
  }

  lemma RoleRoundTrip(c: Constraint)
    requires c.RoleConstraint? && RoleValid(c.role, c.offLedger)
    ensures CreateConstraint(VDict(AsDict(c))) == Ok(c)
  {
    var d := AsDict(c);
    var rest := d - {CONSTRAINT_ID};
    KeysDiffer();
    assert d[CONSTRAINT_ID] == VStr("ROLE");
    assert ROLE in rest && rest[ROLE] == RoleVal(c.role);
    assert SIG_COUNT in rest && rest[SIG_COUNT] == VInt(c.sigCount);
    assert NEED_TO_BE_OWNER in rest && rest[NEED_TO_BE_OWNER] == VBool(c.needToBeOwner);
    assert METADATA in rest && rest[METADATA] == VDict(c.metadata);
    assert OFF_LEDGER_SIGNATURE in rest <==> c.offLedger.Some?;
    assert RoleFromDict(rest) == Ok(c);
  }

  lemma KeysDiffer()
    ensures CONSTRAINT_ID != AUTH_CONSTRAINTS
    ensures CONSTRAINT_ID !in {ROLE, SIG_COUNT, NEED_TO_BE_OWNER, METADATA, OFF_LEDGER_SIGNATURE}
    ensures ROLE !in {SIG_COUNT, NEED_TO_BE_OWNER, METADATA, OFF_LEDGER_SIGNATURE}
    ensures SIG_COUNT !in {NEED_TO_BE_OWNER, METADATA, OFF_LEDGER_SIGNATURE}
    ensures NEED_TO_BE_OWNER !in {METADATA, OFF_LEDGER_SIGNATURE} && METADATA != OFF_LEDGER_SIGNATURE
  {
  }

  /** A role dictionary is turned away exactly for an unknown role, or for an off-ledger signature of a given role. */
  lemma RoleCreatedExactly(role: Option<string>, n: int, owner: bool, off: Option<bool>, metadata: map<string, Val>)
    ensures var r := RoleFromDict(AsDict(RoleConstraint(role, n, owner, off, metadata)));
      && (r.Ok? <==> (role == None || role.value in {"0", "2", "101", "201", "*"})
                     && (off == Some(true) ==> role == Some("*")))
      && (r.Ok? ==> r.value == RoleConstraint(role, n, owner, off, metadata))
      && (r.Err? ==> r.error == ValueError)
  {
    var d := AsDict(RoleConstraint(role, n, owner, off, metadata));
    KeysDiffer();
    assert ROLE in d && d[ROLE] == RoleVal(role);
    assert SIG_COUNT in d && d[SIG_COUNT] == VInt(n);
    assert NEED_TO_BE_OWNER in d && d[NEED_TO_BE_OWNER] == VBool(owner);
    assert METADATA in d && d[METADATA] == VDict(metadata);
    assert OFF_LEDGER_SIGNATURE in d <==> off.Some?;
  }

  /** What a role dictionary leaves out: nobody need be the owner, nothing is said of the ledger, no metadata.  The role
      and the count cannot be left out. */
  lemma RoleDefaults(d: map<string, Val>, role: Option<string>)
    requires d.Keys <= {ROLE, SIG_COUNT} && (role == None || role.value in {"0", "2", "101", "201", "*"})
    ensures ROLE !in d || SIG_COUNT !in d ==> RoleFromDict(d) == Err(KeyError)
    ensures ROLE in d && d[ROLE] == RoleVal(role) && SIG_COUNT in d && d[SIG_COUNT].VInt? ==>
      RoleFromDict(d) == Ok(RoleConstraint(role, d[SIG_COUNT].i, false, None, map[]))
  {
    KeysDiffer();
    assert NEED_TO_BE_OWNER !in d && METADATA !in d && OFF_LEDGER_SIGNATURE !in d;
  }

  /** Round trip: every tree the constructors let through is rebuilt from its dictionary. */
  lemma {:induction false} RoundTrip(c: Constraint)
    requires WellFormed(c)
    ensures CreateConstraint(VDict(AsDict(c))) == Ok(c)
    decreases c
  {
    match c
    case RoleConstraint(_, _, _, _, _) => RoleRoundTrip(c);
    case AndConstraint(parts) => RoundTripParts(c, parts);
    case OrConstraint(parts) => RoundTripParts(c, parts);
    case Forbidden =>
  }

  lemma {:induction false} RoundTripParts(c: Constraint, parts: seq<Constraint>)
    requires WellFormed(c) && (c == AndConstraint(parts) || c == OrConstraint(parts))
    ensures CreateConstraint(VDict(AsDict(c))) == Ok(c)
    decreases c, 0
  {
    var d := AsDict(c);
    KeysDiffer();
    var items := d[AUTH_CONSTRAINTS].items;
    forall i | 0 <= i < |items| ensures CreateConstraint(items[i]) == Ok(parts[i]) {
      RoundTrip(parts[i]);
    }
    CreateAllFrom(items, parts);
    assert (d - {CONSTRAINT_ID}).Keys == {AUTH_CONSTRAINTS};
    assert d[CONSTRAINT_ID] == VStr(if c.AndConstraint? then "AND" else "OR");
  }

  /** Only the four kinds are created, each from its own name. */
  lemma CreatedKinds(d: map<string, Val>)
    requires CreateConstraint(VDict(d)).Ok?
    ensures var c := CreateConstraint(VDict(d)).value;
      CONSTRAINT_ID in d && d[CONSTRAINT_ID] == VStr(
        match c case RoleConstraint(_, _, _, _, _) => "ROLE" case AndConstraint(_) => "AND"
        case OrConstraint(_) => "OR" case Forbidden => "FORBIDDEN")
  {
  }

  /** Conversely, whatever a dictionary holds, a constraint created from it is well formed. */
  lemma {:induction false} CreatedIsWellFormed(v: Val)
    requires CreateConstraint(v).Ok?
    ensures WellFormed(CreateConstraint(v).value)
    decreases v, 1
  {
    var id := v.d[CONSTRAINT_ID].s;
    if id == "AND" || id == "OR" {
      CreatedAllWellFormed(v.d[AUTH_CONSTRAINTS].items);
    }
  }

  lemma {:induction false} CreatedAllWellFormed(items: seq<Val>)
    requires CreateAll(items).Ok?
    ensures forall i :: 0 <= i < |items| ==> WellFormed(CreateAll(items).value[i])
    decreases items, 0
  {
    if items != [] {
      CreatedAllWellFormed(items[..|items| - 1]);
      CreatedIsWellFormed(items[|items| - 1]);
    }
  }
}
