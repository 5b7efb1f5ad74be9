/** The authorization engine: a tree of constraints evaluated through raised errors and a dispatcher. */
module Authorization {
  import opened Common
  import opened AuthConstraints

  type Did = string
  type Cache = map<Did, string>  // roles on the ledger; "" is IDENTITY_OWNER

  datatype Request = Request(identifier: Option<Did>, signature: Option<string>,
                             signatures: Option<map<Did, string>>, endorser: Option<Did>)

  /** What a call of an authorizer does: returns a verdict, or raises AuthValidationError. */
  datatype Outcome = Returned(authorized: bool) | Raised

  function Sigs(req: Request): map<Did, string> {
    if req.signatures.Some? then req.signatures.value else map[]
  }

  predicate SingleSigned(req: Request) {
    req.signature.Some? && req.signature.value != ""
  }

  function RoleOf(cache: Cache, did: Option<Did>): Option<string> {
    if did.Some? && did.value in cache then Some(cache[did.value]) else None
  }

  /** `is_role_accepted`: a role from the cache against the role of a constraint. */
  predicate RoleAccepted(role: Option<string>, wanted: Option<string>) {
    role.Some? && (wanted == Some("*") || wanted == if role.value == "" then None else role)
  }

  const NO_NEED_FOR_ENDORSER := {ENDORSER, TRUSTEE, STEWARD}

  predicate Privileged(role: Option<string>) {
    role.Some? && role.value in NO_NEED_FOR_ENDORSER
  }

  // ----- the plain meaning -----

  predicate CountsFor(cache: Cache, c: Constraint, did: Did)
    requires c.RoleConstraint?
  {
    c.role == Some("*") || c.offLedger == Some(true) || RoleAccepted(RoleOf(cache, Some(did)), c.role)
  }

  /** The signers that count towards a role constraint. */
  function Counted(cache: Cache, c: Constraint, sigs: map<Did, string>): set<Did>
    requires c.RoleConstraint?
  {
    set did | did in sigs && CountsFor(cache, c, did)
  }

  function SigCount(cache: Cache, req: Request, c: Constraint): nat
    requires c.RoleConstraint?
  {
    if SingleSigned(req) then
      if c.offLedger == Some(true) || RoleAccepted(RoleOf(cache, req.identifier), c.role) then 1 else 0
    else |Counted(cache, c, Sigs(req))|
  }

  ghost predicate RolesOk(cache: Cache, req: Request, c: Constraint, isOwner: bool)
    requires c.RoleConstraint?
  {
    && (c.needToBeOwner ==> isOwner)
    && (c.sigCount > 0 && c.offLedger != Some(true) ==> RoleOf(cache, req.identifier).Some?)
    && (c.sigCount > 0 && Sigs(req) != map[] ==> req.identifier.Some? && req.identifier.value in Sigs(req))
    && SigCount(cache, req, c) >= c.sigCount
  }

  /** Signed by someone besides the author, the author is unprivileged and some signer is not. */
  ghost predicate NeedsEndorser(cache: Cache, req: Request) {
    && (exists did :: did in Sigs(req) && req.identifier != Some(did))
    && !Privileged(RoleOf(cache, req.identifier))
    && (exists did :: did in Sigs(req) && Privileged(RoleOf(cache, Some(did))))
  }

  ghost predicate EndorserOk(cache: Cache, req: Request) {
    && (req.endorser.Some? ==> RoleOf(cache, req.endorser) == Some(ENDORSER))
    && (req.endorser.Some? && req.endorser.value != "" && req.endorser != req.identifier ==>
          req.endorser.value in Sigs(req))
    && (NeedsEndorser(cache, req) ==> req.endorser.Some?)
  }

  /** ROLE is the roles check and the endorser check, AND is all, OR is any, FORBIDDEN is false. */
  ghost predicate Allowed(cache: Cache, req: Request, c: Constraint, isOwner: bool) {
    match c
    case RoleConstraint(_, _, _, _, _) => RolesOk(cache, req, c, isOwner) && EndorserOk(cache, req)
    case AndConstraint(parts) => forall i :: 0 <= i < |parts| ==> Allowed(cache, req, parts[i], isOwner)
    case OrConstraint(parts) => exists i :: 0 <= i < |parts| && Allowed(cache, req, parts[i], isOwner)
    case Forbidden => false
  }

  /** The laws of the tree: groups of one are their part, joined groups are their conjunction or disjunction, the empty
      AND holds, and the empty OR and FORBIDDEN do not. */
  lemma TreeLaws(cache: Cache, req: Request, isOwner: bool, c: Constraint, a: seq<Constraint>, b: seq<Constraint>)
    ensures Allowed(cache, req, AndConstraint([c]), isOwner) <==> Allowed(cache, req, c, isOwner)
    ensures Allowed(cache, req, OrConstraint([c]), isOwner) <==> Allowed(cache, req, c, isOwner)
    ensures Allowed(cache, req, AndConstraint([]), isOwner)
    ensures !Allowed(cache, req, OrConstraint([]), isOwner) && !Allowed(cache, req, Forbidden, isOwner)
    ensures Allowed(cache, req, AndConstraint(a + b), isOwner)
       <==> Allowed(cache, req, AndConstraint(a), isOwner) && Allowed(cache, req, AndConstraint(b), isOwner)
    ensures Allowed(cache, req, OrConstraint(a + b), isOwner)
       <==> Allowed(cache, req, OrConstraint(a), isOwner) || Allowed(cache, req, OrConstraint(b), isOwner)
  {
    assert [c][0] == c;
    AndOfBoth(cache, req, isOwner, a, b);
    OrOfBoth(cache, req, isOwner, a, b);
  }

  lemma AndOfBoth(cache: Cache, req: Request, isOwner: bool, a: seq<Constraint>, b: seq<Constraint>)
    ensures Allowed(cache, req, AndConstraint(a + b), isOwner)
       <==> Allowed(cache, req, AndConstraint(a), isOwner) && Allowed(cache, req, AndConstraint(b), isOwner)
  {
    var both := a + b;
    if Allowed(cache, req, AndConstraint(both), isOwner) {
      forall i | 0 <= i < |a| ensures Allowed(cache, req, a[i], isOwner) {
        assert a[i] == both[i];
      }
      forall i | 0 <= i < |b| ensures Allowed(cache, req, b[i], isOwner) {
        assert b[i] == both[|a| + i];
      }
    }
  }

  lemma OrOfBoth(cache: Cache, req: Request, isOwner: bool, a: seq<Constraint>, b: seq<Constraint>)
    ensures Allowed(cache, req, OrConstraint(a + b), isOwner)
       <==> Allowed(cache, req, OrConstraint(a), isOwner) || Allowed(cache, req, OrConstraint(b), isOwner)
  {
    var both := a + b;
    if i :| 0 <= i < |a| && Allowed(cache, req, a[i], isOwner) {
      assert a[i] == both[i];
    }
    if i :| 0 <= i < |b| && Allowed(cache, req, b[i], isOwner) {
      assert b[i] == both[|a| + i];
    }
  }

  /** A constraint rebuilt from its dictionary gives the same verdict on every request. */
  lemma RebuiltConstraintDecidesTheSame(cache: Cache, req: Request, c: Constraint, isOwner: bool)
    requires WellFormed(c)
    ensures CreateConstraint(VDict(AsDict(c))).Ok?
    ensures Allowed(cache, req, CreateConstraint(VDict(AsDict(c))).value, isOwner) <==> Allowed(cache, req, c, isOwner)
  {
    RoundTrip(c);
  }

  // ----- more signatures -----

  /** The same request with more signatures. */
  ghost predicate MoreSigned(a: Request, b: Request) {
    && b == a.(signatures := b.signatures)
    && Sigs(a) != map[] && Sigs(a).Keys <= Sigs(b).Keys
  }

  lemma CardinalityMonotone(a: set<Did>, b: set<Did>)
    requires a <= b
    ensures |a| <= |b|
  {
    assert b == a + (b - a);
    assert |a + (b - a)| == |a| + |b - a|;
  }

  lemma SigCountGrows(cache: Cache, a: Request, b: Request, c: Constraint)
    requires MoreSigned(a, b) && c.RoleConstraint?
    ensures SigCount(cache, a, c) <= SigCount(cache, b, c)
  {
    forall did | did in Counted(cache, c, Sigs(a)) ensures did in Counted(cache, c, Sigs(b)) {
      assert did in Sigs(a).Keys;
    }
    CardinalityMonotone(Counted(cache, c, Sigs(a)), Counted(cache, c, Sigs(b)));
  }

  /** Exactly when a role constraint survives more signatures: an endorser is named, or none is needed. */
  lemma MoreSignaturesForRole(cache: Cache, a: Request, b: Request, c: Constraint, isOwner: bool)
    requires MoreSigned(a, b) && c.RoleConstraint? && Allowed(cache, a, c, isOwner)
    ensures Allowed(cache, b, c, isOwner) <==> a.endorser.Some? || !NeedsEndorser(cache, b)
  {
    SigCountGrows(cache, a, b, c);
    var did :| did in Sigs(a);
    assert did in Sigs(a).Keys && did in Sigs(b).Keys;
    if a.identifier.Some? && a.identifier.value in Sigs(a) {
      assert a.identifier.value in Sigs(a).Keys;
    }
    if a.endorser.Some? && a.endorser.value in Sigs(a) {
      assert a.endorser.value in Sigs(a).Keys;
    }
  }

  /** The meaning of a constraint with every role constraint false, so one that needs none of them. */
  ghost predicate Vacuous(c: Constraint) {
    match c
    case RoleConstraint(_, _, _, _, _) => false
    case AndConstraint(parts) => forall i :: 0 <= i < |parts| ==> Vacuous(parts[i])
    case OrConstraint(parts) => exists i :: 0 <= i < |parts| && Vacuous(parts[i])
    case Forbidden => false
  }

  /** Where the endorser check fails, only vacuous constraints hold. */
  lemma {:induction false} OnlyVacuousWithoutEndorser(cache: Cache, req: Request, c: Constraint, isOwner: bool)
    requires !EndorserOk(cache, req)
    ensures Allowed(cache, req, c, isOwner) <==> Vacuous(c)
    decreases c
  {
    if c.AndConstraint? || c.OrConstraint? {
      forall i | 0 <= i < |c.parts| ensures Allowed(cache, req, c.parts[i], isOwner) <==> Vacuous(c.parts[i]) {
        OnlyVacuousWithoutEndorser(cache, req, c.parts[i], isOwner);
      }
    }
  }

  /** Exactly when acceptance survives more signatures, for every constraint tree: an endorser is named, none is
      needed, or the constraint needs none of its role constraints. */
  lemma {:induction false} MoreSignaturesExactly(cache: Cache, a: Request, b: Request, c: Constraint, isOwner: bool)
    requires MoreSigned(a, b) && Allowed(cache, a, c, isOwner)
    ensures Allowed(cache, b, c, isOwner) <==> a.endorser.Some? || !NeedsEndorser(cache, b) || Vacuous(c)
    decreases c
  {
    if a.endorser.None? && NeedsEndorser(cache, b) {
      OnlyVacuousWithoutEndorser(cache, b, c, isOwner);
    } else {
      match c
      case RoleConstraint(_, _, _, _, _) => MoreSignaturesForRole(cache, a, b, c, isOwner);
      case AndConstraint(parts) =>
        forall i | 0 <= i < |parts| ensures Allowed(cache, b, parts[i], isOwner) {
          MoreSignaturesExactly(cache, a, b, parts[i], isOwner);
        }
      case OrConstraint(parts) =>
        var i :| 0 <= i < |parts| && Allowed(cache, a, parts[i], isOwner);
        MoreSignaturesExactly(cache, a, b, parts[i], isOwner);
    }
  }

  /** So for a multi-signed request that names an endorser, more signatures never turn acceptance into rejection. */
  lemma AuthorizationIsMonotone(cache: Cache, a: Request, b: Request, c: Constraint, isOwner: bool)
    requires MoreSigned(a, b) && a.endorser.Some? && Allowed(cache, a, c, isOwner)
    ensures Allowed(cache, b, c, isOwner)
  {
    MoreSignaturesExactly(cache, a, b, c, isOwner);
  }

  /** The endorser is needed for this: an identity owner's own signature satisfies the any-role constraint,
      and a trustee's signature added to it makes the same request fail. */
  lemma ExtraSignatureCanReject()
    ensures var cache: Cache := map["author" := "", "trustee" := TRUSTEE];
      var anyone := RoleConstraint(Some("*"), 1, false, None, map[]);
      var a := Request(Some("author"), None, Some(map["author" := "s"]), None);
      var b := a.(signatures := Some(map["author" := "s", "trustee" := "t"]));
      MoreSigned(a, b) && Allowed(cache, a, anyone, true) && !Allowed(cache, b, anyone, true)
  {
    var cache: Cache := map["author" := "", "trustee" := TRUSTEE];
    var anyone := RoleConstraint(Some("*"), 1, false, None, map[]);
    var a := Request(Some("author"), None, Some(map["author" := "s"]), None);
    var b := a.(signatures := Some(map["author" := "s", "trustee" := "t"]));
    assert "author" != "trustee" by { assert |"author"| == 6 && |"trustee"| == 7; }
    assert "author" in Sigs(a) && "trustee" in Sigs(b);
    assert Counted(cache, anyone, Sigs(a)) == {"author"};
    assert "" !in NO_NEED_FOR_ENDORSER by {
      assert |ENDORSER| == 3 && |TRUSTEE| == 1 && |STEWARD| == 1;
    }
    assert NeedsEndorser(cache, b);
  }
}
