/** The authorizer objects: registration, dispatch, and evaluation by loops, flags and raised errors. */
module Authorizers {
  import opened Common
  import opened AuthConstraints
  import opened Authorization
  import opened ActionLists

  datatype Kind = RoleKind | AndKind | OrKind | ForbiddenKind

  datatype Authorizer = RolesAuthorizer | EndorserAuthorizer | AndAuthorizer | OrAuthorizer | ForbiddenAuthorizer

  function KindOf(c: Constraint): Kind {
    match c
    case RoleConstraint(_, _, _, _, _) => RoleKind
    case AndConstraint(_) => AndKind
    case OrConstraint(_) => OrKind
    case Forbidden => ForbiddenKind
  }

  function DefaultTable(): map<Kind, seq<Authorizer>> {
    map[RoleKind := [RolesAuthorizer, EndorserAuthorizer], AndKind := [AndAuthorizer],
        OrKind := [OrAuthorizer], ForbiddenKind := [ForbiddenAuthorizer]]
  }

  method GetSigCount(cache: Cache, req: Request, c: Constraint) returns (n: nat)
    requires c.RoleConstraint?
    ensures n == SigCount(cache, req, c)
  {
    if SingleSigned(req) {
      return if c.offLedger == Some(true) || RoleAccepted(RoleOf(cache, req.identifier), c.role) then 1 else 0;
    }
    var sigs := Sigs(req);
    if sigs == map[] {
      assert Counted(cache, c, sigs) == {};
      return 0;
    }
    if c.role == Some("*") {
      assert Counted(cache, c, sigs) == sigs.Keys;
      return |sigs|;
    }
    n := 0;
    var rest := sigs.Keys;
    while rest != {}
      invariant rest <= sigs.Keys
      invariant n == |CountedIn(cache, c, sigs.Keys - rest)|
      decreases |rest|
    {
      var did :| did in rest;
      CountedOneMore(cache, c, sigs.Keys - rest, did);
      assert sigs.Keys - (rest - {did}) == (sigs.Keys - rest) + {did};
      rest := rest - {did};
      if c.offLedger == Some(true) || RoleAccepted(RoleOf(cache, Some(did)), c.role) {
        n := n + 1;
      }
    }
    assert sigs.Keys - rest == sigs.Keys;
    assert CountedIn(cache, c, sigs.Keys) == Counted(cache, c, sigs);
  }

  ghost function CountedIn(cache: Cache, c: Constraint, dids: set<Did>): set<Did>
    requires c.RoleConstraint?
  {
    set did | did in dids && CountsFor(cache, c, did)
  }

  lemma CountedOneMore(cache: Cache, c: Constraint, dids: set<Did>, did: Did)
    requires c.RoleConstraint? && did !in dids
    ensures |CountedIn(cache, c, dids + {did})|
         == |CountedIn(cache, c, dids)| + if CountsFor(cache, c, did) then 1 else 0
  {
    if CountsFor(cache, c, did) {
      assert CountedIn(cache, c, dids + {did}) == CountedIn(cache, c, dids) + {did};
    } else {
      assert CountedIn(cache, c, dids + {did}) == CountedIn(cache, c, dids);
    }
  }

  method AuthorizeRoles(cache: Cache, req: Request, c: Constraint, isOwner: bool) returns (ok: bool)
    requires c.RoleConstraint?
    ensures ok <==> RolesOk(cache, req, c, isOwner)
  {
    if c.needToBeOwner && !isOwner {
      return false;
    }
    var authorRole := RoleOf(cache, req.identifier);
    if c.sigCount > 0 && c.offLedger != Some(true) && authorRole.None? {
      return false;
    }
    if c.sigCount > 0 && Sigs(req) != map[] && !(req.identifier.Some? && req.identifier.value in Sigs(req)) {
      return false;
    }
    var n := GetSigCount(cache, req, c);
    return n >= c.sigCount;
  }

  /** Some signer holds a role that needs no endorser. */
  method HasPrivilegedSig(cache: Cache, sigs: map<Did, string>) returns (found: bool)
    ensures found <==> exists did :: did in sigs && Privileged(RoleOf(cache, Some(did)))
  {
    found := false;
    var rest := sigs.Keys;
    while rest != {}
      invariant rest <= sigs.Keys
      invariant forall did :: did in sigs && did !in rest ==> !Privileged(RoleOf(cache, Some(did)))
      decreases |rest|
    {
      var did :| did in rest;
      rest := rest - {did};
      if Privileged(RoleOf(cache, Some(did))) {
        return true;
      }
    }
  }

  lemma ExtraSignatures(req: Request)
    requires Sigs(req) != map[]
    ensures (|Sigs(req)| > 1 || !(req.identifier.Some? && req.identifier.value in Sigs(req)))
       <==> exists did :: did in Sigs(req) && req.identifier != Some(did)
  {
    var sigs := Sigs(req);
    var first :| first in sigs;
    if req.identifier.Some? && req.identifier.value in sigs {
      var author := req.identifier.value;
      if forall did :: did in sigs ==> did == author {
        assert sigs.Keys == {author};
        assert |sigs| == |sigs.Keys| == 1;
      } else {
        var other :| other in sigs && other != author;
        assert {author, other} <= sigs.Keys;
        CardinalityMonotone({author, other}, sigs.Keys);
      }
    }
  }

  method AuthorizeEndorser(cache: Cache, req: Request) returns (ok: bool)
    ensures ok <==> EndorserOk(cache, req)
  {
    if req.endorser.Some? && RoleOf(cache, req.endorser) != Some(ENDORSER) {
      return false;
    }
    var sigs := Sigs(req);
    if req.endorser != req.identifier && req.endorser.Some? && req.endorser.value != "" {
      if sigs == map[] {
        return false;
      }
      if req.endorser.value !in sigs {
        return false;
      }
    }
    if sigs == map[] {
      return true;
    }
    ExtraSignatures(req);
    var hasExtraSigs := |sigs| > 1 || !(req.identifier.Some? && req.identifier.value in sigs);
    if !hasExtraSigs {
      return true;
    }
    if Privileged(RoleOf(cache, req.identifier)) {
      return true;
    }
    var privileged := HasPrivilegedSig(cache, sigs);
    if !privileged {
      return true;
    }
    return req.endorser.Some?;
  }

  class WriteRequestValidator {
    const cache: Cache
    var authorizers: map<Kind, seq<Authorizer>>

    ghost predicate Valid()
      reads this
    {
      authorizers == DefaultTable()
    }

    constructor (cache: Cache)
      ensures Valid() && this.cache == cache
    {
      this.cache := cache;
      authorizers := map[];
      new;
      RegisterAuthorizer(RolesAuthorizer, RoleKind);
      RegisterAuthorizer(EndorserAuthorizer, RoleKind);
      RegisterAuthorizer(AndAuthorizer, AndKind);
      RegisterAuthorizer(OrAuthorizer, OrKind);
      RegisterAuthorizer(ForbiddenAuthorizer, ForbiddenKind);
      assert authorizers[RoleKind] == [RolesAuthorizer, EndorserAuthorizer];
      assert authorizers[AndKind] == [AndAuthorizer] && authorizers[OrKind] == [OrAuthorizer];
      assert authorizers[ForbiddenKind] == [ForbiddenAuthorizer];
    }

    method RegisterAuthorizer(a: Authorizer, kind: Kind)
      modifies this
      ensures var before := if kind in old(authorizers) then old(authorizers)[kind] else [];
        authorizers == old(authorizers)[kind := before + [a]]
    {
      if kind !in authorizers {
        authorizers := authorizers[kind := []];
      }
      authorizers := authorizers[kind := authorizers[kind] + [a]];
    }

    /** The dispatcher: it never returns a refusal, it raises.  It returns exactly on allowed requests,
        and it terminates on every tree. */
    method Authorize(req: Request, c: Constraint, isOwner: bool) returns (r: Outcome)
      requires Valid()
      ensures r == if Allowed(cache, req, c, isOwner) then Returned(true) else Raised
      decreases c, 2
    {
      var table := authorizers[KindOf(c)];
      for i := 0 to |table|
        invariant forall j :: 0 <= j < i ==> Passes(table[j], req, c, isOwner)
      {
        var one := RunAuthorizer(table[i], req, c, isOwner);
        if one.Raised? || !one.authorized {
          assert !Passes(table[i], req, c, isOwner);
          return Raised;
        }
      }
      assert c.RoleConstraint? ==> Passes(table[0], req, c, isOwner) && Passes(table[1], req, c, isOwner);
      assert !c.RoleConstraint? ==> Passes(table[0], req, c, isOwner);
      return Returned(true);
    }

    /** What one registered authorizer stands for. */
    ghost predicate Passes(a: Authorizer, req: Request, c: Constraint, isOwner: bool) {
      match a
      case RolesAuthorizer => c.RoleConstraint? && RolesOk(cache, req, c, isOwner)
      case EndorserAuthorizer => EndorserOk(cache, req)
      case AndAuthorizer => Allowed(cache, req, c, isOwner)
      case OrAuthorizer => Allowed(cache, req, c, isOwner)
      case ForbiddenAuthorizer => false
    }

    method RunAuthorizer(a: Authorizer, req: Request, c: Constraint, isOwner: bool) returns (r: Outcome)
      requires Valid() && a in DefaultTable()[KindOf(c)]
      ensures r == Returned(true) <==> Passes(a, req, c, isOwner)
      decreases c, 1
    {
      match a {
        case RolesAuthorizer =>
          var ok := AuthorizeRoles(cache, req, c, isOwner);
          r := Returned(ok);
        case EndorserAuthorizer =>
          var ok := AuthorizeEndorser(cache, req);
          r := Returned(ok);
        case AndAuthorizer =>
          r := AuthorizeAnd(req, c, isOwner);
        case OrAuthorizer =>
          r := AuthorizeOr(req, c, isOwner);
        case ForbiddenAuthorizer =>
          r := Returned(false);
      }
    }

    method AuthorizeAnd(req: Request, c: Constraint, isOwner: bool) returns (r: Outcome)
      requires Valid() && c.AndConstraint?
      ensures r == if Allowed(cache, req, c, isOwner) then Returned(true) else Raised
      decreases c, 0
    {
      for i := 0 to |c.parts|
        invariant forall j :: 0 <= j < i ==> Allowed(cache, req, c.parts[j], isOwner)
      {
        var one := Authorize(req, c.parts[i], isOwner);
        if one.Raised? || !one.authorized {
          return Raised;
        }
      }
      return Returned(true);
    }

    method AuthorizeOr(req: Request, c: Constraint, isOwner: bool) returns (r: Outcome)
      requires Valid() && c.OrConstraint?
      ensures r == if Allowed(cache, req, c, isOwner) then Returned(true) else Raised
      decreases c, 0
    {
      var successes, fails := 0, [];
      for i := 0 to |c.parts|
        invariant successes + |fails| == i
        invariant successes == 0 <==> forall j :: 0 <= j < i ==> !Allowed(cache, req, c.parts[j], isOwner)
      {
        var one := Authorize(req, c.parts[i], isOwner);
        if one.Raised? {
          fails := fails + [c.parts[i]];
        } else {
          successes := successes + 1;
        }
      }
      if successes == 0 {
        return Raised;
      }
      return Returned(true);
    }

    /** `validate` returns from inside its loop, so only the first action of the list is ever checked:
        the verdict is that action's, whatever the others are. */
    method Validate(req: Request, actions: seq<AuthAction>, lookup: RuleTable) returns (r: Validation)
      requires Valid()
      ensures r == Verdict(cache, req, lookup, actions)
    {
      for i := 0 to |actions|
        invariant i == 0
      {
        var constraint := lookup(actions[i].id);
        if constraint.Some? {
          var one := Authorize(req, constraint.value, actions[i].isOwner);
          if one.Raised? {
            return Unauthorized;
          }
          return Authorized;
        }
        return Unauthorized;
      }
      return NoVerdict;
    }
  }
}
