/** What a role constraint asks for, written out on the roles that the ledger stores. */
module RoleRules {
  import opened Common
  import opened AuthConstraints
  import opened Authorization

  /** A role as the ledger stores it against the role of a constraint; identity owners are stored as "". */
  predicate HasRole(stored: string, role: Option<string>) {
    match role
    case None => stored == ""
    case Some(r) => r != "" && stored == r
  }

  /** The signers that hold the role on the ledger. */
  function Holders(cache: Cache, sigs: map<Did, string>, role: Option<string>): set<Did> {
    set did | did in sigs && did in cache && HasRole(cache[did], role)
  }

  predicate OnLedger(cache: Cache, did: Option<Did>) { did.Some? && did.value in cache }

  predicate IsMultiSigned(req: Request) { req.signature == None || req.signature == Some("") }

  /** On a request with one signature, a constraint can ask for one at most, and that is the author's: of any role if it
      need not be on the ledger, of any role on the ledger for "*", and otherwise of the role. */
  predicate AuthorSuffices(cache: Cache, req: Request, role: Option<string>, n: int, off: Option<bool>) {
    n <= 0 || (n == 1 && (off == Some(true)
      || (OnLedger(cache, req.identifier) && (role == Some("*") || HasRole(cache[req.identifier.value], role)))))
  }

  /** On any other request, signatures are counted: all of them for "*" or off the ledger, else those of the role. */
  predicate SignersSuffice(cache: Cache, req: Request, role: Option<string>, n: int, off: Option<bool>) {
    var sigs := match req.signatures case Some(m) => m case None => map[];
    if role == Some("*") || off == Some(true) then |sigs.Keys| >= n else |Holders(cache, sigs, role)| >= n
  }

  lemma RoleMatters(cache: Cache, did: Option<Did>, role: Option<string>)
    requires role != Some("*")
    ensures RoleAccepted(RoleOf(cache, did), role) <==> OnLedger(cache, did) && HasRole(cache[did.value], role)
  {
  }

  lemma CountedAreHolders(cache: Cache, c: Constraint, sigs: map<Did, string>)
    requires c.RoleConstraint? && c.role != Some("*") && c.offLedger != Some(true)
    ensures Counted(cache, c, sigs) == Holders(cache, sigs, c.role)
  {
    forall did ensures did in Counted(cache, c, sigs) <==> did in Holders(cache, sigs, c.role) {
      RoleMatters(cache, Some(did), c.role);
    }
  }

  /** The count is met exactly as said. */
  lemma CountMetExactly(cache: Cache, req: Request, c: Constraint)
    requires c.RoleConstraint?
    ensures SigCount(cache, req, c) >= c.sigCount
       <==> if IsMultiSigned(req) then SignersSuffice(cache, req, c.role, c.sigCount, c.offLedger)
            else AuthorSuffices(cache, req, c.role, c.sigCount, c.offLedger)
  {
    if IsMultiSigned(req) {
      if c.role == Some("*") || c.offLedger == Some(true) {
        assert Counted(cache, c, Sigs(req)) == Sigs(req).Keys;
      } else {
        CountedAreHolders(cache, c, Sigs(req));
      }
    } else if c.role != Some("*") {
      RoleMatters(cache, req.identifier, c.role);
    }
  }

  /** The endorser that a request names holds the endorser role on the ledger, and signed unless it is the author. */
  predicate EndorserIsGood(cache: Cache, req: Request, sigs: set<Did>) {
    match req.endorser
    case None => true
    case Some(e) => e in cache && cache[e] == "101" && (e == "" || req.identifier == Some(e) || e in sigs)
  }

  predicate IsOfficer(cache: Cache, did: Did) { did in cache && cache[did] in {"0", "2", "101"} }

  /** Nobody but the author signed, the author is a trustee, steward or endorser, or no signer is. */
  ghost predicate NoEndorserNeeded(cache: Cache, req: Request, sigs: set<Did>) {
    || (forall did :: did in sigs ==> req.identifier == Some(did))
    || (req.identifier.Some? && IsOfficer(cache, req.identifier.value))
    || (forall did :: did in sigs ==> !IsOfficer(cache, did))
  }

  lemma OfficersArePrivileged(cache: Cache, did: Option<Did>)
    ensures Privileged(RoleOf(cache, did)) <==> did.Some? && IsOfficer(cache, did.value)
  {
  }

  lemma EndorserOkExactly(cache: Cache, req: Request)
    ensures EndorserOk(cache, req) <==>
      && EndorserIsGood(cache, req, Sigs(req).Keys)
      && (req.endorser.Some? || NoEndorserNeeded(cache, req, Sigs(req).Keys))
  {
    OfficersArePrivileged(cache, req.identifier);
    forall did ensures Privileged(RoleOf(cache, Some(did))) <==> IsOfficer(cache, did) {
      OfficersArePrivileged(cache, Some(did));
    }
    NeedsEndorserExactly(cache, req);
  }

  lemma NeedsEndorserExactly(cache: Cache, req: Request)
    ensures NeedsEndorser(cache, req) <==> !NoEndorserNeeded(cache, req, Sigs(req).Keys)
  {
    OfficersArePrivileged(cache, req.identifier);
    forall did ensures Privileged(RoleOf(cache, Some(did))) <==> IsOfficer(cache, did) {
      OfficersArePrivileged(cache, Some(did));
    }
    assert forall did :: did in Sigs(req) <==> did in Sigs(req).Keys;
  }

  /** The whole meaning of a role constraint, on stored roles and signatures alone: the author is the owner if need be,
      is on the ledger and among the signers if any signature is asked for, there are enough signatures of the role, and
      the endorsement is in order. */
  lemma RoleAllowedExactly(cache: Cache, req: Request, c: Constraint, isOwner: bool)
    requires c.RoleConstraint?
    ensures var sigs: set<Did> := match req.signatures case Some(m) => m.Keys case None => {};
      Allowed(cache, req, c, isOwner) <==>
        && (c.needToBeOwner ==> isOwner)
        && (c.sigCount > 0 && c.offLedger != Some(true) ==> OnLedger(cache, req.identifier))
        && (c.sigCount > 0 && sigs != {} ==> req.identifier.Some? && req.identifier.value in sigs)
        && (if IsMultiSigned(req) then SignersSuffice(cache, req, c.role, c.sigCount, c.offLedger)
            else AuthorSuffices(cache, req, c.role, c.sigCount, c.offLedger))
        && EndorserIsGood(cache, req, sigs)
        && (req.endorser.Some? || NoEndorserNeeded(cache, req, sigs))
  {
    CountMetExactly(cache, req, c);
    EndorserOkExactly(cache, req);
    assert Sigs(req) == map[] <==> Sigs(req).Keys == {};
  }

  /** So a role on the ledger is turned away exactly by the constraints for other roles: a single signature of a known
      author, who needs no endorser, satisfies a constraint for one of a role exactly when that is the author's. */
  lemma OneSignatureExactly(cache: Cache, author: Did, signature: string, role: Option<string>)
    requires author in cache && signature != "" && role != Some("*")
    ensures Allowed(cache, Request(Some(author), Some(signature), None, None),
                    RoleConstraint(role, 1, false, None, map[]), false)
       <==> HasRole(cache[author], role)
  {
    RoleAllowedExactly(cache, Request(Some(author), Some(signature), None, None),
                       RoleConstraint(role, 1, false, None, map[]), false);
  }
}
