/** Validation of a list of actions: what the verdict on the list says about each of its actions. */
module ActionLists {
  import opened Common
  import opened AuthConstraints
  import opened Authorization

  datatype AuthAction = AuthAction(id: string, isOwner: bool)

  /** What validation of a request ends with; nothing is returned when there is no action at all. */
  datatype Validation = NoVerdict | Authorized | Unauthorized

  /** The rule that the lookup finds for an action id. */
  type RuleTable = string -> Option<Constraint>

  /** There is a rule for the action, and the request satisfies it. */
  ghost predicate ActionAllowed(cache: Cache, req: Request, lookup: RuleTable, action: AuthAction) {
    lookup(action.id).Some? && Allowed(cache, req, lookup(action.id).value, action.isOwner)
  }

  /** The verdict of `validate`, which is that of the first action. */
  ghost function Verdict(cache: Cache, req: Request, lookup: RuleTable, actions: seq<AuthAction>): Validation {
    if actions == [] then NoVerdict
    else if ActionAllowed(cache, req, lookup, actions[0]) then Authorized
    else Unauthorized
  }

  /** What one expects of the verdict: an authorized list holds only allowed actions. */
  ghost predicate Trustworthy(cache: Cache, req: Request, lookup: RuleTable, actions: seq<AuthAction>) {
    Verdict(cache, req, lookup, actions) == Authorized ==>
      forall i :: 0 <= i < |actions| ==> ActionAllowed(cache, req, lookup, actions[i])
  }

  predicate Covers(first: AuthAction, other: AuthAction) {
    other.id == first.id && (first.isOwner ==> other.isOwner)
  }

  ghost predicate CoveredByFirst(actions: seq<AuthAction>) {
    forall i :: 0 <= i < |actions| ==> Covers(actions[0], actions[i])
  }

  /** Owning the object never turns acceptance into rejection. */
  lemma {:induction false} OwnerKeepsAllowed(cache: Cache, req: Request, c: Constraint)
    requires Allowed(cache, req, c, false)
    ensures Allowed(cache, req, c, true)
    decreases c
  {
    match c
    case RoleConstraint(_, _, _, _, _) =>
    case AndConstraint(parts) =>
      forall i | 0 <= i < |parts| ensures Allowed(cache, req, parts[i], true) {
        OwnerKeepsAllowed(cache, req, parts[i]);
      }
    case OrConstraint(parts) =>
      var i :| 0 <= i < |parts| && Allowed(cache, req, parts[i], false);
      OwnerKeepsAllowed(cache, req, parts[i]);
  }

  lemma CoveredIsAllowed(cache: Cache, req: Request, lookup: RuleTable, first: AuthAction, other: AuthAction)
    requires Covers(first, other) && ActionAllowed(cache, req, lookup, first)
    ensures ActionAllowed(cache, req, lookup, other)
  {
    if other.isOwner && !first.isOwner {
      OwnerKeepsAllowed(cache, req, lookup(first.id).value);
    }
  }

  const UNSIGNED := Request(None, None, None, None)

  const OWNER_ONLY := RoleConstraint(Some("*"), 0, true, None, map[])

  /** A rule table that allows `id` to the owner alone, or to anyone, and forbids everything else. */
  function OnlyRule(id: string, ownerOnly: bool): RuleTable {
    x => if x != id then Some(Forbidden) else if ownerOnly then Some(OWNER_ONLY) else Some(AndConstraint([]))
  }

  lemma OwnerOnlyAsksForOwner(cache: Cache, isOwner: bool)
    ensures Allowed(cache, UNSIGNED, OWNER_ONLY, isOwner) <==> isOwner
  {
    assert Sigs(UNSIGNED) == map[];
    assert !NeedsEndorser(cache, UNSIGNED);
  }

  /** An action that the first does not cover is let through by some rule table although it is not allowed. */
  lemma UncoveredSlipsThrough(cache: Cache, first: AuthAction, other: AuthAction)
    requires !Covers(first, other)
    ensures var lookup := OnlyRule(first.id, first.id == other.id);
      ActionAllowed(cache, UNSIGNED, lookup, first) && !ActionAllowed(cache, UNSIGNED, lookup, other)
  {
    OwnerOnlyAsksForOwner(cache, first.isOwner);
    OwnerOnlyAsksForOwner(cache, other.isOwner);
  }

  /** The verdict on a list can be trusted, whatever the roles, the request and the rules, exactly when the first
      action covers all: every action has the id of the first, and is by the owner if the first is. */
  lemma VerdictTrustedExactly(actions: seq<AuthAction>)
    ensures (forall cache, req, lookup :: Trustworthy(cache, req, lookup, actions)) <==> CoveredByFirst(actions)
  {
    if CoveredByFirst(actions) {
      forall cache, req, lookup ensures Trustworthy(cache, req, lookup, actions) {
        if Verdict(cache, req, lookup, actions) == Authorized {
          forall i | 0 <= i < |actions| ensures ActionAllowed(cache, req, lookup, actions[i]) {
            CoveredIsAllowed(cache, req, lookup, actions[0], actions[i]);
          }
        }
      }
    } else {
      var i :| 0 <= i < |actions| && !Covers(actions[0], actions[i]);
      UncoveredSlipsThrough(map[], actions[0], actions[i]);
      assert !Trustworthy(map[], UNSIGNED, OnlyRule(actions[0].id, actions[0].id == actions[i].id), actions);
    }
  }

  /** A forbidden action is authorized behind an allowed one, for every cache and every request. */
  lemma ForbiddenBehindAllowed(cache: Cache, req: Request, first: AuthAction, other: AuthAction)
    requires first.id != other.id
    ensures var lookup := OnlyRule(first.id, false);
      && Verdict(cache, req, lookup, [first, other]) == Authorized
      && lookup(other.id) == Some(Forbidden) && !ActionAllowed(cache, req, lookup, other)
      && Verdict(cache, req, lookup, [other, first]) == Unauthorized
  {
  }

  /** A list of one action, which is what every request handler passes, is always covered. */
  lemma OneActionIsTrusted(cache: Cache, req: Request, lookup: RuleTable, action: AuthAction)
    ensures Verdict(cache, req, lookup, [action]) == Authorized <==> ActionAllowed(cache, req, lookup, action)
    ensures CoveredByFirst([action])
  {
  }
}
