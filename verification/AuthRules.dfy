/** Action ids, wildcard rule lookup, and the default rule table. */
module AuthRules {
  import opened Common
  import opened Text

  datatype ActionDef = ActionDef(txnType: string, prefix: string, field: string, oldValue: string, newValue: string)

  const RULE_DELIMITER := "--"
  const ADD := "ADD"
  const EDIT := "EDIT"

  // ----- action ids -----

  function PartsOf(d: ActionDef): seq<string> {
    [d.txnType, d.prefix, d.field, d.oldValue, d.newValue]
  }

  function CompileActionId(d: ActionDef): string {
    Join(PartsOf(d), RULE_DELIMITER)
  }

  /** Splitting gives an action only when there are exactly five parts; otherwise the call raises. */
  function SplitActionId(id: string): Option<ActionDef> {
    var parts := Split(id, RULE_DELIMITER);
    if |parts| == 5 then Some(ActionDef(parts[0], parts[1], parts[2], parts[3], parts[4])) else None
  }

  predicate EndsInDash(p: string) { p != "" && p[|p| - 1] == '-' }

  ghost predicate SplitsBack(d: ActionDef) {
    && (forall i :: 0 <= i < 5 ==> !Contains(PartsOf(d)[i], RULE_DELIMITER))
    && (forall i :: 0 <= i < 4 ==> !EndsInDash(PartsOf(d)[i]))
  }

  lemma SafeBeforeDelimiter(p: string)
    ensures SafeBefore(p, RULE_DELIMITER) <==> !Contains(p, RULE_DELIMITER) && !EndsInDash(p)
  {
    var s := p + RULE_DELIMITER;
    forall i: nat | i + 2 <= |p| ensures OccursAt(s, RULE_DELIMITER, i) <==> OccursAt(p, RULE_DELIMITER, i) {
      assert s[i..i + 2] == p[i..i + 2];
    }
    if p != "" {
      var k := |p| - 1;
      assert s[k..k + 2] == [p[k], '-'];
      assert OccursAt(s, RULE_DELIMITER, k) <==> p[k] == '-';
    }
  }

  lemma SplittableParts(d: ActionDef)
    ensures Splittable(PartsOf(d), RULE_DELIMITER) <==> SplitsBack(d)
  {
    var parts := PartsOf(d);
    forall i | 0 <= i < 5
      ensures SafeBefore(parts[i], RULE_DELIMITER) <==> !Contains(parts[i], RULE_DELIMITER) && !EndsInDash(parts[i]) {
      SafeBeforeDelimiter(parts[i]);
    }
  }

  lemma SplitGives(id: string, d: ActionDef)
    ensures SplitActionId(id) == Some(d) <==> Split(id, RULE_DELIMITER) == PartsOf(d)
  {
  }

  /** `split_action_id` undoes `compile_action_id` exactly when no part contains the delimiter and no part
      but the last ends in a dash. */
  lemma SplitUndoesCompile(d: ActionDef)
    ensures SplitActionId(CompileActionId(d)) == Some(d) <==> SplitsBack(d)
  {
    SplitJoin(PartsOf(d), RULE_DELIMITER);
    SplittableParts(d);
    SplitGives(CompileActionId(d), d);
  }

  // ----- lookup -----

  /** `is_accepted_action_id` on split ids: '*' in the rule stands for any value. */
  predicate Accepts(rule: ActionDef, act: ActionDef) {
    && act.prefix == rule.prefix
    && act.txnType == rule.txnType
    && (act.field == rule.field || rule.field == "*")
    && (act.oldValue == rule.oldValue || rule.oldValue == "*")
    && (act.newValue == rule.newValue || rule.newValue == "*")
  }

  predicate AcceptsId(key: string, id: string)
    requires SplitActionId(key).Some? && SplitActionId(id).Some?
  {
    Accepts(SplitActionId(key).value, SplitActionId(id).value)
  }

  ghost predicate AllSplit(keys: seq<string>) {
    forall i :: 0 <= i < |keys| ==> SplitActionId(keys[i]).Some?
  }

  /** The end of a lookup; an id or a key that is not made of five parts raises an error when it is compared. */
  datatype Lookup = Found(key: string) | Absent | Raised

  predicate Comparable(key: string, id: string) {
    SplitActionId(key).Some? && SplitActionId(id).Some?
  }

  /** The first `n` keys can be compared with the action and do not accept it. */
  ghost predicate PassedOver(id: string, keys: seq<string>, n: int) {
    0 <= n <= |keys| && forall i :: 0 <= i < n ==> Comparable(keys[i], id) && !AcceptsId(keys[i], id)
  }

  /** `_find_auth_constraint_key`: the first key of the table that accepts the action. */
  method FindAuthConstraintKey(id: string, keys: seq<string>) returns (r: Lookup)
    ensures match r
      case Found(key) =>
        && Comparable(key, id) && AcceptsId(key, id)
        && exists i :: 0 <= i < |keys| && PassedOver(id, keys, i) && keys[i] == key
      case Raised => exists i :: 0 <= i < |keys| && PassedOver(id, keys, i) && !Comparable(keys[i], id)
      case Absent => PassedOver(id, keys, |keys|)
    ensures r == LookedUp(id, keys)
    ensures SplitActionId(id).Some? && AllSplit(keys) ==>
      r == match FirstMatch(id, keys) case Some(key) => Found(key) case None => Absent
  {
    if SplitActionId(id).Some? && AllSplit(keys) {
      LookedUpIsFirstMatch(id, keys);
    }
    for i := 0 to |keys|
      invariant PassedOver(id, keys, i)
      invariant LookedUp(id, keys) == LookedUp(id, keys[i..])
    {
      if !Comparable(keys[i], id) {
        return Raised;
      }
      if AcceptsId(keys[i], id) {
        return Found(keys[i]);
      }
    }
    return Absent;
  }

  function LookedUp(id: string, keys: seq<string>): Lookup {
    if keys == [] then Absent
    else if !Comparable(keys[0], id) then Raised
    else if AcceptsId(keys[0], id) then Found(keys[0])
    else LookedUp(id, keys[1..])
  }

  /** When all can be compared, the lookup ends with the first match. */
  lemma {:induction false} LookedUpIsFirstMatch(id: string, keys: seq<string>)
    requires SplitActionId(id).Some? && AllSplit(keys)
    ensures LookedUp(id, keys) == match FirstMatch(id, keys) case Some(key) => Found(key) case None => Absent
  {
    if keys != [] {
      LookedUpIsFirstMatch(id, keys[1..]);
    }
  }

  function FirstMatch(id: string, keys: seq<string>): (r: Option<string>)
    requires SplitActionId(id).Some? && AllSplit(keys)
    ensures r.Some? ==> r.value in keys && AcceptsId(r.value, id)
    ensures r.None? ==> forall i :: 0 <= i < |keys| ==> !AcceptsId(keys[i], id)
  {
    if keys == [] then None
    else if AcceptsId(keys[0], id) then Some(keys[0])
    else FirstMatch(id, keys[1..])
  }

  // ----- the default table -----

  datatype TxnType =
    | NYM | NODE | ATTRIB | SCHEMA | CLAIM_DEF | POOL_UPGRADE | POOL_RESTART | POOL_CONFIG
    | AUTH_RULE | AUTH_RULES | VALIDATOR_INFO | REVOC_REG_DEF | REVOC_REG_ENTRY
    | TXN_AUTHOR_AGREEMENT | TXN_AUTHOR_AGREEMENT_AML | TXN_AUTHOR_AGREEMENT_DISABLE | LEDGERS_FREEZE
    | JSON_LD_CONTEXT | RICH_SCHEMA | RICH_SCHEMA_ENCODING | RICH_SCHEMA_MAPPING
    | RICH_SCHEMA_CRED_DEF | RICH_SCHEMA_PRES_DEF

  datatype RoleName = Trustee | Steward | Endorser | NetworkMonitor | IdentityOwner

  datatype NodeField = NodeIp | NodePort | ClientIp | ClientPort | BlsKey

  /** The kinds of keys in the rule table. */
  datatype Rule =
    | AddRole(role: RoleName)
    | EditRole(from: RoleName, to: RoleName)
    | RotateKey
    | AddAny(txn: TxnType)
    | EditAny(txn: TxnType)
    | AddNode(active: bool)
    | SwitchNode(active: bool)
    | EditNode(nodeField: NodeField)
    | StartUpgrade
    | CancelUpgrade
    | RestartPool
    | ConfigPool

  function RoleCode(r: RoleName): string {
    match r
    case Trustee => "0"
    case Steward => "2"
    case Endorser => "101"
    case NetworkMonitor => "201"
    case IdentityOwner => ""
  }

  function FieldName(f: NodeField): string {
    match f
    case NodeIp => "node_ip"
    case NodePort => "node_port"
    case ClientIp => "client_ip"
    case ClientPort => "client_port"
    case BlsKey => "blskey"
  }

  function Services(active: bool): string { if active then "['VALIDATOR']" else "[]" }

  function DefOf(code: TxnType -> string, rule: Rule): ActionDef {
    match rule
    case AddRole(r) => ActionDef(code(NYM), ADD, "role", "*", RoleCode(r))
    case EditRole(from, to) => ActionDef(code(NYM), EDIT, "role", RoleCode(from), RoleCode(to))
    case RotateKey => ActionDef(code(NYM), EDIT, "verkey", "*", "*")
    case AddAny(t) => ActionDef(code(t), ADD, "*", "*", "*")
    case EditAny(t) => ActionDef(code(t), EDIT, "*", "*", "*")
    case AddNode(active) => ActionDef(code(NODE), ADD, "services", "*", Services(active))
    case SwitchNode(active) => ActionDef(code(NODE), EDIT, "services", Services(!active), Services(active))
    case EditNode(f) => ActionDef(code(NODE), EDIT, FieldName(f), "*", "*")
    case StartUpgrade => ActionDef(code(POOL_UPGRADE), ADD, "action", "*", "start")
    case CancelUpgrade => ActionDef(code(POOL_UPGRADE), EDIT, "action", "start", "cancel")
    case RestartPool => ActionDef(code(POOL_RESTART), ADD, "action", "*", "*")
    case ConfigPool => ActionDef(code(POOL_CONFIG), EDIT, "action", "*", "*")
  }

  function EditRoles(): seq<Rule> {
    var roles := [Trustee, Steward, Endorser, NetworkMonitor, IdentityOwner];
    seq(25, i requires 0 <= i < 25 => EditRole(roles[i / 5], roles[i % 5]))
  }

  function NymRules(): seq<Rule> {
    [AddRole(Trustee), AddRole(Steward), AddRole(Endorser), AddRole(NetworkMonitor), AddRole(IdentityOwner), RotateKey]
  }

  function LedgerRules(): seq<Rule> {
    [AddAny(TXN_AUTHOR_AGREEMENT), EditAny(TXN_AUTHOR_AGREEMENT), AddAny(TXN_AUTHOR_AGREEMENT_DISABLE),
     AddAny(TXN_AUTHOR_AGREEMENT_AML), AddAny(ATTRIB), EditAny(ATTRIB), AddAny(SCHEMA), EditAny(SCHEMA)]
  }

  function RichSchemaRules(): seq<Rule> {
    [AddAny(JSON_LD_CONTEXT), EditAny(JSON_LD_CONTEXT), AddAny(RICH_SCHEMA), EditAny(RICH_SCHEMA),
     AddAny(RICH_SCHEMA_ENCODING), EditAny(RICH_SCHEMA_ENCODING), AddAny(RICH_SCHEMA_MAPPING),
     EditAny(RICH_SCHEMA_MAPPING), AddAny(RICH_SCHEMA_CRED_DEF), EditAny(RICH_SCHEMA_CRED_DEF),
     AddAny(RICH_SCHEMA_PRES_DEF), EditAny(RICH_SCHEMA_PRES_DEF), AddAny(CLAIM_DEF), EditAny(CLAIM_DEF)]
  }

  function NodeRules(): seq<Rule> {
    [AddNode(true), AddNode(false), SwitchNode(false), SwitchNode(true),
     EditNode(NodeIp), EditNode(NodePort), EditNode(ClientIp), EditNode(ClientPort), EditNode(BlsKey)]
  }

  function PoolRules(): seq<Rule> {
    [StartUpgrade, CancelUpgrade, RestartPool, ConfigPool, EditAny(AUTH_RULE), EditAny(AUTH_RULES),
     AddAny(VALIDATOR_INFO), AddAny(REVOC_REG_DEF), AddAny(REVOC_REG_ENTRY), EditAny(REVOC_REG_DEF),
     EditAny(REVOC_REG_ENTRY), EditAny(LEDGERS_FREEZE)]
  }

  /** The keys of `auth_map`, in order; the role edits are appended by its updates. */
  function DefaultRules(): seq<Rule> {
    NymRules() + LedgerRules() + RichSchemaRules() + NodeRules() + PoolRules() + EditRoles()
  }

  /** Transaction types with rules of their own, beside which an any-field rule would overlap. */
  predicate Specific(t: TxnType) {
    t.NYM? || t.NODE? || t.POOL_UPGRADE? || t.POOL_RESTART? || t.POOL_CONFIG?
  }

  predicate Proper(rule: Rule) {
    rule.AddAny? || rule.EditAny? ==> !Specific(rule.txn)
  }

  ghost predicate DistinctCodes(code: TxnType -> string) {
    forall a, b :: code(a) == code(b) ==> a == b
  }

  /** Transaction codes are distinct and, being numerals, hold no dash. */
  ghost predicate GoodCodes(code: TxnType -> string) {
    DistinctCodes(code) && forall a :: '-' !in code(a)
  }

  lemma RoleCodesDiffer(a: RoleName, b: RoleName)
    ensures RoleCode(a) == RoleCode(b) ==> a == b
    ensures RoleCode(a) != "*"
  {
  }

  lemma FieldNamesDiffer(a: NodeField, b: NodeField)
    ensures FieldName(a) == FieldName(b) ==> a == b
    ensures FieldName(a) != "*" && FieldName(a) != "services"
  {
  }

  lemma ServicesDiffer()
    ensures Services(true) != Services(false)
    ensures forall a :: Services(a) != "*"
  {
  }

  function TxnOf(rule: Rule): TxnType {
    match rule
    case AddRole(_) => NYM
    case EditRole(_, _) => NYM
    case RotateKey => NYM
    case AddAny(t) => t
    case EditAny(t) => t
    case AddNode(_) => NODE
    case SwitchNode(_) => NODE
    case EditNode(_) => NODE
    case StartUpgrade => POOL_UPGRADE
    case CancelUpgrade => POOL_UPGRADE
    case RestartPool => POOL_RESTART
    case ConfigPool => POOL_CONFIG
  }

  predicate Edits(rule: Rule) {
    rule.EditRole? || rule.RotateKey? || rule.EditAny? || rule.SwitchNode? || rule.EditNode? || rule.CancelUpgrade?
    || rule.ConfigPool?
  }

  lemma KindOfRule(code: TxnType -> string, rule: Rule)
    ensures DefOf(code, rule).txnType == code(TxnOf(rule))
    ensures DefOf(code, rule).prefix == if Edits(rule) then EDIT else ADD
  {
  }

  /** Rules that accept the same action are about the same transaction type and both add or both edit. */
  lemma SameKindOfRule(code: TxnType -> string, a: Rule, b: Rule, act: ActionDef)
    requires DistinctCodes(code)
    requires Accepts(DefOf(code, a), act) && Accepts(DefOf(code, b), act)
    ensures TxnOf(a) == TxnOf(b) && (Edits(a) <==> Edits(b))
  {
    KindOfRule(code, a);
    KindOfRule(code, b);
    assert |ADD| == 3 && |EDIT| == 4;
  }

  lemma NymEditsAreDisjoint(code: TxnType -> string, a: Rule, b: Rule, act: ActionDef)
    requires (a.EditRole? || a.RotateKey?) && (b.EditRole? || b.RotateKey?)
    requires Accepts(DefOf(code, a), act) && Accepts(DefOf(code, b), act)
    ensures a == b
  {
    assert |"role"| == 4 && |"verkey"| == 6 && |"*"| == 1;
    if a.EditRole? && b.EditRole? {
      RoleCodesDiffer(a.from, b.from);
      RoleCodesDiffer(a.to, b.to);
      RoleCodesDiffer(b.from, a.from);
      RoleCodesDiffer(b.to, a.to);
    }
  }

  lemma NodeRulesAreDisjoint(code: TxnType -> string, a: Rule, b: Rule, act: ActionDef)
    requires TxnOf(a) == TxnOf(b) == NODE && (Edits(a) <==> Edits(b)) && Proper(a) && Proper(b)
    requires Accepts(DefOf(code, a), act) && Accepts(DefOf(code, b), act)
    ensures a == b
  {
    ServicesDiffer();
    if a.EditNode? {
      FieldNamesDiffer(a.nodeField, a.nodeField);
      if b.EditNode? {
        FieldNamesDiffer(a.nodeField, b.nodeField);
        FieldNamesDiffer(b.nodeField, b.nodeField);
      }
    } else if b.EditNode? {
      FieldNamesDiffer(b.nodeField, b.nodeField);
    }
  }

  lemma AddedRolesAreDisjoint(code: TxnType -> string, a: Rule, b: Rule, act: ActionDef)
    requires a.AddRole? && b.AddRole?
    requires Accepts(DefOf(code, a), act) && Accepts(DefOf(code, b), act)
    ensures a == b
  {
    RoleCodesDiffer(a.role, b.role);
    RoleCodesDiffer(b.role, a.role);
  }

  /** No action is accepted by two different rules. */
  lemma RulesAreDisjoint(code: TxnType -> string, a: Rule, b: Rule, act: ActionDef)
    requires DistinctCodes(code) && Proper(a) && Proper(b)
    requires Accepts(DefOf(code, a), act) && Accepts(DefOf(code, b), act)
    ensures a == b
  {
    SameKindOfRule(code, a, b, act);
    if TxnOf(a).NODE? {
      NodeRulesAreDisjoint(code, a, b, act);
    } else if a.AddRole? {
      AddedRolesAreDisjoint(code, a, b, act);
    } else if a.EditRole? || a.RotateKey? {
      NymEditsAreDisjoint(code, a, b, act);
    }
  }

  lemma NoDash(p: string)
    requires '-' !in p
    ensures !Contains(p, RULE_DELIMITER) && !EndsInDash(p)
  {
    forall i: nat | i + 2 <= |p| ensures !OccursAt(p, RULE_DELIMITER, i) {
      assert p[i..i + 2][0] == p[i];
    }
  }

  /** Every key of the table splits back into its rule. */
  lemma KeysSplitBack(code: TxnType -> string, rule: Rule)
    requires GoodCodes(code)
    ensures SplitActionId(CompileActionId(DefOf(code, rule))) == Some(DefOf(code, rule))
  {
    var d := DefOf(code, rule);
    forall i | 0 <= i < 5 ensures '-' !in PartsOf(d)[i] {
      DashFree(code, rule);
    }
    forall i | 0 <= i < 5 ensures !Contains(PartsOf(d)[i], RULE_DELIMITER) && !EndsInDash(PartsOf(d)[i]) {
      NoDash(PartsOf(d)[i]);
    }
    SplitUndoesCompile(d);
  }

  lemma LiteralsDashFree()
    ensures '-' !in ADD && '-' !in EDIT && '-' !in "role" && '-' !in "verkey" && '-' !in "*"
    ensures '-' !in "services" && '-' !in "action" && '-' !in "start" && '-' !in "cancel"
    ensures forall r :: '-' !in RoleCode(r)
    ensures forall f :: '-' !in FieldName(f)
    ensures forall a :: '-' !in Services(a)
  {
  }

  lemma DashFree(code: TxnType -> string, rule: Rule)
    requires GoodCodes(code)
    ensures var d := DefOf(code, rule);
      '-' !in d.txnType && '-' !in d.prefix && '-' !in d.field && '-' !in d.oldValue && '-' !in d.newValue
  {
    LiteralsDashFree();
  }

  function KeyOf(code: TxnType -> string, rule: Rule): string {
    CompileActionId(DefOf(code, rule))
  }

  function Keys(code: TxnType -> string, rules: seq<Rule>): seq<string> {
    seq(|rules|, i requires 0 <= i < |rules| => KeyOf(code, rules[i]))
  }

  ghost predicate SameRules(a: seq<Rule>, b: seq<Rule>) {
    forall r :: r in a <==> r in b
  }

  ghost predicate AllProper(rules: seq<Rule>) {
    forall r :: r in rules ==> Proper(r)
  }

  lemma LedgerRulesProper()
    ensures AllProper(LedgerRules())
  {
  }

  lemma RichSchemaRulesProper()
    ensures AllProper(RichSchemaRules())
  {
  }

  lemma PoolRulesProper()
    ensures AllProper(PoolRules())
  {
  }

  lemma DefaultRulesProper()
    ensures AllProper(DefaultRules())
  {
    LedgerRulesProper();
    RichSchemaRulesProper();
    PoolRulesProper();
    assert AllProper(NymRules() + LedgerRules() + RichSchemaRules());
    assert AllProper(NodeRules() + PoolRules());
    assert AllProper(EditRoles());
  }

  /** At most one key of the table accepts the action. */
  ghost predicate OneMatch(id: string, keys: seq<string>)
    requires SplitActionId(id).Some? && AllSplit(keys)
  {
    forall i, j :: 0 <= i < |keys| && 0 <= j < |keys| && AcceptsId(keys[i], id) && AcceptsId(keys[j], id) ==>
      keys[i] == keys[j]
  }

  /** First match is the only match, so it does not depend on the order. */
  lemma FirstMatchIsOnlyMatch(id: string, a: seq<string>, b: seq<string>)
    requires SplitActionId(id).Some? && AllSplit(a) && AllSplit(b) && OneMatch(id, a)
    requires forall k :: k in a <==> k in b
    ensures FirstMatch(id, a) == FirstMatch(id, b)
  {
  }

  lemma KeysAllSplit(code: TxnType -> string, rules: seq<Rule>)
    requires GoodCodes(code)
    ensures AllSplit(Keys(code, rules))
    ensures forall i :: 0 <= i < |rules| ==> SplitActionId(Keys(code, rules)[i]) == Some(DefOf(code, rules[i]))
  {
    forall i | 0 <= i < |rules| ensures SplitActionId(Keys(code, rules)[i]) == Some(DefOf(code, rules[i])) {
      KeysSplitBack(code, rules[i]);
    }
  }

  /** No two keys of a proper table accept the same action. */
  lemma ProperTableHasOneMatch(code: TxnType -> string, id: string, rules: seq<Rule>)
    requires GoodCodes(code) && SplitActionId(id).Some? && AllProper(rules)
    ensures AllSplit(Keys(code, rules)) && OneMatch(id, Keys(code, rules))
  {
    var keys := Keys(code, rules);
    KeysAllSplit(code, rules);
    forall i, j | 0 <= i < |keys| && 0 <= j < |keys| && AcceptsId(keys[i], id) && AcceptsId(keys[j], id)
      ensures keys[i] == keys[j]
    {
      RulesAreDisjoint(code, rules[i], rules[j], SplitActionId(id).value);
    }
  }

  lemma SameKeys(code: TxnType -> string, a: seq<Rule>, b: seq<Rule>, k: string)
    requires SameRules(a, b) && k in Keys(code, a)
    ensures k in Keys(code, b)
  {
    var i :| 0 <= i < |a| && Keys(code, a)[i] == k;
    assert a[i] in b;
    var j :| 0 <= j < |b| && b[j] == a[i];
    assert Keys(code, b)[j] == k;
  }

  /** Lookup does not depend on the order of the table: for every action id, any table with the rules of
      `auth_map` in any order gives the same key, and no other key accepts the action. */
  lemma LookupIgnoresOrder(code: TxnType -> string, id: string, rules: seq<Rule>)
    requires GoodCodes(code) && SplitActionId(id).Some? && SameRules(rules, DefaultRules())
    ensures AllSplit(Keys(code, rules)) && AllSplit(Keys(code, DefaultRules()))
    ensures OneMatch(id, Keys(code, rules))
    ensures FirstMatch(id, Keys(code, rules)) == FirstMatch(id, Keys(code, DefaultRules()))
  {
    DefaultRulesProper();
    ProperTableHasOneMatch(code, id, rules);
    KeysAllSplit(code, DefaultRules());
    forall k ensures k in Keys(code, rules) <==> k in Keys(code, DefaultRules()) {
      if k in Keys(code, rules) {
        SameKeys(code, rules, DefaultRules(), k);
      }
      if k in Keys(code, DefaultRules()) {
        SameKeys(code, DefaultRules(), rules, k);
      }
    }
    FirstMatchIsOnlyMatch(id, Keys(code, rules), Keys(code, DefaultRules()));
  }

  /** A rule of the table is found for every action its key accepts. */
  lemma LookupFinds(code: TxnType -> string, id: string, rules: seq<Rule>, rule: Rule)
    requires GoodCodes(code) && SplitActionId(id).Some? && SameRules(rules, DefaultRules()) && rule in rules
    requires Accepts(DefOf(code, rule), SplitActionId(id).value)
    ensures AllSplit(Keys(code, rules)) && FirstMatch(id, Keys(code, rules)) == Some(KeyOf(code, rule))
  {
    LookupIgnoresOrder(code, id, rules);
    KeysAllSplit(code, rules);
    var keys := Keys(code, rules);
    var j :| 0 <= j < |rules| && rules[j] == rule;
    assert AcceptsId(keys[j], id);
    var m := FirstMatch(id, keys);
    var i :| 0 <= i < |keys| && keys[i] == m.value;
  }

  // ----- what an action finds -----

  function ValuesOf(act: ActionDef): string { Join([act.field, act.oldValue, act.newValue], RULE_DELIMITER) }

  /** The field and the two values of the action, joined, are three parts again. */
  predicate ThreeParts(act: ActionDef) { |Split(ValuesOf(act), RULE_DELIMITER)| == 3 }

  /** A part without a dash is split off as it is. */
  lemma SplitOff(p: string, rest: string)
    requires '-' !in p
    ensures Split(p + RULE_DELIMITER + rest, RULE_DELIMITER) == [p] + Split(rest, RULE_DELIMITER)
  {
    NoDash(p);
    SafeBeforeDelimiter(p);
    SplitFirst(p, RULE_DELIMITER, rest);
  }

  lemma JoinMore(p: string, rest: seq<string>)
    requires rest != []
    ensures Join([p] + rest, RULE_DELIMITER) == p + RULE_DELIMITER + Join(rest, RULE_DELIMITER)
  {
    assert ([p] + rest)[1..] == rest;
  }

  /** Splitting the id of an action gives its type and prefix, and then whatever its values split into. */
  lemma SplitOfAction(act: ActionDef)
    requires '-' !in act.txnType && '-' !in act.prefix
    ensures Split(CompileActionId(act), RULE_DELIMITER)
         == [act.txnType] + ([act.prefix] + Split(ValuesOf(act), RULE_DELIMITER))
  {
    var values := [act.field, act.oldValue, act.newValue];
    assert PartsOf(act) == [act.txnType] + ([act.prefix] + values);
    JoinMore(act.txnType, [act.prefix] + values);
    JoinMore(act.prefix, values);
    SplitOff(act.txnType, act.prefix + RULE_DELIMITER + ValuesOf(act));
    SplitOff(act.prefix, ValuesOf(act));
  }

  lemma PrefixesHaveNoDash()
    ensures '-' !in ADD && '-' !in EDIT
  {
  }

  /** An id can be compared exactly when the values are three parts; type and prefix are then read back. */
  lemma ComparableExactly(act: ActionDef)
    requires '-' !in act.txnType && '-' !in act.prefix
    ensures var d := SplitActionId(CompileActionId(act));
      && (d.Some? <==> ThreeParts(act))
      && (d.Some? ==> d.value.txnType == act.txnType && d.value.prefix == act.prefix)
  {
    SplitOfAction(act);
  }

  /** An id that cannot be compared ends the lookup in any table with an error. */
  lemma IncomparableRaises(id: string, keys: seq<string>)
    requires SplitActionId(id).None? && keys != []
    ensures LookedUp(id, keys) == Raised
  {
  }

  /** For every action id at all, the lookup ends the same way under any order of the table. */
  lemma LookupEndsTheSame(code: TxnType -> string, id: string, rules: seq<Rule>)
    requires GoodCodes(code) && SameRules(rules, DefaultRules())
    ensures LookedUp(id, Keys(code, rules)) == LookedUp(id, Keys(code, DefaultRules()))
  {
    if SplitActionId(id).Some? {
      LookupIgnoresOrder(code, id, rules);
      LookedUpIsFirstMatch(id, Keys(code, rules));
      LookedUpIsFirstMatch(id, Keys(code, DefaultRules()));
    } else {
      assert RotateKey in DefaultRules() by {
        assert DefaultRules()[5] == RotateKey;
      }
      IncomparableRaises(id, Keys(code, rules));
      IncomparableRaises(id, Keys(code, DefaultRules()));
    }
  }

  predicate IsAnyRule(rule: Rule) { rule.AddAny? || rule.EditAny? }

  /** What any action of a type with an any-field rule ends with, whatever its field and values: that rule, exactly when
      the values are three parts, and an error otherwise. */
  lemma AnyRuleFoundExactly(code: TxnType -> string, rules: seq<Rule>, rule: Rule, act: ActionDef)
    requires GoodCodes(code) && SameRules(rules, DefaultRules()) && rule in rules && IsAnyRule(rule)
    requires act.txnType == code(rule.txn) && act.prefix == if rule.AddAny? then ADD else EDIT
    ensures LookedUp(CompileActionId(act), Keys(code, rules))
         == if ThreeParts(act) then Found(KeyOf(code, rule)) else Raised
  {
    var id, keys := CompileActionId(act), Keys(code, rules);
    PrefixesHaveNoDash();
    ComparableExactly(act);
    if ThreeParts(act) {
      LookupFinds(code, id, rules, rule);
      LookedUpIsFirstMatch(id, keys);
    } else {
      IncomparableRaises(id, keys);
    }
  }

  /** So it is for every edit. */
  lemma EveryEditFindsItsRule(code: TxnType -> string, rules: seq<Rule>, t: TxnType, act: ActionDef)
    requires GoodCodes(code) && SameRules(rules, DefaultRules()) && EditAny(t) in rules
    requires act.txnType == code(t) && act.prefix == EDIT
    ensures LookedUp(CompileActionId(act), Keys(code, rules))
         == if ThreeParts(act) then Found(KeyOf(code, EditAny(t))) else Raised
  {
    AnyRuleFoundExactly(code, rules, EditAny(t), act);
  }

  /** Actions that split back are among them. */
  lemma SplitBackIsThreeParts(act: ActionDef)
    requires SplitsBack(act)
    ensures ThreeParts(act)
  {
    var parts, values := PartsOf(act), [act.field, act.oldValue, act.newValue];
    SplittableParts(act);
    assert forall i :: 0 <= i < 3 ==> values[i] == parts[i + 2];
    SplitJoin(values, RULE_DELIMITER);
  }

  lemma OnePartExactly(s: string)
    ensures |Split(s, RULE_DELIMITER)| == 1 <==> !Contains(s, RULE_DELIMITER)
  {
  }

  /** An added value, of a field without a dash: its text must not hold the delimiter. */
  lemma AddedValueExactly(txnType: string, field: string, value: string)
    requires '-' !in field
    ensures ThreeParts(ActionDef(txnType, ADD, field, "*", value)) <==> !Contains(value, RULE_DELIMITER)
  {
    var star := "*";
    assert '-' !in star;
    assert [field, star, value] == [field] + ([star] + [value]);
    JoinMore(field, [star] + [value]);
    JoinMore(star, [value]);
    SplitOff(field, star + RULE_DELIMITER + value);
    SplitOff(star, value);
    OnePartExactly(value);
  }

  /** What adding a value ends with, for a type with an any-field rule and a field without a dash, such as `raw`: its
      rule exactly when the text of the value does not hold the delimiter. */
  lemma EveryAddFindsItsRule(code: TxnType -> string, rules: seq<Rule>, t: TxnType, field: string, value: string)
    requires GoodCodes(code) && SameRules(rules, DefaultRules()) && AddAny(t) in rules && '-' !in field
    ensures LookedUp(CompileActionId(ActionDef(code(t), ADD, field, "*", value)), Keys(code, rules))
         == if Contains(value, RULE_DELIMITER) then Raised else Found(KeyOf(code, AddAny(t)))
  {
    AnyRuleFoundExactly(code, rules, AddAny(t), ActionDef(code(t), ADD, field, "*", value));
    AddedValueExactly(code(t), field, value);
  }

  /** An attribute whose text holds two dashes finds no rule, though its rule allows any value. */
  lemma DashedAttributeRaises(code: TxnType -> string, before: string, after: string)
    requires GoodCodes(code)
    ensures LookedUp(CompileActionId(ActionDef(code(ATTRIB), ADD, "raw", "*", before + "--" + after)),
                     Keys(code, DefaultRules())) == Raised
  {
    var value, raw := before + "--" + after, "raw";
    assert value[|before|..|before| + 2] == "--";
    assert OccursAt(value, RULE_DELIMITER, |before|);
    assert AddAny(ATTRIB) in DefaultRules() by {
      assert DefaultRules()[10] == AddAny(ATTRIB);
    }
    assert '-' !in raw;
    EveryAddFindsItsRule(code, DefaultRules(), ATTRIB, raw, value);
  }

  /** The two values of the action, joined, are two parts again. */
  predicate TwoParts(act: ActionDef) {
    |Split(Join([act.oldValue, act.newValue], RULE_DELIMITER), RULE_DELIMITER)| == 2
  }

  lemma FieldThenValues(act: ActionDef)
    requires '-' !in act.field
    ensures ThreeParts(act) <==> TwoParts(act)
    ensures Split(ValuesOf(act), RULE_DELIMITER)
         == [act.field] + Split(Join([act.oldValue, act.newValue], RULE_DELIMITER), RULE_DELIMITER)
  {
    assert [act.field, act.oldValue, act.newValue] == [act.field] + [act.oldValue, act.newValue];
    JoinMore(act.field, [act.oldValue, act.newValue]);
    SplitOff(act.field, Join([act.oldValue, act.newValue], RULE_DELIMITER));
  }
}
