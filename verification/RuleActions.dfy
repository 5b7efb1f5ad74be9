/** The rules found for the actions of the request handlers, on written-out action ids. */
module RuleActions {
  import opened Common
  import opened Text
  import opened AuthRules

  /** An action id as text. */
  function Written(txnType: string, prefix: string, field: string, was: string, now: string): string {
    txnType + "--" + (prefix + "--" + (field + "--" + (was + "--" + now)))
  }

  lemma WrittenIsCompiled(d: ActionDef)
    ensures CompileActionId(d) == Written(d.txnType, d.prefix, d.field, d.oldValue, d.newValue)
  {
    var values := [d.oldValue] + [d.newValue];
    JoinMore(d.txnType, [d.prefix] + ([d.field] + values));
    JoinMore(d.prefix, [d.field] + values);
    JoinMore(d.field, values);
    JoinMore(d.oldValue, [d.newValue]);
    assert PartsOf(d) == [d.txnType] + ([d.prefix] + ([d.field] + values));
  }

  /** Every rule of the table is found for the action that its key spells out. */
  lemma OwnActionFound(code: TxnType -> string, rules: seq<Rule>, rule: Rule, d: ActionDef)
    requires GoodCodes(code) && SameRules(rules, DefaultRules()) && rule in DefaultRules() && DefOf(code, rule) == d
    ensures LookedUp(Written(d.txnType, d.prefix, d.field, d.oldValue, d.newValue), Keys(code, rules))
         == Found(KeyOf(code, rule))
  {
    KeysSplitBack(code, rule);
    LookupFinds(code, KeyOf(code, rule), rules, rule);
    LookedUpIsFirstMatch(KeyOf(code, rule), Keys(code, rules));
    WrittenIsCompiled(d);
  }

  // ----- the rules of the table -----

  function RoleIndex(r: RoleName): nat {
    match r case Trustee => 0 case Steward => 1 case Endorser => 2 case NetworkMonitor => 3 case IdentityOwner => 4
  }

  lemma NymTableHolds(r: RoleName)
    ensures AddRole(r) in NymRules() && RotateKey in NymRules()
  {
    assert NymRules()[RoleIndex(r)] == AddRole(r) && NymRules()[5] == RotateKey;
  }

  lemma EditTableHolds(from: RoleName, to: RoleName)
    ensures EditRole(from, to) in EditRoles()
  {
    var i, j := RoleIndex(from), RoleIndex(to);
    assert (5 * i + j) / 5 == i && (5 * i + j) % 5 == j;
    assert EditRoles()[5 * i + j] == EditRole(from, to);
  }

  lemma NodeTableHolds(rule: Rule)
    requires rule.AddNode? || rule.SwitchNode? || rule.EditNode?
    ensures rule in NodeRules()
  {
    var i := match rule
      case AddNode(active) => if active then 0 else 1
      case SwitchNode(active) => if active then 3 else 2
      case EditNode(f) =>
        (match f case NodeIp => 4 case NodePort => 5 case ClientIp => 6 case ClientPort => 7 case BlsKey => 8)
      case _ => 0;
    assert NodeRules()[i] == rule;
  }

  lemma PoolTableHolds(rule: Rule)
    requires rule in {StartUpgrade, CancelUpgrade, RestartPool, ConfigPool}
    ensures rule in PoolRules()
  {
    var i := match rule case StartUpgrade => 0 case CancelUpgrade => 1 case RestartPool => 2 case _ => 3;
    assert PoolRules()[i] == rule;
  }

  lemma LedgerTable(t: TxnType)
    ensures AddAny(t) in LedgerRules() <==>
      t in {TXN_AUTHOR_AGREEMENT, TXN_AUTHOR_AGREEMENT_DISABLE, TXN_AUTHOR_AGREEMENT_AML, ATTRIB, SCHEMA}
    ensures EditAny(t) in LedgerRules() <==> t in {TXN_AUTHOR_AGREEMENT, ATTRIB, SCHEMA}
  {
    var rules := LedgerRules();
    assert rules[0] == AddAny(TXN_AUTHOR_AGREEMENT) && rules[1] == EditAny(TXN_AUTHOR_AGREEMENT);
    assert rules[2] == AddAny(TXN_AUTHOR_AGREEMENT_DISABLE) && rules[3] == AddAny(TXN_AUTHOR_AGREEMENT_AML);
    assert rules[4] == AddAny(ATTRIB) && rules[5] == EditAny(ATTRIB);
    assert rules[6] == AddAny(SCHEMA) && rules[7] == EditAny(SCHEMA);
  }

  predicate IsRich(t: TxnType) {
    t in {JSON_LD_CONTEXT, RICH_SCHEMA, RICH_SCHEMA_ENCODING, RICH_SCHEMA_MAPPING, RICH_SCHEMA_CRED_DEF,
          RICH_SCHEMA_PRES_DEF, CLAIM_DEF}
  }

  lemma RichSchemaAdds(t: TxnType)
    ensures AddAny(t) in RichSchemaRules() <==> IsRich(t)
  {
    var rules := RichSchemaRules();
    assert rules[0] == AddAny(JSON_LD_CONTEXT) && rules[2] == AddAny(RICH_SCHEMA);
    assert rules[4] == AddAny(RICH_SCHEMA_ENCODING) && rules[6] == AddAny(RICH_SCHEMA_MAPPING);
    assert rules[8] == AddAny(RICH_SCHEMA_CRED_DEF) && rules[10] == AddAny(RICH_SCHEMA_PRES_DEF);
    assert rules[12] == AddAny(CLAIM_DEF);
  }

  lemma RichSchemaEdits(t: TxnType)
    ensures EditAny(t) in RichSchemaRules() <==> IsRich(t)
  {
    var rules := RichSchemaRules();
    assert rules[1] == EditAny(JSON_LD_CONTEXT) && rules[3] == EditAny(RICH_SCHEMA);
    assert rules[5] == EditAny(RICH_SCHEMA_ENCODING) && rules[7] == EditAny(RICH_SCHEMA_MAPPING);
    assert rules[9] == EditAny(RICH_SCHEMA_CRED_DEF) && rules[11] == EditAny(RICH_SCHEMA_PRES_DEF);
    assert rules[13] == EditAny(CLAIM_DEF);
  }

  lemma PoolTable(t: TxnType)
    ensures AddAny(t) in PoolRules() <==> t in {VALIDATOR_INFO, REVOC_REG_DEF, REVOC_REG_ENTRY}
    ensures EditAny(t) in PoolRules() <==> t in {AUTH_RULE, AUTH_RULES, REVOC_REG_DEF, REVOC_REG_ENTRY, LEDGERS_FREEZE}
  {
    var rules := PoolRules();
    assert rules[4] == EditAny(AUTH_RULE) && rules[5] == EditAny(AUTH_RULES) && rules[6] == AddAny(VALIDATOR_INFO);
    assert rules[7] == AddAny(REVOC_REG_DEF) && rules[8] == AddAny(REVOC_REG_ENTRY);
    assert rules[9] == EditAny(REVOC_REG_DEF) && rules[10] == EditAny(REVOC_REG_ENTRY);
    assert rules[11] == EditAny(LEDGERS_FREEZE);
  }

  lemma OtherTablesHaveNoAnyRules(t: TxnType)
    ensures AddAny(t) !in NymRules() && EditAny(t) !in NymRules()
    ensures AddAny(t) !in NodeRules() && EditAny(t) !in NodeRules()
    ensures AddAny(t) !in EditRoles() && EditAny(t) !in EditRoles()
  {
  }

  /** The transaction types that have an any-field rule for adding, and for editing. */
  lemma AnyRulesOfTable(t: TxnType)
    ensures AddAny(t) in DefaultRules() <==>
      t in {TXN_AUTHOR_AGREEMENT, TXN_AUTHOR_AGREEMENT_DISABLE, TXN_AUTHOR_AGREEMENT_AML, ATTRIB, SCHEMA,
            JSON_LD_CONTEXT, RICH_SCHEMA, RICH_SCHEMA_ENCODING, RICH_SCHEMA_MAPPING, RICH_SCHEMA_CRED_DEF,
            RICH_SCHEMA_PRES_DEF, CLAIM_DEF, VALIDATOR_INFO, REVOC_REG_DEF, REVOC_REG_ENTRY}
    ensures EditAny(t) in DefaultRules() <==>
      t in {TXN_AUTHOR_AGREEMENT, ATTRIB, SCHEMA, JSON_LD_CONTEXT, RICH_SCHEMA, RICH_SCHEMA_ENCODING,
            RICH_SCHEMA_MAPPING, RICH_SCHEMA_CRED_DEF, RICH_SCHEMA_PRES_DEF, CLAIM_DEF, AUTH_RULE, AUTH_RULES,
            REVOC_REG_DEF, REVOC_REG_ENTRY, LEDGERS_FREEZE}
  {
    LedgerTable(t);
    RichSchemaAdds(t);
    RichSchemaEdits(t);
    PoolTable(t);
    OtherTablesHaveNoAnyRules(t);
    InTables(AddAny(t));
    InTables(EditAny(t));
  }

  lemma InTables(rule: Rule)
    ensures rule in DefaultRules() <==>
      || rule in NymRules() || rule in LedgerRules() || rule in RichSchemaRules() || rule in NodeRules()
      || rule in PoolRules() || rule in EditRoles()
  {
  }

  // ----- roles, services and upgrades -----

  /** Adding a DID with a role, none being written as nothing, finds the rule for adding that role. */
  lemma AddedRoleFindsItsRule(code: TxnType -> string, rules: seq<Rule>, r: RoleName)
    requires GoodCodes(code) && SameRules(rules, DefaultRules())
    ensures var role := match r case Trustee => "0" case Steward => "2" case Endorser => "101"
                        case NetworkMonitor => "201" case IdentityOwner => "";
      LookedUp(Written(code(NYM), "ADD", "role", "*", role), Keys(code, rules)) == Found(KeyOf(code, AddRole(r)))
  {
    NymTableHolds(r);
    OwnActionFound(code, rules, AddRole(r), ActionDef(code(NYM), "ADD", "role", "*", RoleCode(r)));
  }

  /** Changing any role into any role finds the rule for that change. */
  lemma EditedRoleFindsItsRule(code: TxnType -> string, rules: seq<Rule>, from: RoleName, to: RoleName)
    requires GoodCodes(code) && SameRules(rules, DefaultRules())
    ensures LookedUp(Written(code(NYM), "EDIT", "role", RoleCode(from), RoleCode(to)), Keys(code, rules))
         == Found(KeyOf(code, EditRole(from, to)))
  {
    EditTableHolds(from, to);
    OwnActionFound(code, rules, EditRole(from, to), ActionDef(code(NYM), "EDIT", "role", RoleCode(from), RoleCode(to)));
  }

  /** Adding a node with or without services finds the rule for that. */
  lemma AddedNodeFindsItsRule(code: TxnType -> string, rules: seq<Rule>, active: bool)
    requires GoodCodes(code) && SameRules(rules, DefaultRules())
    ensures var now := if active then "['VALIDATOR']" else "[]";
      LookedUp(Written(code(NODE), "ADD", "services", "*", now), Keys(code, rules))
      == Found(KeyOf(code, AddNode(active)))
  {
    NodeTableHolds(AddNode(active));
    OwnActionFound(code, rules, AddNode(active), ActionDef(code(NODE), "ADD", "services", "*", Services(active)));
  }

  /** Switching the services of a node on finds the rule for that. */
  lemma NodeSwitchedOnFindsItsRule(code: TxnType -> string, rules: seq<Rule>)
    requires GoodCodes(code) && SameRules(rules, DefaultRules())
    ensures LookedUp(Written(code(NODE), "EDIT", "services", "[]", "['VALIDATOR']"), Keys(code, rules))
         == Found(KeyOf(code, SwitchNode(true)))
  {
    NodeTableHolds(SwitchNode(true));
    OwnActionFound(code, rules, SwitchNode(true), ActionDef(code(NODE), "EDIT", "services", "[]", "['VALIDATOR']"));
  }

  /** Switching them off finds the rule for that. */
  lemma NodeSwitchedOffFindsItsRule(code: TxnType -> string, rules: seq<Rule>)
    requires GoodCodes(code) && SameRules(rules, DefaultRules())
    ensures LookedUp(Written(code(NODE), "EDIT", "services", "['VALIDATOR']", "[]"), Keys(code, rules))
         == Found(KeyOf(code, SwitchNode(false)))
  {
    NodeTableHolds(SwitchNode(false));
    OwnActionFound(code, rules, SwitchNode(false), ActionDef(code(NODE), "EDIT", "services", "['VALIDATOR']", "[]"));
  }

  /** Starting an upgrade finds its rule. */
  lemma UpgradeStartFindsItsRule(code: TxnType -> string, rules: seq<Rule>)
    requires GoodCodes(code) && SameRules(rules, DefaultRules())
    ensures LookedUp(Written(code(POOL_UPGRADE), "ADD", "action", "*", "start"), Keys(code, rules))
         == Found(KeyOf(code, StartUpgrade))
  {
    PoolTableHolds(StartUpgrade);
    OwnActionFound(code, rules, StartUpgrade, ActionDef(code(POOL_UPGRADE), "ADD", "action", "*", "start"));
  }

  /** Cancelling an upgrade that was started finds its rule. */
  lemma UpgradeCancelFindsItsRule(code: TxnType -> string, rules: seq<Rule>)
    requires GoodCodes(code) && SameRules(rules, DefaultRules())
    ensures LookedUp(Written(code(POOL_UPGRADE), "EDIT", "action", "start", "cancel"), Keys(code, rules))
         == Found(KeyOf(code, CancelUpgrade))
  {
    PoolTableHolds(CancelUpgrade);
    OwnActionFound(code, rules, CancelUpgrade, ActionDef(code(POOL_UPGRADE), "EDIT", "action", "start", "cancel"));
  }

  // ----- any change of a field -----

  lemma FieldActionAccepted(d: ActionDef, act: ActionDef)
    requires '-' !in act.txnType && '-' !in act.prefix && '-' !in act.field && TwoParts(act)
    requires d == ActionDef(act.txnType, act.prefix, act.field, "*", "*")
    ensures SplitActionId(CompileActionId(act)).Some? && Accepts(d, SplitActionId(CompileActionId(act)).value)
  {
    FieldThenValues(act);
    ComparableExactly(act);
    SplitOfAction(act);
  }

  lemma FieldActionRaises(act: ActionDef, keys: seq<string>)
    requires '-' !in act.txnType && '-' !in act.prefix && '-' !in act.field && !TwoParts(act) && keys != []
    ensures LookedUp(CompileActionId(act), keys) == Raised
  {
    FieldThenValues(act);
    ComparableExactly(act);
    IncomparableRaises(CompileActionId(act), keys);
  }

  /** Any change of a field whose rule allows any values finds it exactly when old and new value are two parts. */
  lemma FieldRuleFoundExactly(code: TxnType -> string, rules: seq<Rule>, rule: Rule, act: ActionDef)
    requires GoodCodes(code) && SameRules(rules, DefaultRules()) && rule in DefaultRules()
    requires DefOf(code, rule) == ActionDef(act.txnType, act.prefix, act.field, "*", "*")
    ensures LookedUp(CompileActionId(act), Keys(code, rules))
         == if TwoParts(act) then Found(KeyOf(code, rule)) else Raised
  {
    DashFree(code, rule);
    if TwoParts(act) {
      FieldActionAccepted(DefOf(code, rule), act);
      LookupFinds(code, CompileActionId(act), rules, rule);
      LookedUpIsFirstMatch(CompileActionId(act), Keys(code, rules));
    } else {
      assert rule in rules;
      FieldActionRaises(act, Keys(code, rules));
    }
  }

  lemma TwoPartsText(act: ActionDef)
    ensures TwoParts(act) <==> |Split(act.oldValue + "--" + act.newValue, "--")| == 2
  {
    JoinMore(act.oldValue, [act.newValue]);
    assert [act.oldValue] + [act.newValue] == [act.oldValue, act.newValue];
  }

  /** The same on a written-out id. */
  lemma FieldIdFoundExactly(code: TxnType -> string, rules: seq<Rule>, rule: Rule, act: ActionDef)
    requires GoodCodes(code) && SameRules(rules, DefaultRules()) && rule in DefaultRules()
    requires DefOf(code, rule) == ActionDef(act.txnType, act.prefix, act.field, "*", "*")
    ensures LookedUp(Written(act.txnType, act.prefix, act.field, act.oldValue, act.newValue), Keys(code, rules))
         == if |Split(act.oldValue + "--" + act.newValue, "--")| == 2 then Found(KeyOf(code, rule)) else Raised
  {
    WrittenIsCompiled(act);
    TwoPartsText(act);
    FieldRuleFoundExactly(code, rules, rule, act);
  }

  /** Any change of a verification key finds its rule exactly when its old and new values are two parts. */
  lemma EveryKeyRotationFindsItsRule(code: TxnType -> string, rules: seq<Rule>, was: string, now: string)
    requires GoodCodes(code) && SameRules(rules, DefaultRules())
    ensures LookedUp(Written(code(NYM), "EDIT", "verkey", was, now), Keys(code, rules))
         == if |Split(was + "--" + now, "--")| == 2 then Found(KeyOf(code, RotateKey)) else Raised
  {
    NymTableHolds(Trustee);
    FieldIdFoundExactly(code, rules, RotateKey, ActionDef(code(NYM), "EDIT", "verkey", was, now));
  }

  /** Any change of an address, a port or the key of a node finds the rule for that field in the same way. */
  lemma NodeFieldFindsItsRule(code: TxnType -> string, rules: seq<Rule>, f: NodeField, was: string, now: string)
    requires GoodCodes(code) && SameRules(rules, DefaultRules())
    ensures var field := match f case NodeIp => "node_ip" case NodePort => "node_port" case ClientIp => "client_ip"
                         case ClientPort => "client_port" case BlsKey => "blskey";
      LookedUp(Written(code(NODE), "EDIT", field, was, now), Keys(code, rules))
      == if |Split(was + "--" + now, "--")| == 2 then Found(KeyOf(code, EditNode(f))) else Raised
  {
    NodeTableHolds(EditNode(f));
    FieldIdFoundExactly(code, rules, EditNode(f), ActionDef(code(NODE), "EDIT", FieldName(f), was, now));
  }

  /** So does restarting the pool. */
  lemma PoolRestartFindsItsRule(code: TxnType -> string, rules: seq<Rule>, was: string, now: string)
    requires GoodCodes(code) && SameRules(rules, DefaultRules())
    ensures LookedUp(Written(code(POOL_RESTART), "ADD", "action", was, now), Keys(code, rules))
         == if |Split(was + "--" + now, "--")| == 2 then Found(KeyOf(code, RestartPool)) else Raised
  {
    PoolTableHolds(RestartPool);
    FieldIdFoundExactly(code, rules, RestartPool, ActionDef(code(POOL_RESTART), "ADD", "action", was, now));
  }

  /** So does changing its configuration. */
  lemma PoolConfigFindsItsRule(code: TxnType -> string, rules: seq<Rule>, was: string, now: string)
    requires GoodCodes(code) && SameRules(rules, DefaultRules())
    ensures LookedUp(Written(code(POOL_CONFIG), "EDIT", "action", was, now), Keys(code, rules))
         == if |Split(was + "--" + now, "--")| == 2 then Found(KeyOf(code, ConfigPool)) else Raised
  {
    PoolTableHolds(ConfigPool);
    FieldIdFoundExactly(code, rules, ConfigPool, ActionDef(code(POOL_CONFIG), "EDIT", "action", was, now));
  }

  // ----- actions without a rule -----

  /** An action that no rule of the table accepts finds none. */
  lemma NoneAcceptsIsAbsent(code: TxnType -> string, rules: seq<Rule>, d: ActionDef)
    requires GoodCodes(code) && SplitActionId(CompileActionId(d)) == Some(d)
    requires forall rule :: rule in rules ==> !Accepts(DefOf(code, rule), d)
    ensures LookedUp(CompileActionId(d), Keys(code, rules)) == Absent
  {
    KeysAllSplit(code, rules);
    LookedUpIsFirstMatch(CompileActionId(d), Keys(code, rules));
    forall i | 0 <= i < |rules| ensures !AcceptsId(Keys(code, rules)[i], CompileActionId(d)) {
      assert rules[i] in rules;
    }
  }

  lemma DashFreeSplitsBack(d: ActionDef)
    requires '-' !in d.txnType && '-' !in d.prefix && '-' !in d.field && '-' !in d.oldValue && '-' !in d.newValue
    ensures SplitActionId(CompileActionId(d)) == Some(d)
  {
    forall i | 0 <= i < 5 ensures !Contains(PartsOf(d)[i], RULE_DELIMITER) && !EndsInDash(PartsOf(d)[i]) {
      NoDash(PartsOf(d)[i]);
    }
    SplitUndoesCompile(d);
  }

  /** Rules for adding a DID are those of the five roles. */
  lemma AddNymRules(code: TxnType -> string, rule: Rule, d: ActionDef)
    requires DistinctCodes(code) && Proper(rule) && Accepts(DefOf(code, rule), d)
    requires d.txnType == code(NYM) && d.prefix == "ADD"
    ensures rule.AddRole? && d.field == "role" && d.newValue == RoleCode(rule.role)
  {
    KindOfRule(code, rule);
    assert |"ADD"| == 3 && |EDIT| == 4;
    if rule.AddRole? {
      RoleCodesDiffer(rule.role, rule.role);
    }
  }

  /** A DID cannot be added with a role that is none of the five: no rule is found. */
  lemma UnknownRoleIsAbsent(code: TxnType -> string, rules: seq<Rule>, role: string)
    requires GoodCodes(code) && SameRules(rules, DefaultRules()) && '-' !in role
    requires role !in {"0", "2", "101", "201", ""}
    ensures LookedUp(Written(code(NYM), "ADD", "role", "*", role), Keys(code, rules)) == Absent
  {
    var d := ActionDef(code(NYM), "ADD", "role", "*", role);
    LiteralsDashFree();
    DashFreeSplitsBack(d);
    WrittenIsCompiled(d);
    DefaultRulesProper();
    forall rule | rule in rules ensures !Accepts(DefOf(code, rule), d) {
      if Accepts(DefOf(code, rule), d) {
        AddNymRules(code, rule, d);
      }
    }
    NoneAcceptsIsAbsent(code, rules, d);
  }

  lemma EditUpgradeRules(code: TxnType -> string, rule: Rule, d: ActionDef)
    requires DistinctCodes(code) && Proper(rule) && Accepts(DefOf(code, rule), d)
    requires d.txnType == code(POOL_UPGRADE) && d.prefix == "EDIT"
    ensures rule == CancelUpgrade && d.oldValue == "start" && d.newValue == "cancel"
  {
    KindOfRule(code, rule);
    assert |ADD| == 3 && |"EDIT"| == 4 && |"start"| == 5 && |"cancel"| == 6 && |"*"| == 1;
  }

  /** An upgrade can only be cancelled after it was started: from any other state no rule is found. */
  lemma CancelOfOtherIsAbsent(code: TxnType -> string, rules: seq<Rule>, was: string)
    requires GoodCodes(code) && SameRules(rules, DefaultRules()) && '-' !in was && was != "start"
    ensures LookedUp(Written(code(POOL_UPGRADE), "EDIT", "action", was, "cancel"), Keys(code, rules)) == Absent
  {
    var d := ActionDef(code(POOL_UPGRADE), "EDIT", "action", was, "cancel");
    LiteralsDashFree();
    DashFreeSplitsBack(d);
    WrittenIsCompiled(d);
    DefaultRulesProper();
    forall rule | rule in rules ensures !Accepts(DefOf(code, rule), d) {
      if Accepts(DefOf(code, rule), d) {
        EditUpgradeRules(code, rule, d);
      }
    }
    NoneAcceptsIsAbsent(code, rules, d);
  }

  lemma EditNymRules(code: TxnType -> string, rule: Rule, d: ActionDef)
    requires DistinctCodes(code) && Proper(rule) && Accepts(DefOf(code, rule), d)
    requires d.txnType == code(NYM) && d.prefix == "EDIT" && d.field == "role"
    ensures rule.EditRole? && d.oldValue == RoleCode(rule.from) && d.newValue == RoleCode(rule.to)
  {
    KindOfRule(code, rule);
    assert |ADD| == 3 && |"EDIT"| == 4 && |"role"| == 4 && |"verkey"| == 6;
    if rule.EditRole? {
      RoleCodesDiffer(rule.from, rule.to);
      RoleCodesDiffer(rule.to, rule.from);
    }
  }

  /** A role cannot be changed from or into one that is none of the five. */
  lemma UnknownRoleChangeIsAbsent(code: TxnType -> string, rules: seq<Rule>, was: string, now: string)
    requires GoodCodes(code) && SameRules(rules, DefaultRules()) && '-' !in was && '-' !in now
    requires was !in {"0", "2", "101", "201", ""} || now !in {"0", "2", "101", "201", ""}
    ensures LookedUp(Written(code(NYM), "EDIT", "role", was, now), Keys(code, rules)) == Absent
  {
    var d := ActionDef(code(NYM), "EDIT", "role", was, now);
    LiteralsDashFree();
    DashFreeSplitsBack(d);
    WrittenIsCompiled(d);
    DefaultRulesProper();
    forall rule | rule in rules ensures !Accepts(DefOf(code, rule), d) {
      if Accepts(DefOf(code, rule), d) {
        EditNymRules(code, rule, d);
      }
    }
    NoneAcceptsIsAbsent(code, rules, d);
  }
}
