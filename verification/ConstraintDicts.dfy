/** Constraint creation on mutable dictionaries: keys are popped and lists replaced while the tree is built. */
module ConstraintDicts {
  import opened Common
  import opened AuthConstraints

  /** A value on the Python heap; dictionaries are references. */
  datatype Obj =
    | ONone
    | OStr(s: string)
    | OInt(i: int)
    | OBool(b: bool)
    | OList(items: seq<Obj>)
    | ODict(ref: Dict)
    | OConstraints(parts: seq<Constraint>)

  class Dict {
    var items: map<string, Obj>

    constructor (items: map<string, Obj>)
      ensures this.items == items
    {
      this.items := items;
    }
  }

  /** The heap value `o` holds the deserialized value `v`; its dictionaries lie in `frame`. */
  ghost predicate Holds(o: Obj, v: Val, frame: set<Dict>)
    reads frame
    decreases v
  {
    match v
    case VNone => o.ONone?
    case VStr(s) => o == OStr(s)
    case VInt(i) => o == OInt(i)
    case VBool(b) => o == OBool(b)
    case VList(items) =>
      o.OList? && |o.items| == |items| && forall i :: 0 <= i < |items| ==> Holds(o.items[i], items[i], frame)
    case VDict(d) =>
      && o.ODict? && o.ref in frame && o.ref.items.Keys == d.Keys
      && forall k :: k in d ==> Holds(o.ref.items[k], d[k], frame)
  }

  /** What a dictionary without its `constraint_id` holds. */
  ghost predicate HoldsItems(items: map<string, Obj>, d: map<string, Val>, frame: set<Dict>)
    reads frame
  {
    items.Keys == d.Keys && forall k :: k in d ==> Holds(items[k], d[k], frame)
  }

  /** Reads a nested metadata dictionary as a value. */
  method ReadValue(o: Obj, ghost v: Val, ghost frame: set<Dict>) returns (r: Val)
    requires Holds(o, v, frame)
    ensures r == v
    decreases v
  {
    match o
    case ONone => r := VNone;
    case OStr(s) => r := VStr(s);
    case OInt(i) => r := VInt(i);
    case OBool(b) => r := VBool(b);
    case OList(items) =>
      var vals := [];
      for i := 0 to |items|
        invariant |vals| == i && vals == v.items[..i]
      {
        var x := ReadValue(items[i], v.items[i], frame);
        vals := vals + [x];
      }
      r := VList(vals);
    case ODict(ref) =>
      var keys, m := ref.items.Keys, map[];
      while keys != {}
        invariant keys <= ref.items.Keys && m.Keys == ref.items.Keys - keys
        invariant forall k :: k in m ==> m[k] == v.d[k]
        decreases |keys|
      {
        var k :| k in keys;
        var x := ReadValue(ref.items[k], v.d[k], frame);
        m := m[k := x];
        keys := keys - {k};
      }
      assert m == v.d;
      r := VDict(m);
  }

  /** `AuthConstraint.from_dict`. */
  method RoleFromItems(items: map<string, Obj>, ghost d: map<string, Val>, ghost frame: set<Dict>)
    returns (r: Result<Constraint, Failure>)
    requires HoldsItems(items, d, frame)
    ensures r == RoleFromDict(d)
  {
    if ROLE !in items || SIG_COUNT !in items {
      return Err(KeyError);
    }
    if !(items[ROLE].ONone? || items[ROLE].OStr?) || !items[SIG_COUNT].OInt? {
      return Err(TypeError);
    }
    var role := if items[ROLE].ONone? then None else Some(items[ROLE].s);
    var owner := false;
    if NEED_TO_BE_OWNER in items {
      if !items[NEED_TO_BE_OWNER].OBool? {
        return Err(TypeError);
      }
      owner := items[NEED_TO_BE_OWNER].b;
    }
    var metadata := map[];
    if METADATA in items {
      if !items[METADATA].ODict? {
        return Err(TypeError);
      }
      var m := ReadValue(items[METADATA], d[METADATA], frame);
      metadata := m.d;
    }
    var off := None;
    if OFF_LEDGER_SIGNATURE in items {
      if !(items[OFF_LEDGER_SIGNATURE].OBool? || items[OFF_LEDGER_SIGNATURE].ONone?) {
        return Err(TypeError);
      }
      off := if items[OFF_LEDGER_SIGNATURE].OBool? then Some(items[OFF_LEDGER_SIGNATURE].b) else None;
    }
    if !RoleValid(role, off) {
      return Err(ValueError);
    }
    return Ok(RoleConstraint(role, items[SIG_COUNT].i, owner, off, metadata));
  }

  /** `ConstraintCreator.create_constraint` and the nested `from_dict` calls.  The input is copied, the copy
      is what loses its `constraint_id` and has its list replaced; every dictionary that existed before
      the call is left as it was, so the input still holds the same value. */
  method Create(input: Obj, ghost v: Val, ghost frame: set<Dict>) returns (r: Result<Constraint, Failure>)
    requires Holds(input, v, frame)
    ensures r == CreateConstraint(v)
    ensures Holds(input, v, frame)
    decreases v, 1
  {
    if !input.ODict? {
      return Err(TypeError);
    }
    var copy := new Dict(input.ref.items);
    if CONSTRAINT_ID !in copy.items {
      return Err(KeyError);
    }
    var id := copy.items[CONSTRAINT_ID];
    copy.items := copy.items - {CONSTRAINT_ID};
    if id.ONone? {
      return Err(KeyError);
    }
    ghost var rest := v.d - {CONSTRAINT_ID};
    assert HoldsItems(copy.items, rest, frame);
    if id == OStr("ROLE") {
      r := RoleFromItems(copy.items, rest, frame);
    } else if id == OStr("FORBIDDEN") {
      r := Ok(Forbidden);
    } else if id == OStr("AND") || id == OStr("OR") {
      r := GroupFromDict(copy, id == OStr("AND"), v, frame);
    } else {
      r := Err(TypeError);
    }
  }

  /** `AuthConstraintAnd.from_dict` and `AuthConstraintOr.from_dict`: the list in the given dictionary is
      replaced by the constraints built from it, and the dictionary is passed on as keyword arguments. */
  method GroupFromDict(copy: Dict, isAnd: bool, ghost v: Val, ghost frame: set<Dict>)
    returns (r: Result<Constraint, Failure>)
    requires v.VDict? && copy !in frame && HoldsItems(copy.items, v.d - {CONSTRAINT_ID}, frame)
    requires CONSTRAINT_ID in v.d && v.d[CONSTRAINT_ID] == VStr(if isAnd then "AND" else "OR")
    modifies copy
    ensures r == CreateConstraint(v)
    decreases v, 0
  {
    if AUTH_CONSTRAINTS !in copy.items {
      return Err(KeyError);
    }
    if !copy.items[AUTH_CONSTRAINTS].OList? {
      return Err(TypeError);
    }
    var parts := CreateParts(copy.items[AUTH_CONSTRAINTS].items, v.d[AUTH_CONSTRAINTS].items, frame);
    if parts.Err? {
      return Err(parts.error);
    }
    copy.items := copy.items[AUTH_CONSTRAINTS := OConstraints(parts.value)];
    if copy.items.Keys != {AUTH_CONSTRAINTS} {
      return Err(TypeError);
    }
    var built := copy.items[AUTH_CONSTRAINTS].parts;
    return Ok(if isAnd then AndConstraint(built) else OrConstraint(built));
  }

  method CreateParts(items: seq<Obj>, ghost vals: seq<Val>, ghost frame: set<Dict>)
    returns (r: Result<seq<Constraint>, Failure>)
    requires |items| == |vals| && forall i :: 0 <= i < |items| ==> Holds(items[i], vals[i], frame)
    ensures r == CreateAll(vals)
    ensures forall i :: 0 <= i < |items| ==> Holds(items[i], vals[i], frame)
    decreases vals, 0
  {
    var parts := [];
    for i := 0 to |items|
      invariant CreateAll(vals[..i]) == Ok(parts)
      invariant forall j :: 0 <= j < |items| ==> Holds(items[j], vals[j], frame)
    {
      assert vals[..i + 1][..i] == vals[..i];
      var part := Create(items[i], vals[i], frame);
      if part.Err? {
        FailureSticks(vals, i + 1);
        return Err(part.error);
      }
      parts := parts + [part.value];
    }
    assert vals[..|items|] == vals;
    return Ok(parts);
  }

  lemma {:induction false} FailureSticks(vals: seq<Val>, n: nat)
    requires n <= |vals| && CreateAll(vals[..n]).Err?
    ensures CreateAll(vals) == CreateAll(vals[..n])
    decreases |vals| - n
  {
    if n < |vals| {
      assert vals[..n + 1][..n] == vals[..n];
      FailureSticks(vals, n + 1);
    } else {
      assert vals[..n] == vals;
    }
  }
}
