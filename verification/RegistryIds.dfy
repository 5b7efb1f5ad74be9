/** The ledger migration that adds the credential definition tag to revocation registry ids. */
module RegistryIds {
  import opened Common
  import opened Text

  /** The fields of a registry definition that the migration touches. */
  datatype Definition =
    Definition(credDefId: Option<string>, revocType: Option<string>, tag: Option<string>, id: Option<string>)

  /** A registry entry points to its definition. */
  datatype Entry = Entry(revocRegDefId: Option<string>)

  datatype Failure = NotMigrated | IndexError

  const MARKER_CLAIM_DEF := "3"
  const MARKER_REVOC_DEF := "4"
  const DEFAULT_TAG := "tag"
  const SEP := ":"

  function ClaimDefPath(did: string, seqNo: string, sigType: string, tag: string): string {
    Join([did, MARKER_CLAIM_DEF, sigType, seqNo, tag], SEP)
  }

  function RevocDefPath(did: string, credDefId: string, revocType: string, tag: string): string {
    Join([did, MARKER_REVOC_DEF, credDefId, revocType, tag], SEP)
  }

  predicate Present(s: Option<string>) { s.Some? && s.value != "" }

  /** `add_tag_into_cred_def_id`. */
  function MigratedDefinition(d: Definition): Result<Definition, Failure> {
    if !Present(d.credDefId) then Err(NotMigrated)
    else
      var elems := Split(d.credDefId.value, SEP);
      if |elems| != 4 then Err(NotMigrated)
      else if !Present(d.revocType) || !Present(d.tag) then Err(NotMigrated)
      else
        var credDefId := ClaimDefPath(elems[0], elems[3], elems[2], DEFAULT_TAG);
        Ok(d.(credDefId := Some(credDefId),
              id := Some(RevocDefPath(elems[0], credDefId, d.revocType.value, d.tag.value))))
  }

  /** `add_cred_def_id_into_entry`; the slice from the third to the last two elements may be empty. */
  function MigratedEntry(e: Entry): Result<Entry, Failure> {
    if !Present(e.revocRegDefId) then Err(NotMigrated)
    else
      var elems := Split(e.revocRegDefId.value, SEP);
      var n := |elems|;
      if n < 2 then Err(IndexError)
      else
        var credDefId := Join(if n > 4 then elems[2..n - 2] else [], SEP);
        Ok(Entry(Some(RevocDefPath(elems[0], credDefId + SEP + DEFAULT_TAG, elems[n - 2], elems[n - 1]))))
  }

  /** Exactly which definitions are migrated: those that name their type, tag and a credential definition of four
      parts. */
  lemma DefinitionMigratedExactly(d: Definition)
    ensures MigratedDefinition(d).Ok? <==>
      && (exists id :: d.credDefId == Some(id) && id != "" && |Split(id, ":")| == 4)
      && d.revocType.Some? && d.revocType.value != "" && d.tag.Some? && d.tag.value != ""
    ensures MigratedDefinition(d).Ok? ==>
      MigratedDefinition(d).value.revocType == d.revocType && MigratedDefinition(d).value.tag == d.tag
    ensures MigratedDefinition(d).Err? ==> MigratedDefinition(d).error == NotMigrated
  {
  }

  /** An entry without an id is left alone, and one whose id holds no colon fails. */
  lemma EntryNotMigrated(e: Entry)
    ensures MigratedEntry(e) == Err(NotMigrated) <==> e.revocRegDefId.None? || e.revocRegDefId.value == ""
    ensures MigratedEntry(e) == Err(IndexError) <==>
      e.revocRegDefId.Some? && e.revocRegDefId.value != "" && ':' !in e.revocRegDefId.value
  {
    if e.revocRegDefId.Some? {
      OnePartExactly(e.revocRegDefId.value);
    }
  }

  lemma OnePartExactly(s: string)
    ensures |Split(s, ":")| == 1 <==> ':' !in s
  {
    SplittableByChar([s], ':');
    SplitJoin([s], ":");
    JoinSplit(s, ":");
    if |Split(s, ":")| == 1 {
      assert Split(s, ":") == [Split(s, ":")[0]];
    }
  }

  // ----- nested joins -----

  lemma {:induction false} JoinAppend(a: seq<string>, b: seq<string>)
    requires a != [] && b != []
    ensures Join(a + b, SEP) == Join(a, SEP) + SEP + Join(b, SEP)
  {
    if |a| == 1 {
      assert (a + b)[1..] == b;
    } else {
      JoinAppend(a[1..], b);
      assert (a + b)[1..] == a[1..] + b;
    }
  }

  /** Joining a part that is itself a join joins everything. */
  lemma JoinNested(a: seq<string>, b: seq<string>, c: seq<string>)
    requires a != [] && b != [] && c != []
    ensures Join(a + [Join(b, SEP)] + c, SEP) == Join(a + b + c, SEP)
  {
    JoinAppend(a + [Join(b, SEP)], c);
    JoinAppend(a, [Join(b, SEP)]);
    JoinAppend(a + b, c);
    JoinAppend(a, b);
  }

  ghost predicate ColonFree(parts: seq<string>) {
    forall i :: 0 <= i < |parts| ==> ':' !in parts[i]
  }

  lemma SplitParts(parts: seq<string>)
    requires parts != [] && ColonFree(parts)
    ensures Split(Join(parts, SEP), SEP) == parts
  {
    SplittableByChar(parts, ':');
    SplitJoin(parts, SEP);
  }

  lemma SameParts(a: seq<string>, b: seq<string>)
    requires a != [] && b != [] && ColonFree(a) && ColonFree(b)
    ensures Join(a, SEP) == Join(b, SEP) <==> a == b
  {
    SplitParts(a);
    SplitParts(b);
  }

  lemma JoinNonEmpty(parts: seq<string>)
    requires |parts| > 1
    ensures Join(parts, SEP) != ""
  {
  }

  /** What stands between the second part of an id and its last two; one empty part if the id is short. */
  function Middle(parts: seq<string>): seq<string> {
    if |parts| > 4 then parts[2..|parts| - 2] else [""]
  }

  lemma EntryMigratesTo(s: string, parts: seq<string>)
    requires s != "" && Split(s, SEP) == parts && |parts| >= 2
    ensures MigratedEntry(Entry(Some(s))) ==
      Ok(Entry(Some(RevocDefPath(parts[0], Join(Middle(parts), SEP) + ":tag", parts[|parts| - 2], parts[|parts| - 1]))))
  {
    assert SEP + DEFAULT_TAG == ":tag";
    assert |parts| <= 4 ==> Join(Middle(parts), SEP) == "" == Join([], SEP);
    var id := Join(Middle(parts), SEP);
    assert id + SEP + DEFAULT_TAG == id + ":tag";
  }

  lemma PathOfParts(a: string, middle: seq<string>, x: string, y: string)
    requires middle != []
    ensures RevocDefPath(a, Join(middle, SEP) + ":tag", x, y) == Join([a, "4"] + (middle + ["tag"]) + [x, y], SEP)
  {
    var id := Join(middle, SEP);
    JoinAppend(middle, ["tag"]);
    assert id + SEP + "tag" == id + ":tag";
    JoinNested([a, "4"], middle + ["tag"], [x, y]);
    assert [a, "4"] + [id + ":tag"] + [x, y] == [a, "4", id + ":tag", x, y];
  }

  /** The parts of the new id for an old one of any number of parts: the first part, the marker, the middle, the tag,
      and the last two parts. */
  function RewrittenParts(parts: seq<string>): seq<string>
    requires |parts| >= 2
  {
    [parts[0], "4"] + (Middle(parts) + ["tag"]) + [parts[|parts| - 2], parts[|parts| - 1]]
  }

  /** What any id that holds a colon becomes in an entry. */
  lemma EveryEntryMigrates(s: string, parts: seq<string>)
    requires s != "" && Split(s, SEP) == parts && |parts| >= 2
    ensures MigratedEntry(Entry(Some(s))) == Ok(Entry(Some(Join(RewrittenParts(parts), SEP))))
  {
    EntryMigratesTo(s, parts);
    PathOfParts(parts[0], Middle(parts), parts[|parts| - 2], parts[|parts| - 1]);
  }

  // ----- references -----

  /** An old registry: its author, the parts of the credential definition id it names, its type and its tag. */
  datatype Registry = Registry(author: string, did: string, marker: string, sigType: string, seqNo: string,
                               revocType: string, tag: string)

  function CredDefParts(r: Registry): seq<string> { [r.did, r.marker, r.sigType, r.seqNo] }

  function OldCredDefId(r: Registry): string { Join(CredDefParts(r), SEP) }

  function OldId(r: Registry): string { RevocDefPath(r.author, OldCredDefId(r), r.revocType, r.tag) }

  ghost predicate Plain(r: Registry) {
    && ColonFree([r.author] + CredDefParts(r) + [r.revocType, r.tag])
    && r.revocType != "" && r.tag != ""
  }

  function DefinitionOf(r: Registry, id: Option<string>): Definition {
    Definition(Some(OldCredDefId(r)), Some(r.revocType), Some(r.tag), id)
  }

  lemma PlainParts(r: Registry)
    requires Plain(r)
    ensures ':' !in r.author && ':' !in r.did && ':' !in r.marker && ':' !in r.sigType && ':' !in r.seqNo
    ensures ':' !in r.revocType && ':' !in r.tag
    ensures ':' !in MARKER_CLAIM_DEF && ':' !in MARKER_REVOC_DEF && ':' !in DEFAULT_TAG
  {
    var all := [r.author] + CredDefParts(r) + [r.revocType, r.tag];
    assert all[0] == r.author && all[1] == r.did && all[2] == r.marker && all[3] == r.sigType;
    assert all[4] == r.seqNo && all[5] == r.revocType && all[6] == r.tag;
  }

  /** The parts of the new id of a definition: the credential definition's owner takes the author's place, and the
      claim definition marker the marker's. */
  function DefinitionIdParts(r: Registry): seq<string> {
    [r.did, MARKER_REVOC_DEF, r.did, MARKER_CLAIM_DEF, r.sigType, r.seqNo, DEFAULT_TAG, r.revocType, r.tag]
  }

  /** What the definition is migrated to. */
  lemma DefinitionMigrates(r: Registry, id: Option<string>)
    requires Plain(r)
    ensures MigratedDefinition(DefinitionOf(r, id)) ==
      Ok(Definition(Some(Join([r.did, MARKER_CLAIM_DEF, r.sigType, r.seqNo, DEFAULT_TAG], SEP)),
                    Some(r.revocType), Some(r.tag), Some(Join(DefinitionIdParts(r), SEP))))
  {
    PlainParts(r);
    SplitParts(CredDefParts(r));
    JoinNonEmpty(CredDefParts(r));
    var cred := [r.did, MARKER_CLAIM_DEF, r.sigType, r.seqNo, DEFAULT_TAG];
    JoinNested([r.did, MARKER_REVOC_DEF], cred, [r.revocType, r.tag]);
    assert [r.did, MARKER_REVOC_DEF] + [Join(cred, SEP)] + [r.revocType, r.tag]
        == [r.did, MARKER_REVOC_DEF, Join(cred, SEP), r.revocType, r.tag];
    assert [r.did, MARKER_REVOC_DEF] + cred + [r.revocType, r.tag] == DefinitionIdParts(r);
  }

  function OldIdParts(r: Registry): seq<string> {
    [r.author, MARKER_REVOC_DEF, r.did, r.marker, r.sigType, r.seqNo, r.revocType, r.tag]
  }

  lemma OldIdJoins(r: Registry)
    ensures OldId(r) == Join(OldIdParts(r), SEP)
  {
    JoinNested([r.author, MARKER_REVOC_DEF], CredDefParts(r), [r.revocType, r.tag]);
    assert [r.author, MARKER_REVOC_DEF] + [OldCredDefId(r)] + [r.revocType, r.tag]
        == [r.author, MARKER_REVOC_DEF, OldCredDefId(r), r.revocType, r.tag];
    assert [r.author, MARKER_REVOC_DEF] + CredDefParts(r) + [r.revocType, r.tag] == OldIdParts(r);
  }

  function NewIdParts(r: Registry): seq<string> {
    [r.author, MARKER_REVOC_DEF, r.did, r.marker, r.sigType, r.seqNo, DEFAULT_TAG, r.revocType, r.tag]
  }

  /** What an entry that points to the registry is migrated to. */
  lemma EntryMigrates(r: Registry)
    requires Plain(r)
    ensures MigratedEntry(Entry(Some(OldId(r)))) == Ok(Entry(Some(Join(NewIdParts(r), SEP))))
  {
    PlainParts(r);
    OldIdJoins(r);
    JoinNonEmpty(OldIdParts(r));
    SplitParts(OldIdParts(r));
    assert OldIdParts(r)[2..6] == CredDefParts(r);
    JoinAppend(CredDefParts(r), [DEFAULT_TAG]);
    var cred := CredDefParts(r) + [DEFAULT_TAG];
    JoinNested([r.author, MARKER_REVOC_DEF], cred, [r.revocType, r.tag]);
    assert [r.author, MARKER_REVOC_DEF] + [Join(cred, SEP)] + [r.revocType, r.tag]
        == [r.author, MARKER_REVOC_DEF, Join(cred, SEP), r.revocType, r.tag];
    assert [r.author, MARKER_REVOC_DEF] + cred + [r.revocType, r.tag] == NewIdParts(r);
  }

  /** References are preserved exactly when the author of the registry owns the credential definition and the
      definition carries the claim definition marker: then, and only then, the rewritten id of the definition is
      the rewritten id in every entry that pointed to it. */
  lemma ReferencesPreservedExactly(r: Registry, id: Option<string>)
    requires Plain(r)
    ensures MigratedDefinition(DefinitionOf(r, id)).Ok? && MigratedEntry(Entry(Some(OldId(r)))).Ok?
    ensures MigratedDefinition(DefinitionOf(r, id)).value.id == MigratedEntry(Entry(Some(OldId(r)))).value.revocRegDefId
       <==> r.author == r.did && r.marker == MARKER_CLAIM_DEF
  {
    DefinitionMigrates(r, id);
    EntryMigrates(r);
    PlainParts(r);
    var a, b := DefinitionIdParts(r), NewIdParts(r);
    SameParts(a, b);
    assert a == b <==> r.author == r.did && r.marker == MARKER_CLAIM_DEF by {
      assert a[0] == r.did && b[0] == r.author && a[3] == MARKER_CLAIM_DEF && b[3] == r.marker;
    }
  }

  /** Entries of distinct old registries point to distinct new ids. */
  lemma NewIdsStayDistinct(r: Registry, s: Registry)
    requires Plain(r) && Plain(s)
    ensures MigratedEntry(Entry(Some(OldId(r)))) == MigratedEntry(Entry(Some(OldId(s)))) <==> r == s
  {
    EntryMigrates(r);
    EntryMigrates(s);
    PlainParts(r);
    PlainParts(s);
    SameParts(NewIdParts(r), NewIdParts(s));
    if NewIdParts(r) == NewIdParts(s) {
      var a, b := NewIdParts(r), NewIdParts(s);
      assert a[0] == b[0] && a[2] == b[2] && a[3] == b[3] && a[4] == b[4];
      assert a[5] == b[5] && a[7] == b[7] && a[8] == b[8];
    }
  }

  /** The rewritten id of a registry's definition. */
  function NewDefinitionId(r: Registry, id: Option<string>): Option<string> {
    match MigratedDefinition(DefinitionOf(r, id))
    case Ok(d) => d.id
    case Err(_) => None
  }

  /** The definitions themselves collide exactly when they differ at most in author and marker, which the new id
      does not keep. */
  lemma DefinitionsCollideExactly(r: Registry, s: Registry, id: Option<string>, id': Option<string>)
    requires Plain(r) && Plain(s)
    ensures NewDefinitionId(r, id).Some?
    ensures NewDefinitionId(r, id) == NewDefinitionId(s, id') <==> r.(author := s.author, marker := s.marker) == s
  {
    DefinitionMigrates(r, id);
    DefinitionMigrates(s, id');
    PlainParts(r);
    PlainParts(s);
    var a, b := DefinitionIdParts(r), DefinitionIdParts(s);
    SameParts(a, b);
    if a == b {
      assert a[0] == b[0] && a[4] == b[4] && a[5] == b[5] && a[7] == b[7] && a[8] == b[8];
    }
  }

  /** Two registries of one credential definition and tag, by different authors, are merged into one. */
  lemma DistinctRegistriesCanMerge(r: Registry, author: string, id: Option<string>, id': Option<string>)
    requires Plain(r) && author != r.author && ':' !in author
    ensures OldId(r) != OldId(r.(author := author))
    ensures NewDefinitionId(r, id) == NewDefinitionId(r.(author := author), id')
  {
    var s := r.(author := author);
    PlainParts(r);
    assert Plain(s);
    PlainParts(s);
    OldIdJoins(r);
    OldIdJoins(s);
    SameParts(OldIdParts(r), OldIdParts(s));
    assert OldIdParts(r)[0] != OldIdParts(s)[0];
    DefinitionsCollideExactly(r, s, id, id');
  }

  ghost predicate Owned(r: Registry) { r.author == r.did && r.marker == MARKER_CLAIM_DEF }

  /** Which definitions an entry points to after the migration: none unless its registry was owned and marked as the
      migration assumes, and then those that differ from it at most in author and marker. */
  lemma EntryPointsExactly(r: Registry, s: Registry, id: Option<string>)
    requires Plain(r) && Plain(s)
    ensures MigratedEntry(Entry(Some(OldId(r)))) == Ok(Entry(NewDefinitionId(s, id)))
       <==> Owned(r) && r.(author := s.author, marker := s.marker) == s
  {
    EntryMigrates(r);
    DefinitionMigrates(s, id);
    PlainParts(r);
    PlainParts(s);
    var a, b := NewIdParts(r), DefinitionIdParts(s);
    SameParts(a, b);
    if a == b {
      assert a[0] == b[0] && a[2] == b[2] && a[3] == b[3] && a[4] == b[4];
      assert a[5] == b[5] && a[7] == b[7] && a[8] == b[8];
    }
  }

  /** A reference is left dangling: the entry of a registry whose author does not own the credential definition points
      to no migrated definition at all, its own included. */
  lemma ForeignReferenceDangles(r: Registry, s: Registry, id: Option<string>)
    requires Plain(r) && Plain(s) && r.author != r.did
    ensures MigratedEntry(Entry(Some(OldId(r)))).Ok?
    ensures MigratedEntry(Entry(Some(OldId(r)))) != Ok(Entry(NewDefinitionId(s, id)))
  {
    EntryMigrates(r);
    EntryPointsExactly(r, s, id);
  }

  /** Such a registry. */
  lemma ForeignRegistryExists()
    ensures var r := Registry("A", "B", "3", "CL", "14", "ACC", "t");
      Plain(r) && r.author != r.did
  {
    var r := Registry("A", "B", "3", "CL", "14", "ACC", "t");
    assert r.author[0] == 'A' && r.did[0] == 'B';
  }

  /** Among registries whose author owns the credential definition, with the claim definition marker, an entry of one
      points to the new definition of the other exactly when they are the same registry: every reference finds its
      definition and no other. */
  lemma ReferencesFindOnlyTheirDefinition(r: Registry, s: Registry, id: Option<string>)
    requires Plain(r) && Plain(s) && Owned(r) && Owned(s)
    ensures MigratedEntry(Entry(Some(OldId(r)))) == Ok(Entry(NewDefinitionId(s, id))) <==> r == s
    ensures forall id' :: NewDefinitionId(r, id') == NewDefinitionId(s, id) <==> r == s
  {
    EntryPointsExactly(r, s, id);
    forall id' ensures NewDefinitionId(r, id') == NewDefinitionId(s, id) <==> r == s {
      DefinitionsCollideExactly(r, s, id', id);
    }
  }
}
