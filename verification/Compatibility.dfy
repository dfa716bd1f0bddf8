/**
 Two checks of whether schemas fit together: the change report that decides
 between "compatible" and "needs a migration", and the quick check on type
 information. What the first allows, the second allows in both directions.
 */
module Compatibility {
  import opened Prelude
  import MR = MigrationRegistry

  datatype FieldInfo = FieldInfo(name: string, typeName: string, optional: bool)

  datatype TypeInfo = TypeInfo(name: string, hash: nat, fields: seq<FieldInfo>)

  type FieldMap = map<string, FieldInfo>

  /** Fields by name; of two with the same name the later one counts. */
  function ByName(fields: seq<FieldInfo>): FieldMap {
    if fields == [] then map[]
    else ByName(fields[..|fields| - 1])[fields[|fields| - 1].name := fields[|fields| - 1]]
  }

  ghost predicate UniqueNames(fields: seq<FieldInfo>) {
    forall i, j :: 0 <= i < j < |fields| ==> fields[i].name != fields[j].name
  }

  /** Every field is found under its own name. */
  lemma {:induction false} ByNameHas(fields: seq<FieldInfo>, i: nat)
    requires UniqueNames(fields) && i < |fields|
    ensures fields[i].name in ByName(fields) && ByName(fields)[fields[i].name] == fields[i]
  {
    if i < |fields| - 1 {
      ByNameHas(fields[..|fields| - 1], i);
    }
  }

  lemma {:induction false} ByNameFrom(fields: seq<FieldInfo>, name: string) returns (i: nat)
    requires name in ByName(fields)
    ensures i < |fields| && fields[i] == ByName(fields)[name] && fields[i].name == name
  {
    var last := |fields| - 1;
    if fields[last].name == name {
      i := last;
    } else {
      i := ByNameFrom(fields[..last], name);
    }
  }

  // ---------------------------------------------------------------------------
  // The change report
  // ---------------------------------------------------------------------------

  datatype ChangeKind =
    | AddOptionalField | AddRequiredField | RemoveField | ChangeFieldType | RenameField
    | DeprecateField | ChangeDefault | MakeOptional | MakeRequired
  {
    predicate IsBreaking() {
      AddRequiredField? || RemoveField? || ChangeFieldType? || RenameField? || MakeRequired?
    }
  }

  datatype SchemaChange = SchemaChange(
    kind: ChangeKind, field: string, oldType: Option<string>, newType: Option<string>)

  /** What the report says about one field name that one of the schemas has. */
  function ChangesOf(from: FieldMap, to: FieldMap, name: string): seq<SchemaChange> {
    if name in from && name !in to then [SchemaChange(RemoveField, name, Some(from[name].typeName), None)]
    else if name !in from && name in to then
      [SchemaChange(if to[name].optional then AddOptionalField else AddRequiredField, name, None, Some(to[name].typeName))]
    else if name in from && name in to then
      (if from[name].typeName != to[name].typeName then
         [SchemaChange(ChangeFieldType, name, Some(from[name].typeName), Some(to[name].typeName))]
       else []) +
      (if from[name].optional && !to[name].optional then [SchemaChange(MakeRequired, name, None, None)] else []) +
      (if !from[name].optional && to[name].optional then [SchemaChange(MakeOptional, name, None, None)] else [])
    else []
  }

  ghost predicate Distinct(changes: seq<SchemaChange>) {
    forall i, j :: 0 <= i < j < |changes| ==> changes[i] != changes[j]
  }

  /** The report holds the changes of every field, each once, and nothing else. */
  ghost predicate Reports(changes: seq<SchemaChange>, from: FieldMap, to: FieldMap) {
    Distinct(changes) && forall c :: c in changes <==> c in ChangesOf(from, to, c.field)
  }

  /** No change of this field breaks. */
  predicate FieldFits(from: FieldMap, to: FieldMap, name: string) {
    && (name in from ==> name in to && from[name].typeName == to[name].typeName
                         && (from[name].optional ==> to[name].optional))
    && (name !in from && name in to ==> to[name].optional)
  }

  /** Old fields stay, with their type and no stricter; new ones are optional. */
  ghost predicate NonBreaking(from: FieldMap, to: FieldMap) {
    forall name :: FieldFits(from, to, name)
  }

  lemma FieldFitsIff(from: FieldMap, to: FieldMap, name: string)
    ensures FieldFits(from, to, name) <==> forall c :: c in ChangesOf(from, to, name) ==> !c.kind.IsBreaking()
    ensures forall c :: c in ChangesOf(from, to, name) ==> c.field == name
    ensures Distinct(ChangesOf(from, to, name))
  {
    var cs := ChangesOf(from, to, name);
    if !FieldFits(from, to, name) {
      assert cs[0].kind.IsBreaking();
      assert cs[0] in cs;
    }
  }

  /** The report has a breaking change exactly when some field does not fit. */
  lemma NoneBreakingIff(changes: seq<SchemaChange>, from: FieldMap, to: FieldMap)
    requires Reports(changes, from, to)
    ensures (forall c :: c in changes ==> !c.kind.IsBreaking()) <==> NonBreaking(from, to)
  {
    if forall c :: c in changes ==> !c.kind.IsBreaking() {
      forall name ensures FieldFits(from, to, name) {
        FieldFitsIff(from, to, name);
        forall c | c in ChangesOf(from, to, name) ensures !c.kind.IsBreaking() {
          assert c in changes;
        }
      }
    }
    if NonBreaking(from, to) {
      forall c | c in changes ensures !c.kind.IsBreaking() {
        FieldFitsIff(from, to, c.field);
        assert FieldFits(from, to, c.field);
      }
    }
  }

  /** A field is reported as retyped, from its old type to its new one, if and only if the types differ. */
  lemma RetypedIff(changes: seq<SchemaChange>, from: FieldMap, to: FieldMap, name: string, t: string, u: string)
    requires Reports(changes, from, to)
    ensures SchemaChange(ChangeFieldType, name, Some(t), Some(u)) in changes
            <==> name in from && name in to && from[name].typeName != to[name].typeName
                 && t == from[name].typeName && u == to[name].typeName
  {
  }

  /** Which other changes the report holds, by the fields of the two schemas. */
  lemma ReportedIff(changes: seq<SchemaChange>, from: FieldMap, to: FieldMap, name: string)
    requires Reports(changes, from, to)
    ensures forall t: string :: SchemaChange(RemoveField, name, Some(t), None) in changes
                                <==> name in from && name !in to && t == from[name].typeName
    ensures forall t: string :: SchemaChange(AddRequiredField, name, None, Some(t)) in changes
                                <==> name !in from && name in to && !to[name].optional && t == to[name].typeName
    ensures forall t: string :: SchemaChange(AddOptionalField, name, None, Some(t)) in changes
                                <==> name !in from && name in to && to[name].optional && t == to[name].typeName
    ensures SchemaChange(MakeRequired, name, None, None) in changes
            <==> name in from && name in to && from[name].optional && !to[name].optional
    ensures SchemaChange(MakeOptional, name, None, None) in changes
            <==> name in from && name in to && !from[name].optional && to[name].optional
  {
  }

  /** And it holds no others: a removed field has no new type, an added one no old, a retyped one both. */
  lemma ReportShapes(changes: seq<SchemaChange>, from: FieldMap, to: FieldMap, c: SchemaChange)
    requires Reports(changes, from, to) && c in changes
    ensures match c.kind
            case RemoveField => c.oldType.Some? && c.newType.None?
            case AddRequiredField | AddOptionalField => c.oldType.None? && c.newType.Some?
            case ChangeFieldType => c.oldType.Some? && c.newType.Some?
            case MakeRequired | MakeOptional => c.oldType.None? && c.newType.None?
            case _ => false
  {
    assert c in ChangesOf(from, to, c.field);
  }

  lemma NonBreakingTransitive(a: FieldMap, b: FieldMap, c: FieldMap)
    requires NonBreaking(a, b) && NonBreaking(b, c)
    ensures NonBreaking(a, c)
  {
    forall name ensures FieldFits(a, c, name) {
      assert FieldFits(a, b, name) && FieldFits(b, c, name);
    }
  }

  datatype Report = Report(
    compatible: bool, changes: seq<SchemaChange>, migrationRequired: bool, migrationAvailable: bool)

  /** The same non-zero hash is taken to mean the same schema. */
  predicate SameHash(a: TypeInfo, b: TypeInfo) {
    a.hash != 0 && a.hash == b.hash
  }

  ghost predicate DirectlyCompatible(a: TypeInfo, b: TypeInfo) {
    SameHash(a, b) || NonBreaking(ByName(a.fields), ByName(b.fields))
  }

  class CompatibilityMatrix {
    const migrations: MR.Registry

    constructor (migrations: MR.Registry)
      ensures this.migrations == migrations
    {
      this.migrations := migrations;
    }

    /** The maps are walked in whatever order they enumerate. */
    method DetectChanges(from: TypeInfo, to: TypeInfo) returns (changes: seq<SchemaChange>)
      ensures Reports(changes, ByName(from.fields), ByName(to.fields))
    {
      var fromFields := IndexFields(from.fields);
      var toFields := IndexFields(to.fields);
      changes := [];
      var left := fromFields.Keys;
      while left != {}
        invariant left <= fromFields.Keys
        invariant Distinct(changes)
        invariant forall c :: c in changes <==>
          && c in ChangesOf(fromFields, toFields, c.field)
          && c.field in fromFields && c.field !in toFields && c.field !in left
        decreases left
      {
        var name :| name in left;
        left := left - {name};
        if name !in toFields {
          changes := changes + [SchemaChange(RemoveField, name, Some(fromFields[name].typeName), None)];
        }
      }
      left := toFields.Keys;
      while left != {}
        invariant left <= toFields.Keys
        invariant Distinct(changes)
        invariant forall c :: c in changes <==> c in ChangesOf(fromFields, toFields, c.field) && c.field !in left
        decreases left
      {
        var name :| name in left;
        ghost var before := changes;
        var added := CompareField(fromFields, toFields, name);
        FieldFitsIff(fromFields, toFields, name);
        changes := changes + added;
        left := left - {name};
        assert forall c :: c in changes <==> c in before || c in added;
      }
    }

    method CompareField(fromFields: FieldMap, toFields: FieldMap, name: string) returns (changes: seq<SchemaChange>)
      requires name in toFields
      ensures changes == ChangesOf(fromFields, toFields, name)
    {
      changes := [];
      var to := toFields[name];
      if name !in fromFields {
        var kind := if to.optional then AddOptionalField else AddRequiredField;
        return [SchemaChange(kind, name, None, Some(to.typeName))];
      }
      var from := fromFields[name];
      if from.typeName != to.typeName {
        changes := changes + [SchemaChange(ChangeFieldType, name, Some(from.typeName), Some(to.typeName))];
      }
      if from.optional && !to.optional {
        changes := changes + [SchemaChange(MakeRequired, name, None, None)];
      }
      if !from.optional && to.optional {
        changes := changes + [SchemaChange(MakeOptional, name, None, None)];
      }
    }

    /** Compatible means no breaking change; a migration is on offer exactly when a registered route leads there. */
    method Check(from: TypeInfo, to: TypeInfo) returns (r: Report)
      requires migrations.Valid()
      ensures r.compatible <==> DirectlyCompatible(from, to)
      ensures r.migrationRequired <==> !r.compatible
      ensures r.migrationAvailable <==> r.compatible || !MR.NoRoute(migrations.Registered(), from.hash, to.hash)
      ensures if SameHash(from, to) then r.changes == [] else Reports(r.changes, ByName(from.fields), ByName(to.fields))
    {
      if from.hash != 0 && from.hash == to.hash {
        return Report(true, [], false, true);
      }
      var changes := DetectChanges(from, to);
      NoneBreakingIff(changes, ByName(from.fields), ByName(to.fields));
      if changes == [] {
        return Report(true, [], false, true);
      }
      var hasBreaking := exists c | c in changes :: c.kind.IsBreaking();
      if !hasBreaking {
        return Report(true, changes, false, true);
      }
      var available := migrations.HasPath(from.hash, to.hash);
      return Report(false, changes, true, available);
    }
  }

  method IndexFields(fields: seq<FieldInfo>) returns (m: FieldMap)
    ensures m == ByName(fields)
  {
    m := map[];
    for k := 0 to |fields|
      invariant m == ByName(fields[..k])
    {
      assert fields[..k + 1][..k] == fields[..k];
      m := m[fields[k].name := fields[k]];
    }
    assert fields[..|fields|] == fields;
  }

  // ---------------------------------------------------------------------------
  // The quick check
  // ---------------------------------------------------------------------------

  /** The first field with the name. */
  function GetField(t: TypeInfo, name: string): (r: Option<FieldInfo>)
    ensures r.Some? ==> exists i: nat :: FirstAt(t.fields, name, i) && r.value == t.fields[i]
    ensures r.None? ==> forall f :: f in t.fields ==> f.name != name
  {
    FirstNamed(t.fields, name)
  }

  /** Field `i` has the name and none before it has. */
  ghost predicate FirstAt(fields: seq<FieldInfo>, name: string, i: nat) {
    i < |fields| && fields[i].name == name && forall j :: 0 <= j < i ==> fields[j].name != name
  }

  function FirstNamed(fields: seq<FieldInfo>, name: string): (r: Option<FieldInfo>)
    ensures r.Some? ==> exists i: nat :: FirstAt(fields, name, i) && r.value == fields[i]
    ensures r.None? ==> forall f :: f in fields ==> f.name != name
  {
    if fields == [] then None
    else if fields[0].name == name then
      assert FirstAt(fields, name, 0);
      Some(fields[0])
    else
      var r := FirstNamed(fields[1..], name);
      assert r.Some? ==> exists i: nat :: FirstAt(fields, name, i) && r.value == fields[i] by {
        if r.Some? {
          var i: nat :| FirstAt(fields[1..], name, i) && r.value == fields[1..][i];
          assert FirstAt(fields, name, i + 1);
        }
      }
      r
  }

  /** A required field of the other schema is here too, with its type. */
  predicate Provides(t: TypeInfo, field: FieldInfo) {
    field.optional || match GetField(t, field.name)
                      case Some(ours) => ours.typeName == field.typeName
                      case None => false
  }

  ghost predicate CompatibleWith(t: TypeInfo, other: TypeInfo) {
    SameHash(t, other) || forall i :: 0 <= i < |other.fields| ==> Provides(t, other.fields[i])
  }

  method IsCompatibleWith(t: TypeInfo, other: TypeInfo) returns (r: bool)
    ensures r <==> CompatibleWith(t, other)
  {
    if t.hash != 0 && t.hash == other.hash {
      return true;
    }
    for k := 0 to |other.fields|
      invariant forall i :: 0 <= i < k ==> Provides(t, other.fields[i])
    {
      if other.fields[k].optional {
        continue;
      }
      match GetField(t, other.fields[k].name)
      case Some(ours) =>
        if ours.typeName != other.fields[k].typeName {
          return false;
        }
      case None =>
        return false;
    }
    return true;
  }

  /** With unique names, both ways of looking a field up agree. */
  lemma LookupsAgree(t: TypeInfo, name: string)
    requires UniqueNames(t.fields)
    ensures GetField(t, name) == if name in ByName(t.fields) then Some(ByName(t.fields)[name]) else None
  {
    var found := GetField(t, name);
    if found.Some? {
      var i: nat :| FirstAt(t.fields, name, i) && found.value == t.fields[i];
      ByNameHas(t.fields, i);
    }
    if name in ByName(t.fields) {
      var i := ByNameFrom(t.fields, name);
      assert t.fields[i] in t.fields;
    }
  }

  /** A required field missing or of another type in either schema is all the quick check looks at. */
  ghost predicate RequiredMatch(from: FieldMap, to: FieldMap) {
    forall name :: name in to && !to[name].optional ==> name in from && from[name].typeName == to[name].typeName
  }

  lemma CompatibleWithIff(t: TypeInfo, other: TypeInfo)
    requires UniqueNames(t.fields) && UniqueNames(other.fields) && !SameHash(t, other)
    ensures CompatibleWith(t, other) <==> RequiredMatch(ByName(t.fields), ByName(other.fields))
  {
    if CompatibleWith(t, other) {
      forall name | name in ByName(other.fields) && !ByName(other.fields)[name].optional
        ensures name in ByName(t.fields) && ByName(t.fields)[name].typeName == ByName(other.fields)[name].typeName
      {
        var i := ByNameFrom(other.fields, name);
        LookupsAgree(t, name);
        assert Provides(t, other.fields[i]);
      }
    }
    if RequiredMatch(ByName(t.fields), ByName(other.fields)) {
      forall i | 0 <= i < |other.fields| ensures Provides(t, other.fields[i]) {
        ByNameHas(other.fields, i);
        LookupsAgree(t, other.fields[i].name);
      }
    }
  }

  /** Directly compatible schemas pass the quick check in both directions. */
  lemma CompatibleBothWays(a: TypeInfo, b: TypeInfo)
    requires UniqueNames(a.fields) && UniqueNames(b.fields) && DirectlyCompatible(a, b)
    ensures CompatibleWith(a, b) && CompatibleWith(b, a)
  {
    if !SameHash(a, b) {
      CompatibleWithIff(a, b);
      CompatibleWithIff(b, a);
      var x, y := ByName(a.fields), ByName(b.fields);
      forall name | name in y && !y[name].optional ensures name in x && x[name].typeName == y[name].typeName {
        assert FieldFits(x, y, name);
      }
      forall name | name in x && !x[name].optional ensures name in y && y[name].typeName == x[name].typeName {
        assert FieldFits(x, y, name);
      }
    }
  }

  /** An optional field is dropped: the quick check passes both ways, and the change is breaking. */
  lemma DroppedOptionalPassesBothWays()
    ensures exists a: TypeInfo, b: TypeInfo ::
              && UniqueNames(a.fields) && UniqueNames(b.fields) && !SameHash(a, b)
              && CompatibleWith(a, b) && CompatibleWith(b, a) && !DirectlyCompatible(a, b)
  {
    var note := FieldInfo("note", "String", true);
    var a, b := TypeInfo("A@v1", 7, [note]), TypeInfo("A@v2", 8, []);
    assert ByName([]) == map[];
    assert [note][..0] == [];
    assert ByName([note]) == map["note" := note];
    assert !FieldFits(ByName(a.fields), ByName(b.fields), "note");
    assert CompatibleWith(a, b) && CompatibleWith(b, a) && !DirectlyCompatible(a, b);
  }

  /**
   The exact gap between the checks: schemas that pass the quick check both ways are directly
   compatible if and only if no optional field of the old one is dropped, retyped or made required.
   */
  lemma BothWaysIsCompatibleIff(a: TypeInfo, b: TypeInfo)
    requires UniqueNames(a.fields) && UniqueNames(b.fields) && !SameHash(a, b)
    requires CompatibleWith(a, b) && CompatibleWith(b, a)
    ensures DirectlyCompatible(a, b) <==>
            forall i :: 0 <= i < |a.fields| && a.fields[i].optional ==>
              GetField(b, a.fields[i].name) == Some(FieldInfo(a.fields[i].name, a.fields[i].typeName, true))
  {
    CompatibleWithIff(a, b);
    CompatibleWithIff(b, a);
    var x, y := ByName(a.fields), ByName(b.fields);
    if DirectlyCompatible(a, b) {
      forall i | 0 <= i < |a.fields| && a.fields[i].optional
        ensures GetField(b, a.fields[i].name) == Some(FieldInfo(a.fields[i].name, a.fields[i].typeName, true))
      {
        ByNameHas(a.fields, i);
        LookupsAgree(b, a.fields[i].name);
        assert FieldFits(x, y, a.fields[i].name);
      }
    }
    if forall i :: 0 <= i < |a.fields| && a.fields[i].optional ==>
         GetField(b, a.fields[i].name) == Some(FieldInfo(a.fields[i].name, a.fields[i].typeName, true))
    {
      forall name ensures FieldFits(x, y, name) {
        LookupsAgree(b, name);
        if name in x {
          var i := ByNameFrom(a.fields, name);
        }
      }
    }
  }

  // ---------------------------------------------------------------------------
  // When direct compatibility composes
  // ---------------------------------------------------------------------------

  /** A name that no field of the set has. */
  lemma {:induction false} UnusedName(names: set<string>) returns (unused: string)
    ensures unused !in names && forall n :: n in names ==> |n| < |unused|
  {
    if names == {} {
      unused := "x";
    } else {
      var n :| n in names;
      var rest := UnusedName(names - {n});
      unused := if |n| < |rest| then rest else n + "x";
      forall m | m in names ensures |m| < |unused| {
        assert m == n || m in names - {n};
      }
    }
  }

  /** A schema with a required field that the other one does not have breaks it, both as its successor and as its predecessor. */
  lemma StrangerBreaks(m: FieldMap, hash: nat) returns (stranger: TypeInfo)
    ensures stranger.hash == hash
    ensures !NonBreaking(m, ByName(stranger.fields)) && !NonBreaking(ByName(stranger.fields), m)
  {
    var name := UnusedName(m.Keys);
    var f := FieldInfo(name, "String", false);
    assert [f][..0] == [];
    assert ByName([f]) == map[name := f];
    stranger := TypeInfo("Stranger@v1", hash, [f]);
    assert !FieldFits(m, ByName(stranger.fields), name) && !FieldFits(ByName(stranger.fields), m, name);
  }

  /**
   A step from `a` to `b` can be put in front of every compatible step from `b` if and only if it breaks
   nothing itself and no hash vouches for `b` alone: the two share theirs, or `b` has none.
   */
  lemma ComposesInFrontIff(a: TypeInfo, b: TypeInfo)
    ensures (forall c :: DirectlyCompatible(b, c) ==> DirectlyCompatible(a, c))
            <==> NonBreaking(ByName(a.fields), ByName(b.fields)) && (SameHash(a, b) || b.hash == 0)
  {
    if forall c :: DirectlyCompatible(b, c) ==> DirectlyCompatible(a, c) {
      var unhashed := TypeInfo(b.name, 0, b.fields);
      assert DirectlyCompatible(b, unhashed);
      if !SameHash(a, b) && b.hash != 0 {
        var stranger := StrangerBreaks(ByName(a.fields), b.hash);
        assert DirectlyCompatible(b, stranger);
        assert false;
      }
    }
    if NonBreaking(ByName(a.fields), ByName(b.fields)) && (SameHash(a, b) || b.hash == 0) {
      forall c | DirectlyCompatible(b, c) ensures DirectlyCompatible(a, c) {
        if !SameHash(b, c) {
          NonBreakingTransitive(ByName(a.fields), ByName(b.fields), ByName(c.fields));
        }
      }
    }
  }

  /** And a step from `b` to `c` behind every compatible step to `b`, under the mirrored condition. */
  lemma ComposesBehindIff(b: TypeInfo, c: TypeInfo)
    ensures (forall a :: DirectlyCompatible(a, b) ==> DirectlyCompatible(a, c))
            <==> NonBreaking(ByName(b.fields), ByName(c.fields)) && (SameHash(b, c) || b.hash == 0)
  {
    if forall a :: DirectlyCompatible(a, b) ==> DirectlyCompatible(a, c) {
      var unhashed := TypeInfo(b.name, 0, b.fields);
      assert DirectlyCompatible(unhashed, b);
      if !SameHash(b, c) && b.hash != 0 {
        var stranger := StrangerBreaks(ByName(c.fields), b.hash);
        assert DirectlyCompatible(stranger, b);
        assert false;
      }
    }
    if NonBreaking(ByName(b.fields), ByName(c.fields)) && (SameHash(b, c) || b.hash == 0) {
      forall a | DirectlyCompatible(a, b) ensures DirectlyCompatible(a, c) {
        if !SameHash(a, b) {
          NonBreakingTransitive(ByName(a.fields), ByName(b.fields), ByName(c.fields));
        }
      }
    }
  }

  /** Two schemas with the same hash can stand in for each other as the first step if and only if none of their fields breaks. */
  lemma SharedHashIsHarmlessIff(a: TypeInfo, b: TypeInfo)
    requires SameHash(a, b)
    ensures (forall c :: DirectlyCompatible(b, c) ==> DirectlyCompatible(a, c))
            <==> NonBreaking(ByName(a.fields), ByName(b.fields))
    ensures (forall c :: DirectlyCompatible(c, a) ==> DirectlyCompatible(c, b))
            <==> NonBreaking(ByName(a.fields), ByName(b.fields))
  {
    ComposesInFrontIff(a, b);
    ComposesBehindIff(a, b);
  }

  /** Equal non-zero hashes among the schemas stand for fields that fit. */
  ghost predicate HashFaithful(a: TypeInfo, b: TypeInfo) {
    SameHash(a, b) ==> NonBreaking(ByName(a.fields), ByName(b.fields))
  }

  /** Where hashes are faithful, direct compatibility composes. */
  lemma CompatibleTransitive(a: TypeInfo, b: TypeInfo, c: TypeInfo)
    requires HashFaithful(a, b) && HashFaithful(b, c)
    requires DirectlyCompatible(a, b) && DirectlyCompatible(b, c)
    ensures DirectlyCompatible(a, c)
  {
    if SameHash(a, b) {
      ComposesInFrontIff(a, b);
    } else if SameHash(b, c) {
      ComposesBehindIff(b, c);
    } else {
      NonBreakingTransitive(ByName(a.fields), ByName(b.fields), ByName(c.fields));
    }
  }

  /** Where two schemas share a hash and a field of the first breaks, it does not: three concrete schemas. */
  lemma CollisionBreaksTransitivity()
    ensures exists a, b, c :: DirectlyCompatible(a, b) && DirectlyCompatible(b, c) && !DirectlyCompatible(a, c)
  {
    var id := FieldInfo("id", "String", false);
    var a, b, c := TypeInfo("A@v1", 7, [id]), TypeInfo("B@v1", 7, []), TypeInfo("C@v1", 8, []);
    assert ByName([]) == map[];
    assert [id][..0] == [];
    assert ByName([id]) == map["id" := id];
    assert !FieldFits(ByName(a.fields), ByName(c.fields), "id");
    assert DirectlyCompatible(a, b) && DirectlyCompatible(b, c) && !DirectlyCompatible(a, c);
  }

  // ---------------------------------------------------------------------------
  // Migrations on offer that nobody registered
  // ---------------------------------------------------------------------------

  /** A route without a step is on offer: the search is not asked, because the hashes are equal. */
  lemma OfferedForFreeIff(reg: MR.Registered, from: TypeInfo, to: TypeInfo)
    requires !DirectlyCompatible(from, to)
    ensures MR.ShortestRoute(reg, from.hash, to.hash, []) <==> from.hash == 0 && to.hash == 0
  {
  }

  /** With nothing registered, a breaking change is reported with a migration on offer exactly between schemas without hashes. */
  lemma OfferedWithoutMigrationsIff(from: TypeInfo, to: TypeInfo)
    requires !DirectlyCompatible(from, to)
    ensures !MR.NoRoute(map[], from.hash, to.hash) <==> from.hash == 0 && to.hash == 0
  {
    if from.hash == 0 && to.hash == 0 {
      assert MR.Route(map[], from.hash, to.hash, []);
    }
    if !MR.NoRoute(map[], from.hash, to.hash) {
      var p :| MR.Route(map[], from.hash, to.hash, p);
      assert p == [];
    }
  }

  /** The migration on offer then hands back the data as it is, whatever the fields of the two schemas. */
  lemma FreeMigrationChangesNothing(reg: MR.Registered, hash: nat, path: seq<MR.Migration>)
    requires MR.ShortestRoute(reg, hash, hash, path)
    ensures path == []
  {
    assert MR.Route(reg, hash, hash, []);
  }

  /** Two such schemas: a required field is dropped, and a migration is on offer. */
  lemma UnhashedSchemasOfferOne()
    ensures exists from: TypeInfo, to: TypeInfo ::
              !DirectlyCompatible(from, to) && !MR.NoRoute(map[], from.hash, to.hash)
  {
    var from := StrangerBreaks(map[], 0);
    var to := TypeInfo("Empty@v1", 0, []);
    assert ByName(to.fields) == map[];
    OfferedWithoutMigrationsIff(from, to);
  }
}
