/**
 Who gets the ownerless rows, in terms of the two settings as they are given: the
 text of the legacy id and the fields of the project list.
 */
module ProjectOwner {
  import opened Results
  import opened ProjectScope
  import JsonText

  // A project_id that int() takes to n: a number, a text, or true for 1.
  ghost predicate IsId(c: Config, v: JsonText.Json, n: int) {
    match v
    case JInt(m) => m == n
    case JStr(u) => c.parseInt(u) == Some(n)
    case JBool(b) => b && n == 1
    case _ => false
  }

  // The last project_id of an object is n.
  ghost predicate HasId(c: Config, project: JsonText.Json, n: int) {
    project.JObj? &&
    exists k :: 0 <= k < |project.fields| && project.fields[k].key == "project_id" && IsId(c, project.fields[k].value, n) &&
      forall j :: k < j < |project.fields| ==> project.fields[j].key != "project_id"
  }

  // The settings give the positive id n as the owner: it is the legacy id, and some
  // listed project has it when there is a list.
  ghost predicate Gives(c: Config, n: int) {
    && n > 0
    && c.legacyId.Some? && c.parseInt(c.legacyId.value) == Some(n)
    && match c.projects
       case Blank => true
       case Malformed => false
       case Document(doc) => doc.JArr? && exists i :: 0 <= i < |doc.items| && HasId(c, doc.items[i], n)
  }

  // Some row of a table with a project column is of project 0.
  ghost predicate SomeOwnerless(tables: Tables) {
    exists t: Name, i :: t in tables && tables[t].Scoped? && 0 <= i < |tables[t].rows| && tables[t].rows[i].projectId == 0
  }

  // The list is not JSON, or a number, null or a truth value, over which nothing can go.
  ghost predicate Unusable(p: Projects) {
    p.Malformed? || (p.Document? && (p.doc.JInt? || p.doc.JNull? || p.doc.JBool?))
  }

  // ---------- reading a project entry ----------

  lemma {:induction false} GetIsNull(fields: seq<JsonText.Field>, key: string)
    requires forall j :: 0 <= j < |fields| ==> fields[j].key != key
    ensures Get(fields, key) == JsonText.JNull
  {
    if fields != [] {
      GetIsNull(fields[..|fields| - 1], key);
    }
  }

  lemma {:induction false} LastKey(fields: seq<JsonText.Field>, key: string) returns (k: int)
    ensures -1 <= k < |fields|
    ensures k >= 0 ==> fields[k].key == key
    ensures forall j :: k < j < |fields| ==> fields[j].key != key
  {
    k := |fields| - 1;
    while k >= 0 && fields[k].key != key
      invariant -1 <= k < |fields|
      invariant forall j :: k < j < |fields| ==> fields[j].key != key
    {
      k := k - 1;
    }
  }

  lemma IdOfProject(c: Config, project: JsonText.Json, n: int)
    requires n > 0
    ensures HasId(c, project, n) <==> project.JObj? && PositiveJson(c, Get(project.fields, "project_id")) == Some(n)
  {
    if project.JObj? {
      var fields := project.fields;
      var k := LastKey(fields, "project_id");
      if k >= 0 {
        GetIsLast(fields, "project_id", k);
        assert IsId(c, fields[k].value, n) <==> PositiveJson(c, fields[k].value) == Some(n);
      } else {
        GetIsNull(fields, "project_id");
      }
    }
  }

  lemma GivesIsNames(c: Config, n: int)
    ensures Gives(c, n) <==> Names(c, n) && n > 0
  {
    if n > 0 && c.projects.Document? && c.projects.doc.JArr? {
      var items := c.projects.doc.items;
      forall i | 0 <= i < |items|
        ensures HasId(c, items[i], n) <==> items[i].JObj? && PositiveJson(c, Get(items[i].fields, "project_id")) == Some(n)
      {
        IdOfProject(c, items[i], n);
      }
    }
  }

  lemma NamesArePositive(c: Config, n: int)
    requires Names(c, n)
    ensures n > 0 && Gives(c, n)
  {
    GivesIsNames(c, n);
  }

  lemma OwnerlessMeans(tables: Tables)
    ensures HasUnassigned(tables) <==> SomeOwnerless(tables)
  {
    if HasUnassigned(tables) {
      var t: Name :| t in tables && tables[t].Scoped? && Unassigned(tables[t].rows);
      var i :| 0 <= i < |tables[t].rows| && tables[t].rows[i].projectId == 0;
    }
    if SomeOwnerless(tables) {
      var t: Name, i :| t in tables && tables[t].Scoped? && 0 <= i < |tables[t].rows| && tables[t].rows[i].projectId == 0;
      assert Unassigned(tables[t].rows);
    }
  }

  // ---------- main results ----------

  /**
   Exactly which owner is resolved: n when the settings give n, whatever the tables
   hold; otherwise none, and only while no row needs one.
   */
  lemma ResolvedOwner(c: Config, tables: Tables)
    ensures forall n :: LegacyProjectId(c, tables) == Ok(Some(n)) <==> Gives(c, n)
    ensures LegacyProjectId(c, tables) == Ok(None) <==>
      !Unusable(c.projects) && !SomeOwnerless(tables) && forall n :: !Gives(c, n)
    ensures LegacyProjectId(c, tables) == Refused(InvalidProjects) <==> Unusable(c.projects)
    ensures LegacyProjectId(c, tables) == Refused(NoOwner) <==>
      c.projects.Blank? && SomeOwnerless(tables) && forall n :: !Gives(c, n)
    ensures LegacyProjectId(c, tables) == Refused(OwnerNotListed) <==>
      !c.projects.Blank? && !Unusable(c.projects) && SomeOwnerless(tables) && forall n :: !Gives(c, n)
  {
    OwnerIsNamed(c, tables);
    OwnerlessMeans(tables);
    forall n ensures Gives(c, n) <==> Names(c, n) {
      GivesIsNames(c, n);
      if Names(c, n) {
        NamesArePositive(c, n);
      }
    }
    if c.legacyId.Some? && c.parseInt(c.legacyId.value).Some? {
      var n := c.parseInt(c.legacyId.value).value;
      assert Gives(c, n) <==> Names(c, n);
      assert forall m :: Gives(c, m) ==> m == n;
    }
  }

  /** A missing, unreadable or non-positive legacy id never becomes an owner. */
  lemma NoIdNoOwner(c: Config, tables: Tables, n: int)
    requires c.legacyId.None? || c.parseInt(c.legacyId.value).None? || c.parseInt(c.legacyId.value).value <= 0
    ensures LegacyProjectId(c, tables) != Ok(Some(n))
    ensures SomeOwnerless(tables) ==> LegacyProjectId(c, tables).Refused?
  {
    ResolvedOwner(c, tables);
  }

  // Two rows of one key in a table, one of project 0 and one of project n.
  ghost predicate Clash(tables: Tables, n: int) {
    exists t: Name, i, j :: t in tables && tables[t].Scoped? && 0 <= i < |tables[t].rows| && 0 <= j < |tables[t].rows| &&
      tables[t].rows[i].projectId == 0 && tables[t].rows[j].projectId == n && tables[t].rows[i].key == tables[t].rows[j].key
  }

  lemma ClashMeans(tables: Tables, n: int)
    ensures SomeConflict(tables, n) <==> Clash(tables, n)
  {
    if SomeConflict(tables, n) {
      var t: Name :| t in tables && tables[t].Scoped? && Conflicts(tables[t].rows, n);
      var i, j :| 0 <= i < |tables[t].rows| && 0 <= j < |tables[t].rows| &&
        tables[t].rows[i].projectId == 0 && tables[t].rows[j].projectId == n && tables[t].rows[i].key == tables[t].rows[j].key;
    }
    if Clash(tables, n) {
      var t: Name, i, j :| t in tables && tables[t].Scoped? && 0 <= i < |tables[t].rows| && 0 <= j < |tables[t].rows| &&
        tables[t].rows[i].projectId == 0 && tables[t].rows[j].projectId == n && tables[t].rows[i].key == tables[t].rows[j].key;
      assert Conflicts(tables[t].rows, n);
    }
  }

  /**
   The backfill with the owner the settings give: it refuses exactly at a clash, and
   otherwise every row of project 0 has that very id afterwards and no other changes.
   */
  lemma BackfillWithOwner(c: Config, tables: Tables, n: int)
    requires Gives(c, n)
    ensures BackfillLegacyProject(c, tables).Ok? <==> !Clash(tables, n)
    ensures BackfillLegacyProject(c, tables).Refused? ==> BackfillLegacyProject(c, tables).why == KeyConflict
    ensures BackfillLegacyProject(c, tables).Ok? ==>
      && BackfillLegacyProject(c, tables).value.Keys == tables.Keys
      && forall t: Name :: t in tables ==> Reowned(tables[t], BackfillLegacyProject(c, tables).value[t], n)
  {
    ResolvedOwner(c, tables);
    BackfillAllUnassigned(tables, n);
    ClashMeans(tables, n);
    if BackfillLegacyProject(c, tables).Ok? {
      var done := BackfillLegacyProject(c, tables).value;
      forall t: Name | t in tables ensures Reowned(tables[t], done[t], n) {
        NoZeroLeft(tables, done, n, t);
      }
    }
  }
}
