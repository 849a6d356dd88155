/**
 What the digests of the archive prove: a raw digest stands for a set of rows
 whatever order they are read in, and a batch digest stands for the manifest
 context, the source and that set. SHA-256 is taken to be free of collisions
 where a lemma says so.
 */
module ArchiveDigests {
  import opened Sequences
  import opened RetryArchive
  import JsonText

  ghost predicate Injective(hash: string -> string) {
    forall a, b :: hash(a) == hash(b) ==> a == b
  }

  function RowIds(rows: seq<Row>): seq<int> {
    seq(|rows|, i requires 0 <= i < |rows| => IdOf(rows[i]))
  }

  // ---------- the JSON form of rows ----------

  lemma RowJsonInjective(a: Row, b: Row)
    requires RowJson(a) == RowJson(b)
    ensures a == b
  {
    assert |RowJson(a).items| == |a| && |RowJson(b).items| == |b|;
    forall i | 0 <= i < |a| ensures a[i] == b[i] {
      assert ValueJson(a[i]) == RowJson(a).items[i] == RowJson(b).items[i] == ValueJson(b[i]);
    }
  }

  lemma RowsJsonInjective(a: seq<Row>, b: seq<Row>)
    requires RowsJson(a) == RowsJson(b)
    ensures a == b
  {
    assert |RowsJson(a).items| == |a| && |RowsJson(b).items| == |b|;
    forall i | 0 <= i < |a| ensures a[i] == b[i] {
      assert RowJson(a[i]) == RowsJson(a).items[i] == RowsJson(b).items[i] == RowJson(b[i]);
      RowJsonInjective(a[i], b[i]);
    }
  }

  // ---------- sorting by id ----------

  ghost predicate Sorted(rows: seq<Row>) {
    forall i, j :: 0 <= i < j < |rows| ==> IdOf(rows[i]) <= IdOf(rows[j])
  }

  lemma {:induction false} InsertSortedKeeps(row: Row, sorted: seq<Row>)
    ensures multiset(InsertSorted(row, sorted)) == multiset{row} + multiset(sorted)
  {
    if sorted != [] && IdOf(row) > IdOf(sorted[0]) {
      InsertSortedKeeps(row, sorted[1..]);
      assert sorted == [sorted[0]] + sorted[1..];
    }
  }

  lemma {:induction false} InsertSortedSorts(row: Row, sorted: seq<Row>)
    requires Sorted(sorted)
    ensures Sorted(InsertSorted(row, sorted))
  {
    if sorted != [] && IdOf(row) > IdOf(sorted[0]) {
      var rest := InsertSorted(row, sorted[1..]);
      InsertSortedSorts(row, sorted[1..]);
      InsertSortedKeeps(row, sorted[1..]);
      forall i | 0 <= i < |rest| ensures IdOf(sorted[0]) <= IdOf(rest[i]) {
        assert rest[i] in multiset(rest);
        assert rest[i] == row || rest[i] in sorted[1..];
      }
    }
  }

  lemma {:induction false} SortByIdFacts(rows: seq<Row>)
    ensures Sorted(SortById(rows))
    ensures multiset(SortById(rows)) == multiset(rows)
    ensures SameElements(SortById(rows), rows)
  {
    if rows != [] {
      SortByIdFacts(rows[1..]);
      InsertSortedKeeps(rows[0], SortById(rows[1..]));
      InsertSortedSorts(rows[0], SortById(rows[1..]));
      assert rows == [rows[0]] + rows[1..];
    }
    forall x ensures x in SortById(rows) <==> x in rows {
      assert x in SortById(rows) <==> x in multiset(SortById(rows));
      assert x in rows <==> x in multiset(rows);
    }
  }

  ghost predicate StrictlySorted(rows: seq<Row>) {
    forall i, j :: 0 <= i < j < |rows| ==> IdOf(rows[i]) < IdOf(rows[j])
  }

  lemma SortIsStrict(rows: seq<Row>)
    requires Distinct(RowIds(rows))
    ensures StrictlySorted(SortById(rows))
  {
    var sorted := SortById(rows);
    SortByIdFacts(rows);
    forall i, j | 0 <= i < j < |sorted| ensures IdOf(sorted[i]) < IdOf(sorted[j]) {
      if IdOf(sorted[i]) == IdOf(sorted[j]) {
        OncePerId(rows, sorted[i], sorted[j]);
        TwiceCounts(sorted, i, j);
        AtMostOnce(rows, sorted[i]);
      }
    }
  }

  lemma TwiceCounts(rows: seq<Row>, i: nat, j: nat)
    requires i < j < |rows| && rows[i] == rows[j]
    ensures multiset(rows)[rows[i]] >= 2
  {
    var a, b := rows[..j], rows[j..];
    assert rows == a + b && a[i] == rows[i] && b[0] == rows[j];
    assert a[i] in multiset(a) && b[0] in multiset(b);
    assert multiset(rows) == multiset(a) + multiset(b);
  }

  lemma OncePerId(rows: seq<Row>, a: Row, b: Row)
    requires Distinct(RowIds(rows)) && a in rows && b in rows && IdOf(a) == IdOf(b)
    ensures a == b
  {
    var i :| 0 <= i < |rows| && rows[i] == a;
    var j :| 0 <= j < |rows| && rows[j] == b;
    assert RowIds(rows)[i] == RowIds(rows)[j];
  }

  lemma {:induction false} AtMostOnce(rows: seq<Row>, a: Row)
    requires Distinct(RowIds(rows))
    ensures multiset(rows)[a] <= 1
  {
    if rows != [] {
      assert rows == [rows[0]] + rows[1..];
      assert forall i :: 0 <= i < |rows| - 1 ==> RowIds(rows[1..])[i] == RowIds(rows)[i + 1];
      AtMostOnce(rows[1..], a);
      assert forall i :: 0 <= i < |rows[1..]| ==> RowIds(rows)[0] != RowIds(rows)[i + 1] == IdOf(rows[1..][i]);
      assert rows[0] !in rows[1..];
    }
  }

  lemma {:induction false} StrictlySortedUnique(a: seq<Row>, b: seq<Row>)
    requires StrictlySorted(a) && StrictlySorted(b) && SameElements(a, b)
    ensures a == b
  {
    Nonempty(a);
    Nonempty(b);
    if a != [] && b != [] {
      assert a[0] in b && b[0] in a;
      assert a[0] == b[0];
      forall x ensures x in a[1..] <==> x in b[1..] {
        assert x in a <==> x == a[0] || x in a[1..];
        assert x in b <==> x == b[0] || x in b[1..];
        assert a[0] !in a[1..] && b[0] !in b[1..];
      }
      StrictlySortedUnique(a[1..], b[1..]);
      assert a == [a[0]] + a[1..] && b == [b[0]] + b[1..];
    }
  }

  // ---------- main results ----------

  /** Reading the same rows in another order gives the same digest. */
  lemma DigestIgnoresOrder(e: Env, a: seq<Row>, b: seq<Row>)
    requires Distinct(RowIds(a)) && Distinct(RowIds(b)) && SameElements(a, b)
    ensures Digest(e, a) == Digest(e, b)
  {
    SortByIdFacts(a);
    SortByIdFacts(b);
    SortIsStrict(a);
    SortIsStrict(b);
    forall x ensures x in SortById(a) <==> x in SortById(b) {
      assert x in SortById(a) <==> x in a;
      assert x in SortById(b) <==> x in b;
    }
    StrictlySortedUnique(SortById(a), SortById(b));
  }

  /** A digest stands for exactly one set of rows. */
  lemma DigestCanonical(e: Env, a: seq<Row>, b: seq<Row>)
    requires Injective(e.hash)
    requires Distinct(RowIds(a)) && Distinct(RowIds(b))
    ensures Digest(e, a) == Digest(e, b) <==> SameElements(a, b)
  {
    if Digest(e, a) == Digest(e, b) {
      DigestDetermines(e, a, b);
    }
    if SameElements(a, b) {
      DigestIgnoresOrder(e, a, b);
    }
  }

  lemma DigestDetermines(e: Env, a: seq<Row>, b: seq<Row>)
    requires Injective(e.hash) && Digest(e, a) == Digest(e, b)
    ensures SameElements(a, b)
  {
    var p, q := RowsJson(SortById(a)), RowsJson(SortById(b));
    JsonText.TextInjective(p, q);
    RowsJsonInjective(SortById(a), SortById(b));
    SortByIdFacts(a);
    SortByIdFacts(b);
    forall x ensures x in a <==> x in b {
      assert x in SortById(a) <==> x in a;
      assert x in SortById(b) <==> x in b;
    }
  }

  // The manifest up to its two digests.
  ghost predicate SameContext(m: Manifest, m': Manifest) {
    && m.archiveId == m'.archiveId
    && m.owner == m'.owner
    && m.formatVersion == m'.formatVersion
    && m.sourceRevision == m'.sourceRevision
    && m.targetRevision == m'.targetRevision
    && m.sourceSchema == m'.sourceSchema
    && (forall s :: m.sides.At(s).count == m'.sides.At(s).count && m.sides.At(s).highWater == m'.sides.At(s).highWater)
  }

  lemma ContextDetermines(m: Manifest, m': Manifest)
    ensures Context(m) == Context(m') <==> SameContext(m, m')
  {
    var a, b := Context(m).fields, Context(m').fields;
    if Context(m) == Context(m') {
      assert forall i :: 0 <= i < 10 ==> a[i] == b[i];
      assert a[0] == b[0] && a[1] == b[1] && a[2] == b[2] && a[3] == b[3] && a[4] == b[4];
      assert a[5] == b[5] && a[6] == b[6] && a[7] == b[7] && a[8] == b[8] && a[9] == b[9];
    }
    if SameContext(m, m') {
      assert m.sides.At(Retry).count == m'.sides.At(Retry).count;
      assert m.sides.At(Dlq).count == m'.sides.At(Dlq).count;
    }
  }

  /** A batch digest binds the manifest context, the source and the rows. */
  lemma BatchDigestBinds(e: Env, m: Manifest, s: Source, rows: seq<Row>, m': Manifest, s': Source, rows': seq<Row>)
    requires Injective(e.hash)
    requires Distinct(RowIds(rows)) && Distinct(RowIds(rows'))
    ensures BatchDigest(e, m, s, rows) == BatchDigest(e, m', s', rows')
      <==> SameContext(m, m') && s == s' && SameElements(rows, rows')
  {
    var p, q := [Context(m), JsonText.JStr(SourceName(s)), JsonText.JStr(Digest(e, rows))],
                [Context(m'), JsonText.JStr(SourceName(s')), JsonText.JStr(Digest(e, rows'))];
    ContextDetermines(m, m');
    DigestCanonical(e, rows, rows');
    var t, u := JsonText.Text(JsonText.JArr(p)), JsonText.Text(JsonText.JArr(q));
    JsonText.TextInjective(JsonText.JArr(p), JsonText.JArr(q));
    SplitSame(BOUND, e.hash(t), e.hash(u));
    NamesDiffer(s, s');
    assert p == q <==> p[0] == q[0] && p[1] == q[1] && p[2] == q[2];
  }

  lemma NamesDiffer(s: Source, s': Source)
    ensures SourceName(s) == SourceName(s') <==> s == s'
  {
    assert |SourceName(Retry)| != |SourceName(Dlq)|;
  }

  lemma SchemasDiffer()
    ensures SchemaJson(true) != SchemaJson(false)
  {
    var a, b := ColumnsJson(Columns(Dlq, true)), ColumnsJson(Columns(Dlq, false));
    assert SchemaJson(true).fields[1].value == a && SchemaJson(false).fields[1].value == b;
    assert a.items[6] == ColumnJson(Columns(Dlq, true)[6]) && b.items[6] == ColumnJson(Columns(Dlq, false)[6]);
    assert a.items[6].items[2] != b.items[6].items[2];
  }

  lemma TextsDiffer(a: JsonText.Json, b: JsonText.Json)
    requires a != b
    ensures JsonText.Text(a) != JsonText.Text(b)
  {
    JsonText.TextInjective(a, b);
  }

  /** The two known schema texts differ, so reading one back is unambiguous. */
  lemma SchemaTextsDiffer()
    ensures SchemaText(true) != SchemaText(false)
  {
    SchemasDiffer();
    TextsDiffer(SchemaJson(true), SchemaJson(false));
  }
}
