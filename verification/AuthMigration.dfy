/** The transactional copy and its verification in auth-migration.cc. */
module AuthMigration {
  import opened Collections
  import opened ByteStrings
  import opened RowStream

  type Record = map<string, Value>

  /** An INTEGER PRIMARY KEY. */
  datatype Id = Id(value: int)

  /** A table with an integer primary key `id`; a missing table has no columns. */
  datatype Table = Table(columns: seq<string>, rows: map<Id, Record>) {
    ghost predicate Valid() {
      forall id :: id in rows ==> rows[id].Keys == set c | c in columns
    }
  }

  /** refresh_token, device_login_challenge, device_credential. */
  const TableCount := 3

  /** Where SQLite may refuse: the statements of the copy and the reads of the verification. */
  datatype Fault = OnBegin | OnColumns(table: nat) | OnInsert(table: nat) | OnCommit | OnHash(table: nat)

  // ----- one table -----

  predicate Covered(src: Table, dst: Table) {
    forall c :: c in src.columns ==> c in dst.columns
  }

  /** A new row: the source's columns, and `fill` for the columns only the target has. */
  function NewRecord(r: Record, src: Table, dst: Table, fill: string -> Value): Record {
    map c | c in dst.columns :: if c in src.columns && c in r then r[c] else fill(c)
  }

  /** `INSERT INTO main ... SELECT ... FROM src WHERE NOT EXISTS (... m.id = s.id)`. */
  function Merge(src: Table, dst: Table, fill: string -> Value): Table {
    dst.(rows := dst.rows + map id | id in src.rows && id !in dst.rows :: NewRecord(src.rows[id], src, dst, fill))
  }

  /** Rows that were there are untouched; the source's other rows are there with their values. */
  lemma MergeKeeps(src: Table, dst: Table, fill: string -> Value)
    requires src.Valid() && dst.Valid() && Covered(src, dst)
    ensures
      var m := Merge(src, dst, fill);
      && m.Valid() && m.columns == dst.columns && m.rows.Keys == src.rows.Keys + dst.rows.Keys
      && (forall id :: id in dst.rows ==> m.rows[id] == dst.rows[id])
      && (forall id, c :: id in src.rows && id !in dst.rows && c in src.columns ==> m.rows[id][c] == src.rows[id][c])
  {
  }

  /** A second copy changes nothing. */
  lemma MergeTwice(src: Table, dst: Table, fill: string -> Value, fill2: string -> Value)
    ensures Merge(src, Merge(src, dst, fill), fill2) == Merge(src, dst, fill)
  {
    var m := Merge(src, dst, fill);
    assert Merge(src, m, fill2).rows == m.rows;
  }

  // ----- the checksummed selections -----

  predicate Before(a: Id, b: Id) {
    a.value <= b.value
  }

  function Least(s: set<Id>): (m: Id)
    requires s != {}
    ensures IsLeast(m, s, Before)
  {
    HasLeast(s, Before);
    var m :| IsLeast(m, s, Before);
    m
  }

  /** `ORDER BY id`. */
  function Ascending(s: set<Id>): (r: seq<Id>)
    ensures forall id :: id in r <==> id in s
    ensures forall i, j :: 0 <= i < j < |r| ==> r[i].value < r[j].value
    decreases s
  {
    if s == {} then [] else var m := Least(s); [m] + Ascending(s - {m})
  }

  predicate HasAll(r: Record, columns: seq<string>) {
    forall k :: 0 <= k < |columns| ==> columns[k] in r
  }

  predicate HasRows(t: Table, ids: seq<Id>, columns: seq<string>) {
    forall k :: 0 <= k < |ids| ==> ids[k] in t.rows && HasAll(t.rows[ids[k]], columns)
  }

  function Project(r: Record, columns: seq<string>): (row: Row)
    requires HasAll(r, columns)
    ensures |row| == |columns|
  {
    seq(|columns|, i requires 0 <= i < |columns| => r[columns[i]])
  }

  function Select(t: Table, ids: seq<Id>, columns: seq<string>): (rows: seq<Row>)
    requires HasRows(t, ids, columns)
    ensures |rows| == |ids|
  {
    seq(|ids|, i requires 0 <= i < |ids| => Project(t.rows[ids[i]], columns))
  }

  lemma RowsThere(src: Table, t: Table, ids: set<Id>)
    requires t.Valid() && Covered(src, t) && ids <= t.rows.Keys
    ensures HasRows(t, Ascending(ids), src.columns)
  {
    var list := Ascending(ids);
    forall k | 0 <= k < |list|
      ensures list[k] in t.rows && HasAll(t.rows[list[k]], src.columns)
    {
      assert list[k] in list;
    }
  }

  /** `scopedSelect` of the source, and of the target within the source's ids. */
  function SourceRows(src: Table): (rows: seq<Row>)
    requires src.Valid()
    ensures |rows| == |Ascending(src.rows.Keys)|
  {
    assert HasRows(src, Ascending(src.rows.Keys), src.columns) by { RowsThere(src, src, src.rows.Keys); }
    Select(src, Ascending(src.rows.Keys), src.columns)
  }

  function TargetRows(src: Table, dst: Table): (rows: seq<Row>)
    requires dst.Valid() && Covered(src, dst)
    ensures |rows| == |Ascending(dst.rows.Keys * src.rows.Keys)|
  {
    assert HasRows(dst, Ascending(dst.rows.Keys * src.rows.Keys), src.columns) by {
      RowsThere(src, dst, dst.rows.Keys * src.rows.Keys);
    }
    Select(dst, Ascending(dst.rows.Keys * src.rows.Keys), src.columns)
  }

  /** Where both tables have a row, it has the same values in the source's columns. */
  ghost predicate Agree(src: Table, dst: Table) {
    forall id, c :: id in src.rows && id in dst.rows && c in src.columns && c in src.rows[id] && c in dst.rows[id] ==>
      src.rows[id][c] == dst.rows[id][c]
  }

  lemma {:induction false} AgreeSelectsSame(src: Table, dst: Table, ids: seq<Id>)
    requires HasRows(src, ids, src.columns) && HasRows(dst, ids, src.columns) && Agree(src, dst)
    ensures Select(src, ids, src.columns) == Select(dst, ids, src.columns)
  {
    forall i | 0 <= i < |ids|
      ensures Project(src.rows[ids[i]], src.columns) == Project(dst.rows[ids[i]], src.columns)
    {
      forall k | 0 <= k < |src.columns|
        ensures src.rows[ids[i]][src.columns[k]] == dst.rows[ids[i]][src.columns[k]]
      {
        var id, c := ids[i], src.columns[k];
        assert c in src.columns && c in src.rows[id] && c in dst.rows[id];
        assert src.rows[id][c] == dst.rows[id][c];
      }
    }
  }

  lemma {:induction false} SameSelectionAgrees(src: Table, dst: Table, ids: seq<Id>)
    requires HasRows(src, ids, src.columns) && HasRows(dst, ids, src.columns)
    requires forall id :: id in src.rows ==> id in ids
    requires Select(src, ids, src.columns) == Select(dst, ids, src.columns)
    ensures Agree(src, dst)
  {
    var s, t := Select(src, ids, src.columns), Select(dst, ids, src.columns);
    forall id, c | id in src.rows && id in dst.rows && c in src.columns && c in src.rows[id] && c in dst.rows[id]
      ensures src.rows[id][c] == dst.rows[id][c]
    {
      var i :| 0 <= i < |ids| && ids[i] == id;
      var k :| 0 <= k < |src.columns| && src.columns[k] == c;
      assert s[i] == Project(src.rows[id], src.columns) && t[i] == Project(dst.rows[id], src.columns);
      assert s[i][k] == t[i][k];
    }
  }

  /** The two selections are the same rows exactly when the tables agree, once all ids are present. */
  lemma {:induction false} SelectionsAgree(src: Table, dst: Table)
    requires src.Valid() && dst.Valid() && Covered(src, dst) && src.rows.Keys <= dst.rows.Keys
    ensures SourceRows(src) == TargetRows(src, dst) <==> Agree(src, dst)
  {
    var ids := Ascending(src.rows.Keys);
    assert dst.rows.Keys * src.rows.Keys == src.rows.Keys;
    RowsThere(src, src, src.rows.Keys);
    RowsThere(src, dst, src.rows.Keys);
    if Agree(src, dst) {
      AgreeSelectsSame(src, dst, ids);
    }
    if SourceRows(src) == TargetRows(src, dst) {
      SameSelectionAgrees(src, dst, ids);
    }
  }

  /** After the copy, the tables agree exactly when the old target agreed with the source. */
  lemma MergedAgree(src: Table, dst: Table, fill: string -> Value)
    requires src.Valid() && dst.Valid() && Covered(src, dst)
    ensures Agree(src, Merge(src, dst, fill)) <==> Agree(src, dst)
  {
    MergeKeeps(src, dst, fill);
    var m := Merge(src, dst, fill);
    if Agree(src, m) {
      forall id, c | id in src.rows && id in dst.rows && c in src.columns && c in src.rows[id] && c in dst.rows[id]
        ensures src.rows[id][c] == dst.rows[id][c]
      {
        assert m.rows[id] == dst.rows[id];
      }
    }
  }

  // ----- verification -----

  /** The comparison `verifyAuthTables` makes for one table: row counts and checksums. */
  predicate SameSums(src: Table, dst: Table, digest: Bytes -> string)
    requires src.Valid() && dst.Valid() && Covered(src, dst)
  {
    var s, t := SourceRows(src), TargetRows(src, dst);
    |s| == |t| && digest(RowsBytes(s)) == digest(RowsBytes(t))
  }

  /** The digest tells the streams of the two selections apart if they differ, and both are plain. */
  ghost predicate Distinguished(src: Table, dst: Table, digest: Bytes -> string) {
    && src.Valid() && dst.Valid() && Covered(src, dst)
    && var s, t := SourceRows(src), TargetRows(src, dst);
       && PlainRows(s) && PlainRows(t)
       && (digest(RowsBytes(s)) == digest(RowsBytes(t)) ==> RowsBytes(s) == RowsBytes(t))
  }

  lemma {:induction false} AscendingSize(s: set<Id>)
    ensures |Ascending(s)| == |s|
    decreases s
  {
    if s != {} {
      AscendingSize(s - {Least(s)});
    }
  }

  lemma {:induction false} SameSize(a: set<Id>, b: set<Id>)
    requires a <= b && |a| == |b|
    ensures a == b
    decreases |b|
  {
    if x :| x in b && x !in a {
      assert a <= b - {x};
      SizeOfPart(a, b - {x});
    }
  }

  lemma {:induction false} SizeOfPart(a: set<Id>, b: set<Id>)
    requires a <= b
    ensures |a| <= |b|
    decreases |a|
  {
    if x :| x in a {
      SizeOfPart(a - {x}, b - {x});
    }
  }

  /** Whatever the digest, equal counts mean that no row of the source is missing. */
  lemma {:induction false} MissingRefused(src: Table, dst: Table, digest: Bytes -> string)
    requires src.Valid() && dst.Valid() && Covered(src, dst) && SameSums(src, dst, digest)
    ensures src.rows.Keys <= dst.rows.Keys
  {
    hide RowsBytes, Ascending;
    AscendingSize(src.rows.Keys);
    AscendingSize(dst.rows.Keys * src.rows.Keys);
    SameSize(dst.rows.Keys * src.rows.Keys, src.rows.Keys);
  }

  /** Then the comparison is agreement of the tables. */
  lemma SumsDecide(src: Table, dst: Table, digest: Bytes -> string)
    requires Distinguished(src, dst, digest) && src.rows.Keys <= dst.rows.Keys
    ensures SameSums(src, dst, digest) <==> Agree(src, dst)
  {
    hide RowsBytes, PlainRows, Agree, Ascending;
    SelectionsAgree(src, dst);
    if SameSums(src, dst, digest) {
      StreamDecodes(SourceRows(src), TargetRows(src, dst), |src.columns|);
    }
  }

  // ----- the three tables -----

  predicate Complete(src: Table, dst: Table) {
    src.columns != [] && Covered(src, dst)
  }

  function MergeAll(source: seq<Table>, tables: seq<Table>, n: nat, fill: string -> Value): (r: seq<Table>)
    requires n <= |source| == |tables|
    ensures |r| == |tables|
    ensures forall i :: 0 <= i < |tables| ==> r[i] == if i < n then Merge(source[i], tables[i], fill) else tables[i]
  {
    seq(|tables|, i requires 0 <= i < |tables| => if i < n then Merge(source[i], tables[i], fill) else tables[i])
  }

  ghost predicate AllValid(tables: seq<Table>) {
    |tables| == TableCount && forall i :: 0 <= i < TableCount ==> tables[i].Valid()
  }

  /** Every row of the source has its id in the target. */
  predicate HoldsAll(source: seq<Table>, tables: seq<Table>) {
    |source| == |tables| && forall i :: 0 <= i < |source| ==> source[i].rows.Keys <= tables[i].rows.Keys
  }

  /** After a copy it holds them all, and then no copy changes it, whatever it would fill in. */
  lemma {:induction false} CopyTwice(source: seq<Table>, tables: seq<Table>, fill: string -> Value)
    requires |source| == |tables|
    ensures HoldsAll(source, MergeAll(source, tables, |source|, fill))
    ensures HoldsAll(source, tables) ==> MergeAll(source, tables, |source|, fill) == tables
  {
    var merged := MergeAll(source, tables, |source|, fill);
    if HoldsAll(source, tables) {
      forall i | 0 <= i < |tables|
        ensures merged[i] == tables[i]
      {
        assert merged[i].rows == tables[i].rows;
      }
    }
  }

  /** The copy goes through: no statement is refused, and every table is there with the source's columns. */
  predicate Commits(source: seq<Table>, tables: seq<Table>, faults: set<Fault>)
    requires |source| == |tables| == TableCount
  {
    && OnBegin !in faults && OnCommit !in faults
    && forall i: nat :: i < TableCount ==>
         OnColumns(i) !in faults && OnInsert(i) !in faults && Complete(source[i], tables[i])
  }

  /** Every row of the source is in the target with its values. */
  ghost predicate Arrived(source: seq<Table>, tables: seq<Table>) {
    |source| == |tables| && forall i :: 0 <= i < |source| ==> TableArrived(source[i], tables[i])
  }

  /** What `verifyAuthTables` accepts. */
  ghost predicate Verified(source: seq<Table>, tables: seq<Table>, digest: Bytes -> string, faults: set<Fault>)
    requires AllValid(source) && AllValid(tables)
  {
    forall i: nat :: i < TableCount ==> TableVerified(source[i], tables[i], digest, faults, i)
  }

  predicate TableVerified(src: Table, dst: Table, digest: Bytes -> string, faults: set<Fault>, i: nat)
    requires src.Valid() && dst.Valid()
  {
    && src.columns != [] && dst.columns != [] && Covered(src, dst)
    && OnHash(i) !in faults && SameSums(src, dst, digest)
  }

  /** Whatever the digest, what is accepted has every row of the source. */
  lemma {:induction false} VerifiedHolds(source: seq<Table>, tables: seq<Table>, digest: Bytes -> string, faults: set<Fault>)
    requires AllValid(source) && AllValid(tables) && Verified(source, tables, digest, faults)
    ensures HoldsAll(source, tables)
  {
    hide SameSums;
    forall i | 0 <= i < |source|
      ensures source[i].rows.Keys <= tables[i].rows.Keys
    {
      assert TableVerified(source[i], tables[i], digest, faults, i);
      MissingRefused(source[i], tables[i], digest);
    }
  }

  class Target {
    var tables: seq<Table>
    var saved: seq<Table>

    constructor (tables: seq<Table>)
      ensures this.tables == tables
    {
      this.tables, saved := tables, tables;
    }

    /** `copyAuthTables`: all three tables or none. */
    method CopyAuthTables(source: seq<Table>, fill: string -> Value, faults: set<Fault>) returns (ok: bool)
      requires |source| == |tables| == TableCount
      modifies this
      ensures ok ==> tables == MergeAll(source, old(tables), TableCount, fill)
      ensures !ok ==> tables == old(tables)
      ensures ok ==> HoldsAll(source, tables)
      ensures HoldsAll(source, old(tables)) ==> tables == old(tables)
      ensures ok <==> Commits(source, old(tables), faults)
    {
      if OnBegin in faults {
        return false;
      }
      saved := tables;
      for i := 0 to TableCount
        invariant saved == old(tables) && tables == MergeAll(source, saved, i, fill)
        invariant forall k: nat :: k < i ==>
          OnColumns(k) !in faults && OnInsert(k) !in faults && Complete(source[k], saved[k])
      {
        if OnColumns(i) in faults || source[i].columns == [] {
          tables := saved;
          return false;
        }
        if OnInsert(i) in faults || !Covered(source[i], tables[i]) {
          tables := saved;
          return false;
        }
        tables := tables[i := Merge(source[i], tables[i], fill)];
      }
      if OnCommit in faults {
        tables := saved;
        return false;
      }
      CopyTwice(source, saved, fill);
      return true;
    }

    /** `verifyAuthTables`, table by table until one fails. */
    method VerifyAuthTables(source: seq<Table>, digest: Bytes -> string, faults: set<Fault>) returns (ok: bool)
      requires AllValid(source) && AllValid(tables)
      ensures ok <==> Verified(source, tables, digest, faults)
      ensures ok ==> HoldsAll(source, tables)
    {
      for i := 0 to TableCount
        invariant forall k: nat :: k < i ==> TableVerified(source[k], tables[k], digest, faults, k)
      {
        var src, dst := source[i], tables[i];
        if src.columns == [] || dst.columns == [] {
          return false;
        }
        if !Covered(src, dst) {
          return false;
        }
        if OnHash(i) in faults {
          return false;
        }
        var sourceRows, sourceSum := HashRows(SourceRows(src), digest);
        var targetRows, targetSum := HashRows(TargetRows(src, dst), digest);
        if sourceRows != targetRows || sourceSum != targetSum {
          return false;
        }
      }
      VerifiedHolds(source, tables, digest, faults);
      return true;
    }

    /** `migrateAuth` once both databases are open. */
    method MigrateAuth(source: seq<Table>, fill: string -> Value, digest: Bytes -> string, faults: set<Fault>)
      returns (ok: bool)
      requires AllValid(source) && AllValid(tables)
      modifies this
      ensures tables == if Commits(source, old(tables), faults)
        then MergeAll(source, old(tables), TableCount, fill) else old(tables)
      ensures AllValid(tables) && (ok <==> Commits(source, old(tables), faults) && Verified(source, tables, digest, faults))
      ensures Commits(source, old(tables), faults) ==> HoldsAll(source, tables)
      ensures HoldsAll(source, old(tables)) ==> tables == old(tables)
      ensures forall i, id :: 0 <= i < TableCount && id in old(tables)[i].rows ==>
        id in tables[i].rows && tables[i].rows[id] == old(tables)[i].rows[id]
      ensures (Commits(source, old(tables), faults)
        && forall i: nat :: i < TableCount ==> OnHash(i) !in faults && Agree(source[i], old(tables)[i])) ==>
        ok && Arrived(source, tables)
      ensures (Commits(source, old(tables), faults)
        && forall i: nat :: i < TableCount ==> OnHash(i) !in faults && Distinguished(source[i], tables[i], digest)) ==>
        (ok <==> forall i :: 0 <= i < TableCount ==> Agree(source[i], old(tables)[i]))
    {
      var copied := CopyAuthTables(source, fill, faults);
      if !copied {
        return false;
      }
      forall i | 0 <= i < TableCount
        ensures tables[i].Valid() && tables[i].columns != [] && Covered(source[i], tables[i])
        ensures Agree(source[i], old(tables)[i]) ==> SameSums(source[i], tables[i], digest)
        ensures Agree(source[i], old(tables)[i]) ==> TableArrived(source[i], tables[i])
        ensures Distinguished(source[i], tables[i], digest) ==>
          (SameSums(source[i], tables[i], digest) <==> Agree(source[i], old(tables)[i]))
        ensures forall id :: id in old(tables)[i].rows ==>
          id in tables[i].rows && tables[i].rows[id] == old(tables)[i].rows[id]
      {
        assert Complete(source[i], old(tables)[i]);
        assert source[i].columns[0] in old(tables)[i].columns;
        MergeKeeps(source[i], old(tables)[i], fill);
        MergedAgree(source[i], old(tables)[i], fill);
        SelectionsAgree(source[i], tables[i]);
        if Agree(source[i], old(tables)[i]) {
          AgreedArrives(source[i], tables[i]);
        }
        if Distinguished(source[i], tables[i], digest) {
          SumsDecide(source[i], tables[i], digest);
        }
      }
      ok := VerifyAuthTables(source, digest, faults);
    }
  }

  ghost predicate TableArrived(src: Table, dst: Table) {
    forall id, c :: id in src.rows && c in src.rows[id] ==>
      id in dst.rows && c in dst.rows[id] && dst.rows[id][c] == src.rows[id][c]
  }

  lemma {:induction false} AgreedArrives(src: Table, dst: Table)
    requires src.Valid() && dst.Valid() && Covered(src, dst) && src.rows.Keys <= dst.rows.Keys && Agree(src, dst)
    ensures TableArrived(src, dst)
  {
    forall id, c | id in src.rows && c in src.rows[id]
      ensures id in dst.rows && c in dst.rows[id] && dst.rows[id][c] == src.rows[id][c]
    {
      assert c in src.columns && c in dst.columns;
    }
  }
}
