/** The byte stream that `tableChecksum` of auth-migration.cc hashes, and when it can be decoded. */
module RowStream {
  import opened ByteStrings

  /** The eight bytes of an `int64_t` or a `double` in memory. */
  type Word = w: Bytes | |w| == 8 witness [0, 0, 0, 0, 0, 0, 0, 0]

  datatype Value = Integer(word: Word) | Float(word: Word) | Text(data: Bytes) | Blob(data: Bytes) | Null

  type Row = seq<Value>

  /** SQLITE_INTEGER to SQLITE_NULL. */
  function TypeTag(v: Value): (t: Byte)
    ensures 1 <= t <= 5
  {
    match v
    case Integer(_) => 1
    case Float(_) => 2
    case Text(_) => 3
    case Blob(_) => 4
    case Null => 5
  }

  function Payload(v: Value): Bytes {
    match v
    case Integer(w) => w
    case Float(w) => w
    case Text(d) => d
    case Blob(d) => d
    case Null => []
  }

  function ValueBytes(v: Value): Bytes {
    [TypeTag(v)] + Payload(v)
  }

  function ValuesBytes(vs: seq<Value>): Bytes {
    if vs == [] then [] else ValueBytes(vs[0]) + ValuesBytes(vs[1..])
  }

  /** Row mark, then tag and data of every column; no lengths. */
  function RowBytes(r: Row): Bytes {
    [0] + ValuesBytes(r)
  }

  function RowsBytes(rows: seq<Row>): Bytes {
    if rows == [] then [] else RowBytes(rows[0]) + RowsBytes(rows[1..])
  }

  /** The bytes of a row of one column, by the type of its value; rows follow one another. */
  lemma {:induction false} RowWire(v: Value, rows: seq<Row>)
    ensures RowsBytes([[v]] + rows) ==
      (match v
       case Integer(w) => [0, 1] + w
       case Float(w) => [0, 2] + w
       case Text(d) => [0, 3] + d
       case Blob(d) => [0, 4] + d
       case Null => [0, 5]) + RowsBytes(rows)
  {
    var row: Row := [v];
    assert ([row] + rows)[1..] == rows && row[1..] == [];
    assert ValuesBytes(row) == ValueBytes(v) + [] == ValueBytes(v);
  }

  /** The columns of a row follow one another. */
  lemma {:induction false} ColumnsWire(v: Value, row: Row)
    ensures RowBytes([v] + row) == RowsBytes([[v]]) + RowBytes(row)[1..]
  {
    var one: Row := [v];
    assert ([v] + row)[1..] == row && one[1..] == [] && [one][1..] == [];
    assert ValuesBytes(one) == ValueBytes(v) + [] == ValueBytes(v);
    assert RowsBytes([one]) == RowBytes(one) + [] == RowBytes(one);
  }

  /** The loop of `tableChecksum` over the rows that a statement yields. */
  method HashRows(rows: seq<Row>, digest: Bytes -> string) returns (count: nat, checksum: string)
    ensures count == |rows| && checksum == digest(RowsBytes(rows))
  {
    hide ValueBytes;
    var stream: Bytes := [];
    count := 0;
    assert rows[0..] == rows;
    while count < |rows|
      invariant 0 <= count <= |rows|
      invariant stream + RowsBytes(rows[count..]) == RowsBytes(rows)
    {
      var row := rows[count];
      assert rows[count..][0] == row && rows[count..][1..] == rows[count + 1..];
      ghost var before := stream;
      stream := stream + [0];
      assert row[0..] == row;
      for i := 0 to |row|
        invariant stream + ValuesBytes(row[i..]) == before + RowBytes(row)
      {
        assert row[i..][0] == row[i] && row[i..][1..] == row[i + 1..];
        Assoc(stream, ValueBytes(row[i]), ValuesBytes(row[i + 1..]));
        stream := stream + ValueBytes(row[i]);
      }
      assert row[|row|..] == [];
      assert stream + [] == stream;
      Assoc(before, RowBytes(row), RowsBytes(rows[count + 1..]));
      count := count + 1;
    }
    assert rows[count..] == [];
    assert stream + [] == stream;
    checksum := digest(stream);
  }

  // ----- decoding -----

  /** No byte of a text or a blob looks like a row mark or a type tag. */
  predicate Plain(v: Value) {
    v.Text? || v.Blob? ==> forall i :: 0 <= i < |v.data| ==> v.data[i] > 5
  }

  predicate PlainRow(r: Row) {
    forall i :: 0 <= i < |r| ==> Plain(r[i])
  }

  predicate PlainRows(rows: seq<Row>) {
    forall i :: 0 <= i < |rows| ==> PlainRow(rows[i])
  }

  /** What can follow a value: nothing, a tag or a row mark. */
  predicate Stops(t: Bytes) {
    t == [] || t[0] <= 5
  }

  lemma {:induction false} BodyEnds(a: Bytes, t: Bytes, b: Bytes, u: Bytes)
    requires a + t == b + u && Stops(t) && Stops(u)
    requires (forall i :: 0 <= i < |a| ==> a[i] > 5) && (forall i :: 0 <= i < |b| ==> b[i] > 5)
    ensures a == b && t == u
  {
    var s := a + t;
    assert (forall i :: 0 <= i < |a| ==> s[i] > 5) && (|a| < |s| ==> s[|a|] <= 5);
    assert s == b + u;
    assert (forall i :: 0 <= i < |b| ==> s[i] > 5) && (|b| < |s| ==> s[|b|] <= 5);
    assert |a| == |b|;
    assert s[..|a|] == a && s[..|b|] == b && s[|a|..] == t && s[|b|..] == u;
  }

  lemma {:induction false} ValueEnds(v: Value, t: Bytes, w: Value, u: Bytes)
    requires Plain(v) && Plain(w) && Stops(t) && Stops(u)
    requires ValueBytes(v) + t == ValueBytes(w) + u
    ensures v == w && t == u
  {
    var s := ValueBytes(v) + t;
    assert s[0] == TypeTag(v) == TypeTag(w);
    assert s[1..] == Payload(v) + t;
    assert s[1..] == Payload(w) + u;
    if v.Text? || v.Blob? {
      BodyEnds(Payload(v), t, Payload(w), u);
    } else {
      var n := |Payload(v)|;
      assert s[1..][..n] == Payload(v) && s[1..][..n] == Payload(w);
      assert s[1..][n..] == t && s[1..][n..] == u;
    }
  }

  lemma ValuesStop(vs: seq<Value>, t: Bytes)
    requires Stops(t)
    ensures Stops(ValuesBytes(vs) + t)
  {
    if vs == [] {
      assert ValuesBytes(vs) + t == t;
    }
  }

  lemma {:induction false} ValuesEnd(vs: seq<Value>, t: Bytes, ws: seq<Value>, u: Bytes)
    requires PlainRow(vs) && PlainRow(ws) && |vs| == |ws| && Stops(t) && Stops(u)
    requires ValuesBytes(vs) + t == ValuesBytes(ws) + u
    ensures vs == ws && t == u
    decreases |vs|
  {
    hide ValueBytes, Plain;
    if vs == [] {
      assert ValuesBytes(vs) + t == t && ValuesBytes(ws) + u == u;
    } else {
      var t', u' := ValuesBytes(vs[1..]) + t, ValuesBytes(ws[1..]) + u;
      Assoc(ValueBytes(vs[0]), ValuesBytes(vs[1..]), t);
      Assoc(ValueBytes(ws[0]), ValuesBytes(ws[1..]), u);
      ValuesStop(vs[1..], t);
      ValuesStop(ws[1..], u);
      ValueEnds(vs[0], t', ws[0], u');
      ValuesEnd(vs[1..], t, ws[1..], u);
      assert vs == [vs[0]] + vs[1..] && ws == [ws[0]] + ws[1..];
    }
  }

  lemma RowsStop(rows: seq<Row>)
    ensures Stops(RowsBytes(rows))
  {
    if rows != [] {
      assert RowsBytes(rows)[0] == 0;
    }
  }

  /** For a fixed number of columns, plain rows are uniquely decodable from their stream. */
  lemma {:induction false} StreamDecodes(rows: seq<Row>, others: seq<Row>, columns: nat)
    requires PlainRows(rows) && PlainRows(others)
    requires (forall i :: 0 <= i < |rows| ==> |rows[i]| == columns)
    requires (forall i :: 0 <= i < |others| ==> |others[i]| == columns)
    requires RowsBytes(rows) == RowsBytes(others)
    ensures rows == others
    decreases |rows|
  {
    hide ValuesBytes, PlainRow;
    if rows == [] {
      assert others == [];
    } else {
      assert others != [];
      var r, o, t, u := rows[0], others[0], RowsBytes(rows[1..]), RowsBytes(others[1..]);
      RowsStop(rows[1..]);
      RowsStop(others[1..]);
      var s := RowsBytes(rows);
      assert s[1..] == ValuesBytes(r) + t;
      assert s[1..] == ValuesBytes(o) + u;
      ValuesEnd(r, t, o, u);
      StreamDecodes(rows[1..], others[1..], columns);
      assert rows == [r] + rows[1..] && others == [o] + others[1..];
    }
  }

  /** Without that condition two different two-column rows share one stream. */
  lemma {:induction false} StreamCollides(a: Bytes, b: Bytes)
    ensures
      var one: Row, other: Row := [Text(a), Text(b + [3])], [Text(a + [3] + b), Text([])];
      one != other && RowsBytes([one]) == RowsBytes([other])
  {
    var one: Row, other: Row := [Text(a), Text(b + [3])], [Text(a + [3] + b), Text([])];
    PairBytes(Text(a), Text(b + [3]));
    PairBytes(Text(a + [3] + b), Text([]));
    assert ([3] + a) + ([3] + (b + [3])) == ([3] + (a + [3] + b)) + [3];
    assert one[1] != other[1];
  }

  lemma {:induction false} PairBytes(v: Value, w: Value)
    ensures RowsBytes([[v, w]]) == [0] + (ValueBytes(v) + ValueBytes(w))
  {
    hide ValueBytes;
    var row: Row := [v, w];
    assert row[1..] == [w] && row[1..][1..] == [] && [row][1..] == [];
    assert ValueBytes(w) + [] == ValueBytes(w);
    assert ValuesBytes([w]) == ValueBytes(w);
    assert RowBytes(row) + [] == RowBytes(row);
  }
}
