/** The first-batch schema lock of the tabular sinks. */
module SchemaLock {
  import opened Bytes

  /** The concrete Python types of cell values; `Foreign` stands for every other class. */
  datatype PyType = Int | Float | Str | Bool | Foreign(id: nat)

  datatype Cell = Null | Value(t: PyType, payload: int)

  /** A row dict: distinct keys in insertion order. */
  type Row = seq<(string, Cell)>

  datatype ColumnSpec = ColumnSpec(name: string, pythonType: PyType, nullable: bool)

  predicate IsRow(row: Row) {
    forall i, j :: 0 <= i < j < |row| ==> row[i].0 != row[j].0
  }

  /** `row.get(key)` as an index. */
  function IndexOf(row: Row, key: string): Option<nat> {
    if row == [] then None
    else if row[0].0 == key then Some(0)
    else match IndexOf(row[1..], key) case None => None case Some(i) => Some(i + 1)
  }

  lemma {:induction false} IndexIs(row: Row, key: string)
    ensures IndexOf(row, key).Some? ==> IndexOf(row, key).value < |row| && row[IndexOf(row, key).value].0 == key
    ensures IndexOf(row, key).Some? ==> forall i :: 0 <= i < IndexOf(row, key).value ==> row[i].0 != key
    ensures IndexOf(row, key).None? ==> forall i :: 0 <= i < |row| ==> row[i].0 != key
  {
    if row != [] && row[0].0 != key { IndexIs(row[1..], key); }
  }

  function Get(row: Row, key: string): Cell {
    IndexIs(row, key);
    match IndexOf(row, key) case None => Null case Some(i) => row[i].1
  }

  // ------------------------------------------------------------------ the type lattice

  /** int below float below str; bool and every foreign class below str. */
  predicate Below(a: PyType, b: PyType) { a == b || b == Str || (a == Int && b == Float) }

  predicate Scalar(t: PyType) { !t.Foreign? }

  /** The types of the non-null values of one column. */
  function TypesOf(key: string, rows: seq<Row>): set<PyType> {
    set i | 0 <= i < |rows| && Get(rows[i], key).Value? :: Get(rows[i], key).t
  }

  predicate IsBound(types: set<PyType>, t: PyType) { forall u :: u in types ==> Below(u, t) }

  /** `t` is the least column type above all of `types`; a column with no value is text. */
  ghost predicate IsLeastScalar(types: set<PyType>, t: PyType) {
    && Scalar(t) && IsBound(types, t)
    && (types == {} ==> t == Str)
    && (types != {} ==> forall u :: Scalar(u) && IsBound(types, u) ==> Below(t, u))
  }

  /** One widening step of the inference loop. */
  function Widen(inferred: Option<PyType>, t: PyType): PyType {
    match inferred
    case None => t
    case Some(i) => if i == t then i else if i in {Int, Float} && t in {Int, Float} then Float else Str
  }

  /** What the loop has so far: the least upper bound, foreign classes included. */
  predicate IsJoin(types: set<PyType>, inferred: Option<PyType>) {
    match inferred
    case None => types == {}
    case Some(t) => types != {} && IsBound(types, t) && (t in types || Mixed(types, t))
  }

  /** `str` reached because two of the types have no other common bound. */
  predicate Mixed(types: set<PyType>, t: PyType) {
    t == Str && exists a, b :: a in types && b in types && a != b && !(a in {Int, Float} && b in {Int, Float})
  }

  lemma WidenJoins(types: set<PyType>, inferred: Option<PyType>, t: PyType)
    requires IsJoin(types, inferred)
    ensures IsJoin(types + {t}, Some(Widen(inferred, t)))
  {
  }

  lemma JoinIsLeast(types: set<PyType>, inferred: Option<PyType>)
    requires IsJoin(types, inferred)
    ensures IsLeastScalar(types, match inferred case None => Str case Some(t) => if Scalar(t) then t else Str)
  {
  }

  ghost predicate Inferred(key: string, rows: seq<Row>, spec: ColumnSpec) {
    && spec.name == key
    && IsLeastScalar(TypesOf(key, rows), spec.pythonType)
    && (spec.nullable <==> exists i :: 0 <= i < |rows| && Get(rows[i], key).Null?)
  }

  /** The column type written out: text unless the values are all of one scalar class, or are integers
      and floats and nothing else. */
  lemma ColumnTypeIs(key: string, rows: seq<Row>, spec: ColumnSpec)
    requires Inferred(key, rows, spec)
    ensures spec.pythonType ==
      (var types := TypesOf(key, rows);
       if types == {Int} then Int
       else if types == {Bool} then Bool
       else if types == {Float} || types == {Int, Float} then Float
       else Str)
  {
    var types := TypesOf(key, rows);
    hide TypesOf;
    if types != {} && forall u :: u in types ==> u == Int {
      assert types == {Int} && IsBound(types, Int);
    } else if types != {} && forall u :: u in types ==> u == Bool {
      assert types == {Bool} && IsBound(types, Bool);
    } else if types != {} && forall u :: u in types ==> u in {Int, Float} {
      assert Float in types && IsBound(types, Float);
      assert types == if Int in types then {Int, Float} else {Float};
    }
  }

  /** The inferred column is determined by the rows as a multiset: their order cannot matter. */
  lemma OrderIrrelevant(key: string, rows: seq<Row>, others: seq<Row>, a: ColumnSpec, b: ColumnSpec)
    requires multiset(rows) == multiset(others)
    requires Inferred(key, rows, a) && Inferred(key, others, b)
    ensures a == b
  {
    forall row ensures row in rows <==> row in others {
      assert row in rows <==> row in multiset(rows);
      assert row in others <==> row in multiset(others);
    }
    SameTypes(key, rows, others);
    SameTypes(key, others, rows);
    if a.nullable { var i :| 0 <= i < |rows| && Get(rows[i], key).Null?; assert rows[i] in others; }
    if b.nullable { var i :| 0 <= i < |others| && Get(others[i], key).Null?; assert others[i] in rows; }
  }

  lemma SameTypes(key: string, rows: seq<Row>, others: seq<Row>)
    requires forall row :: row in rows ==> row in others
    ensures TypesOf(key, rows) <= TypesOf(key, others)
  {
    forall t | t in TypesOf(key, rows) ensures t in TypesOf(key, others) {
      var i :| 0 <= i < |rows| && Get(rows[i], key).Value? && Get(rows[i], key).t == t;
      assert rows[i] in others;
      var j :| 0 <= j < |others| && others[j] == rows[i];
    }
  }

  // ------------------------------------------------------------------ column order

  function KeysOf(row: Row): seq<string> { seq(|row|, i requires 0 <= i < |row| => row[i].0) }

  function AllKeys(rows: seq<Row>): seq<string> {
    if rows == [] then [] else AllKeys(rows[..|rows| - 1]) + KeysOf(rows[|rows| - 1])
  }

  predicate Distinct(keys: seq<string>) { forall i, j :: 0 <= i < j < |keys| ==> keys[i] != keys[j] }

  /** The keys without repetitions, in order of first encounter. */
  function FirstSeen(keys: seq<string>): seq<string> {
    if keys == [] then []
    else
      var seen := FirstSeen(keys[..|keys| - 1]);
      var last := keys[|keys| - 1];
      if last in seen then seen else seen + [last]
  }

  lemma FirstSeenSnoc(keys: seq<string>, last: string)
    ensures FirstSeen(keys + [last]) == FirstSeen(keys) + (if last in FirstSeen(keys) then [] else [last])
  {
  }

  lemma AllKeysSnoc(rows: seq<Row>, i: nat)
    requires i < |rows|
    ensures AllKeys(rows[..i + 1]) == AllKeys(rows[..i]) + KeysOf(rows[i])
  {
    assert rows[..i + 1][..i] == rows[..i];
  }

  lemma NoKeys(rows: seq<Row>)
    ensures FirstSeen(AllKeys(rows[..0])) == []
  {
  }

  function FirstIndex(keys: seq<string>, key: string): nat {
    if keys == [] || keys[0] == key then 0 else 1 + FirstIndex(keys[1..], key)
  }

  lemma {:induction false} FirstIndexPrefix(keys: seq<string>, last: string, key: string)
    ensures key in keys ==> FirstIndex(keys + [last], key) == FirstIndex(keys, key) < |keys|
    ensures key !in keys ==> FirstIndex(keys + [last], key) >= |keys|
  {
    if keys != [] {
      assert (keys + [last])[1..] == keys[1..] + [last];
      FirstIndexPrefix(keys[1..], last, key);
    }
  }

  /** Same keys, each once, ordered by where they were first met. */
  lemma {:induction false} FirstSeenOrders(keys: seq<string>)
    ensures var seen := FirstSeen(keys);
      && Distinct(seen) && (forall k :: k in seen <==> k in keys)
      && forall i, j :: 0 <= i < j < |seen| ==> FirstIndex(keys, seen[i]) < FirstIndex(keys, seen[j])
  {
    if keys != [] {
      var front, last := keys[..|keys| - 1], keys[|keys| - 1];
      FirstSeenOrders(front);
      assert keys == front + [last];
      var seen := FirstSeen(keys);
      forall k | k in front || k == last ensures k in front ==> FirstIndex(keys, k) == FirstIndex(front, k) < |front| {
        FirstIndexPrefix(front, last, k);
      }
      FirstIndexPrefix(front, last, last);
      forall i, j | 0 <= i < j < |seen| ensures FirstIndex(keys, seen[i]) < FirstIndex(keys, seen[j]) {
        assert seen[i] in front;
      }
    }
  }

  // ------------------------------------------------------------------ projection

  function Names(columns: seq<ColumnSpec>): seq<string> {
    seq(|columns|, i requires 0 <= i < |columns| => columns[i].name)
  }

  /** Exactly the locked columns, in their order, with the row's values; Null where it has none. */
  function Projected(columns: seq<ColumnSpec>, row: Row): Row {
    seq(|columns|, i requires 0 <= i < |columns| => (columns[i].name, Get(row, columns[i].name)))
  }

  /** The keys of `row` that are new to the schema and to `warned`, in order. */
  function NewUnknown(row: Row, names: set<string>, warned: set<string>): seq<string> {
    if row == [] then []
    else
      var key := row[0].0;
      if key in names || key in warned then NewUnknown(row[1..], names, warned)
      else [key] + NewUnknown(row[1..], names, warned + {key})
  }

  lemma {:induction false} NewUnknownSnoc(row: Row, cell: (string, Cell), names: set<string>, warned: set<string>)
    ensures NewUnknown(row + [cell], names, warned) ==
      NewUnknown(row, names, warned)
      + (if cell.0 in names || cell.0 in warned || cell.0 in NewUnknown(row, names, warned) then [] else [cell.0])
  {
    if row == [] {
      assert ([] + [cell])[1..] == [];
    } else {
      assert (row + [cell])[1..] == row[1..] + [cell];
      var key := row[0].0;
      if key in names || key in warned {
        NewUnknownSnoc(row[1..], cell, names, warned);
      } else {
        NewUnknownSnoc(row[1..], cell, names, warned + {key});
      }
    }
  }

  /** Over the whole run each unknown key was warned about once, and no locked key ever was. */
  predicate WarnedOnce(warnings: seq<string>, warned: set<string>, names: set<string>) {
    Distinct(warnings) && warned == (set k | k in warnings) && warned !! names
  }

  lemma ProjectIdempotent(columns: seq<ColumnSpec>, row: Row, names: set<string>, warned: set<string>)
    requires Distinct(Names(columns)) && (forall i :: 0 <= i < |columns| ==> columns[i].name in names)
    ensures Projected(columns, Projected(columns, row)) == Projected(columns, row)
    ensures NewUnknown(Projected(columns, row), names, warned) == []
  {
    var once := Projected(columns, row);
    forall i | 0 <= i < |columns| ensures Get(once, columns[i].name) == once[i].1 {
      IndexIs(once, columns[i].name);
      assert once[i].0 == columns[i].name;
      assert Names(columns)[i] == columns[i].name;
      var j := IndexOf(once, columns[i].name).value;
      assert Names(columns)[j] == once[j].0;
    }
    KnownOnly(once, names, warned);
  }

  lemma {:induction false} KnownOnly(row: Row, names: set<string>, warned: set<string>)
    requires forall i :: 0 <= i < |row| ==> row[i].0 in names
    ensures NewUnknown(row, names, warned) == []
  {
    if row != [] { KnownOnly(row[1..], names, warned); }
  }

  // ------------------------------------------------------------------ the class

  class SchemaLock {
    var columns: Option<seq<ColumnSpec>>
    var names: set<string>
    var unknownWarned: set<string>
    var warnings: seq<string> // every warning logged

    ghost predicate Valid()
      reads this
    {
      && (columns.None? ==> names == {} && warnings == [])
      && (columns.Some? ==> Distinct(Names(columns.value)) && names == set k | k in Names(columns.value))
      && WarnedOnce(warnings, unknownWarned, names)
    }

    constructor ()
      ensures Valid() && columns.None? && warnings == []
    {
      columns, names, unknownWarned, warnings := None, {}, {}, [];
    }

    method InferColumn(key: string, rows: seq<Row>) returns (spec: ColumnSpec)
      requires rows != []
      ensures Inferred(key, rows, spec)
    {
      var inferred: Option<PyType> := None;
      var nullable := false;
      for i := 0 to |rows|
        invariant IsJoin(TypesOf(key, rows[..i]), inferred)
        invariant nullable <==> exists k :: 0 <= k < i && Get(rows[k], key).Null?
      {
        TypesOfSnoc(key, rows, i);
        IndexIs(rows[i], key);
        var at := FindKey(rows[i], key);
        if at.None? {
          nullable := true;
        } else if rows[i][at.value].1.Null? {
          nullable := true;
        } else {
          var t := rows[i][at.value].1.t;
          WidenJoins(TypesOf(key, rows[..i]), inferred, t);
          inferred := Some(Widen(inferred, t));
        }
      }
      assert rows[..|rows|] == rows;
      JoinIsLeast(TypesOf(key, rows), inferred);
      if inferred.None? {
        ValueHasType(key, rows);
        return ColumnSpec(key, Str, true);
      }
      spec := ColumnSpec(key, if inferred.value.Foreign? then Str else inferred.value, nullable);
    }

    static method FindKey(row: Row, key: string) returns (at: Option<nat>)
      ensures at == IndexOf(row, key)
    {
      IndexIs(row, key);
      for i := 0 to |row|
        invariant forall k :: 0 <= k < i ==> row[k].0 != key
      {
        if row[i].0 == key { return Some(i); }
      }
      at := None;
    }

    static method OrderedKeys(rows: seq<Row>) returns (ordered: seq<string>)
      ensures ordered == FirstSeen(AllKeys(rows))
    {
      hide FirstSeen, AllKeys;
      ordered := [];
      NoKeys(rows);
      for i := 0 to |rows|
        invariant ordered == FirstSeen(AllKeys(rows[..i]))
      {
        ordered := RowKeys(ordered, rows[i], AllKeys(rows[..i]));
        AllKeysSnoc(rows, i);
      }
      assert rows[..|rows|] == rows;
    }

    static method RowKeys(before: seq<string>, row: Row, ghost keys: seq<string>) returns (ordered: seq<string>)
      requires before == FirstSeen(keys)
      ensures ordered == FirstSeen(keys + KeysOf(row))
    {
      hide FirstSeen;
      ordered := before;
      assert keys + KeysOf(row)[..0] == keys;
      for j := 0 to |row|
        invariant ordered == FirstSeen(keys + KeysOf(row)[..j])
      {
        assert keys + KeysOf(row)[..j + 1] == (keys + KeysOf(row)[..j]) + [row[j].0];
        FirstSeenSnoc(keys + KeysOf(row)[..j], row[j].0);
        if row[j].0 !in ordered { ordered := ordered + [row[j].0]; }
      }
      assert KeysOf(row)[..|row|] == KeysOf(row);
    }

    method InferColumns(keys: seq<string>, rows: seq<Row>) returns (specs: seq<ColumnSpec>)
      requires rows != []
      ensures Names(specs) == keys
      ensures forall k :: 0 <= k < |specs| ==> Inferred(specs[k].name, rows, specs[k])
    {
      hide Inferred;
      specs := [];
      for i := 0 to |keys|
        invariant Names(specs) == keys[..i]
        invariant forall k :: 0 <= k < |specs| ==> Inferred(specs[k].name, rows, specs[k])
      {
        var spec := InferColumn(keys[i], rows);
        specs := specs + [spec];
      }
    }

    method Lock(rows: seq<Row>) returns (ok: bool)
      requires Valid()
      modifies this`columns, this`names
      ensures Valid()
      ensures ok <==> old(columns).None? && rows != []
      ensures !ok ==> columns == old(columns) && names == old(names)
      ensures ok ==> columns.Some? && Names(columns.value) == FirstSeen(AllKeys(rows)) && Distinct(Names(columns.value))
      ensures ok ==> names == set k | k in AllKeys(rows)
      ensures ok ==> forall i :: 0 <= i < |columns.value| ==> Inferred(columns.value[i].name, rows, columns.value[i])
    {
      if columns.Some? || rows == [] { return false; }
      hide FirstSeen, AllKeys, Inferred, WarnedOnce;
      var ordered := OrderedKeys(rows);
      var specs := InferColumns(ordered, rows);
      FirstSeenOrders(AllKeys(rows));
      columns := Some(specs);
      names := set k | k in ordered;
      ok := true;
    }

    method FillCells(row: Row, blank: map<string, Cell>) returns (cells: map<string, Cell>)
      requires WarnedOnce(warnings, unknownWarned, names) && IsRow(row)
      requires blank.Keys == names && forall k :: k in names ==> blank[k] == Null
      modifies this`unknownWarned, this`warnings
      ensures WarnedOnce(warnings, unknownWarned, names)
      ensures cells.Keys == names && forall k :: k in names ==> cells[k] == Get(row, k)
      ensures warnings == old(warnings) + NewUnknown(row, names, old(unknownWarned))
    {
      hide Projecting, WarnedOnce, IsRow, Get, NewUnknown;
      cells := blank;
      ghost var added: seq<string> := [];
      assert row[..0] == [] && old(warnings) + added == warnings;
      NothingProjected(names, unknownWarned, cells);
      for i := 0 to |row|
        invariant WarnedOnce(warnings, unknownWarned, names)
        invariant warnings == old(warnings) + added
        invariant Projecting(row[..i], names, old(unknownWarned), cells, unknownWarned, added)
      {
        var key := row[i].0;
        assert row[..i + 1] == row[..i] + [row[i]];
        PrefixIsRow(row, i + 1);
        ProjectingStep(row[..i], row[i], names, old(unknownWarned), cells, unknownWarned, added);
        if key in names {
          cells := cells[key := row[i].1];
        } else if key !in unknownWarned {
          WarnedStep(warnings, unknownWarned, names, key);
          assert warnings + [key] == old(warnings) + (added + [key]);
          unknownWarned := unknownWarned + {key};
          warnings := warnings + [key];
          added := added + [key];
        }
      }
      assert row[..|row|] == row;
      ProjectingEnds(row, names, old(unknownWarned), cells, unknownWarned, added);
    }

    /** None is the RuntimeError of projecting before the lock. */
    method Project(row: Row) returns (projected: Option<Row>)
      requires Valid() && IsRow(row)
      modifies this`unknownWarned, this`warnings
      ensures Valid()
      ensures columns.None? ==> projected.None? && warnings == old(warnings)
      ensures columns.Some? ==> projected == Some(Projected(columns.value, row))
      ensures columns.Some? ==> warnings == old(warnings) + NewUnknown(row, names, old(unknownWarned))
    {
      if columns.None? { return None; }
      var cells := FillCells(row, Blank(columns.value));
      InOrderProjects(columns.value, row, cells);
      projected := Some(InOrder(columns.value, cells));
    }
  }

  /** The items of a dict whose keys were first set in column order. */
  function InOrder(columns: seq<ColumnSpec>, cells: map<string, Cell>): (row: Row)
    requires forall i :: 0 <= i < |columns| ==> columns[i].name in cells
    ensures |row| == |columns| && forall i :: 0 <= i < |row| ==> row[i] == (columns[i].name, cells[columns[i].name])
  {
    seq(|columns|, i requires 0 <= i < |columns| => (columns[i].name, cells[columns[i].name]))
  }

  /** A dict with every column set to None. */
  function Blank(columns: seq<ColumnSpec>): (cells: map<string, Cell>)
    ensures forall k :: k in cells <==> k in Names(columns)
    ensures forall k :: k in cells ==> cells[k] == Null
  {
    if columns == [] then map[]
    else
      assert columns == [columns[0]] + columns[1..];
      assert Names(columns) == [columns[0].name] + Names(columns[1..]);
      Blank(columns[1..])[columns[0].name := Null]
  }

  lemma InOrderProjects(columns: seq<ColumnSpec>, row: Row, cells: map<string, Cell>)
    requires cells.Keys == set k | k in Names(columns)
    requires forall k :: k in cells ==> cells[k] == Get(row, k)
    ensures forall i :: 0 <= i < |columns| ==> columns[i].name in cells
    ensures InOrder(columns, cells) == Projected(columns, row)
  {
    forall i | 0 <= i < |columns| ensures columns[i].name in cells {
      assert Names(columns)[i] == columns[i].name;
    }
  }

  /** `row` has been looked at: its known cells are in place, its unknown keys were added to `warned`. */
  ghost predicate Projecting(row: Row, names: set<string>, was: set<string>, cells: map<string, Cell>, warned: set<string>, added: seq<string>) {
    && cells.Keys == names && (forall k :: k in names ==> cells[k] == Get(row, k))
    && added == NewUnknown(row, names, was)
    && warned == was + (set k | k in added)
  }

  lemma NothingProjected(names: set<string>, was: set<string>, cells: map<string, Cell>)
    requires cells.Keys == names && forall k :: k in names ==> cells[k] == Null
    ensures Projecting([], names, was, cells, was, [])
  {
  }

  lemma ProjectingStep(row: Row, cell: (string, Cell), names: set<string>, was: set<string>, cells: map<string, Cell>, warned: set<string>, added: seq<string>)
    requires IsRow(row + [cell]) && Projecting(row, names, was, cells, warned, added)
    ensures var key := cell.0;
      && (key in names ==> Projecting(row + [cell], names, was, cells[key := cell.1], warned, added))
      && (key !in names && key in warned ==> Projecting(row + [cell], names, was, cells, warned, added))
      && (key !in names && key !in warned ==> Projecting(row + [cell], names, was, cells, warned + {key}, added + [key]))
  {
    GetSnoc(row, cell);
    NewUnknownSnoc(row, cell, names, was);
    hide Get, NewUnknown, IsRow;
  }

  lemma ProjectingEnds(row: Row, names: set<string>, was: set<string>, cells: map<string, Cell>, warned: set<string>, added: seq<string>)
    requires Projecting(row, names, was, cells, warned, added)
    ensures cells.Keys == names && (forall k :: k in cells ==> cells[k] == Get(row, k)) && added == NewUnknown(row, names, was)
  {
  }

  lemma PrefixIsRow(row: Row, n: nat)
    requires IsRow(row) && n <= |row|
    ensures IsRow(row[..n])
  {
  }

  lemma WarnedStep(warnings: seq<string>, warned: set<string>, names: set<string>, key: string)
    requires WarnedOnce(warnings, warned, names) && key !in warned && key !in names
    ensures WarnedOnce(warnings + [key], warned + {key}, names)
  {
  }

  lemma GetSnoc(row: Row, cell: (string, Cell))
    requires IsRow(row + [cell])
    ensures forall k :: Get(row + [cell], k) == if k == cell.0 then cell.1 else Get(row, k)
  {
    forall k ensures Get(row + [cell], k) == if k == cell.0 then cell.1 else Get(row, k) {
      IndexIs(row + [cell], k);
      IndexIs(row, k);
      var whole := row + [cell];
      assert forall i :: 0 <= i < |row| ==> whole[i] == row[i];
      assert whole[|row|] == cell;
    }
  }

  lemma TypesOfSnoc(key: string, rows: seq<Row>, i: nat)
    requires i < |rows|
    ensures TypesOf(key, rows[..i + 1]) == TypesOf(key, rows[..i]) + (if Get(rows[i], key).Value? then {Get(rows[i], key).t} else {})
  {
  }

  lemma ValueHasType(key: string, rows: seq<Row>)
    requires rows != []
    ensures Get(rows[0], key).Value? ==> TypesOf(key, rows) != {}
  {
    if Get(rows[0], key).Value? { assert Get(rows[0], key).t in TypesOf(key, rows); }
  }
}
