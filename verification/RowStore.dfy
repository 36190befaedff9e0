/**
 The row store as the program runs it: a map of rows, an id allocator, and one hash
 index per unique column, edited in place. Every operation is proved to do what the
 linear-scan specification (module TableSpec) says.
 */
module RowStore {
  import opened Types
  import opened TableSpec

  type Index = map<Text, map<Value, nat>>

  datatype ColumnDef = ColumnDef(name: Text, primaryKey: bool, unique: bool)

  function Entry(uniq: Index, col: Text, v: Value): Option<nat> {
    if col in uniq && v in uniq[col] then Some(uniq[col][v]) else None
  }

  /** The index holds exactly the non-null unique values of the live rows. */
  ghost predicate IndexMatches(cols: seq<Text>, rows: map<nat, Values>, uniq: Index) {
    forall col, v, id: nat :: Entry(uniq, col, v) == Some(id) <==> col in cols && Holds(rows, id, col, v)
  }

  /** Column `col` of a row whose values are `values` is `v`, and `v` is indexable. */
  predicate Carries(cols: seq<Text>, values: Values, col: Text, v: Value) {
    col in cols && col in values && values[col] == v && v != Null
  }

  function Insertion(uniq: Index, col: Text, v: Value, id: nat): Index {
    uniq[col := (if col in uniq then uniq[col] else map[])[v := id]]
  }

  function Removal(uniq: Index, col: Text, v: Value): Index
    requires col in uniq
  {
    uniq[col := uniq[col] - {v}]
  }

  /** The index after a row's values were added under `id`. */
  ghost predicate Added(cols: seq<Text>, values: Values, id: nat, before: Index, after: Index) {
    forall col, v :: Entry(after, col, v) ==
      if Carries(cols, values, col, v) then Some(id) else Entry(before, col, v)
  }

  /** The index after the values of row `id` that `keep` does not retain were dropped. */
  ghost predicate Dropped(cols: seq<Text>, values: Values, keep: Values, id: nat, before: Index, after: Index) {
    forall col, v :: Entry(after, col, v) ==
      if Carries(cols, values, col, v) && !(col in keep && keep[col] == v) && Entry(before, col, v) == Some(id)
      then None else Entry(before, col, v)
  }

  /** With a matching index, looking up owners finds a clash exactly when a scan does. */
  lemma ClashByIndex(cols: seq<Text>, rows: map<nat, Values>, uniq: Index, values: Values, self: Option<nat>)
    requires IndexMatches(cols, rows, uniq)
    ensures Clash(cols, rows, values, self) <==>
      exists col :: col in cols && col in values && values[col] != Null
                    && Entry(uniq, col, values[col]).Some? && Entry(uniq, col, values[col]) != self
  {
    if Clash(cols, rows, values, self) {
      var col, id: nat :| col in cols && col in values && Holds(rows, id, col, values[col]) && Some(id) != self;
      assert Entry(uniq, col, values[col]) == Some(id);
    }
    if exists col :: col in cols && col in values && values[col] != Null
                     && Entry(uniq, col, values[col]).Some? && Entry(uniq, col, values[col]) != self {
      var col :| col in cols && col in values && values[col] != Null
                 && Entry(uniq, col, values[col]).Some? && Entry(uniq, col, values[col]) != self;
      var id := Entry(uniq, col, values[col]).value;
      assert Entry(uniq, col, values[col]) == Some(id);
      assert Holds(rows, id, col, values[col]);
    }
  }

  /** A matching index exists only when unique columns really are unique. */
  /** The unique columns are those declared unique and the primary key. */
  lemma {:induction false} UniqueNamesAre(columns: seq<ColumnDef>, name: Text)
    ensures name in InMemoryTable.UniqueNames(columns) <==>
            exists i :: 0 <= i < |columns| && columns[i].name == name && (columns[i].primaryKey || columns[i].unique)
  {
    if columns != [] {
      UniqueNamesAre(columns[1..], name);
      if i :| 0 <= i < |columns[1..]| && columns[1..][i].name == name
              && (columns[1..][i].primaryKey || columns[1..][i].unique) {
        assert columns[i + 1] == columns[1..][i];
      }
      if i :| 0 <= i < |columns| && columns[i].name == name && (columns[i].primaryKey || columns[i].unique) {
        assert i > 0 ==> columns[1..][i - 1] == columns[i];
      }
    }
  }

  lemma MatchMeansUnique(cols: seq<Text>, rows: map<nat, Values>, uniq: Index)
    requires IndexMatches(cols, rows, uniq)
    ensures UniqueHolds(cols, rows)
  {
    forall col, v, a: nat, b: nat | col in cols && Holds(rows, a, col, v) && Holds(rows, b, col, v) ensures a == b {
      assert Entry(uniq, col, v) == Some(a) && Entry(uniq, col, v) == Some(b);
    }
  }

  /** Adding a row that clashes with none keeps the index exact. */
  lemma AddKeepsMatch(cols: seq<Text>, rows: map<nat, Values>, id: nat, values: Values, before: Index, after: Index,
                      self: Option<nat>)
    requires IndexMatches(cols, rows, before) && id !in rows
    requires self.None? || self == Some(id)
    requires !Clash(cols, rows, values, self) && Added(cols, values, id, before, after)
    ensures IndexMatches(cols, rows[id := values], after)
  {
    var rows' := rows[id := values];
    forall col, v, x: nat ensures Entry(after, col, v) == Some(x) <==> col in cols && Holds(rows', x, col, v) {
      assert Carries(cols, values, col, v) && Holds(rows, x, col, v) ==> Some(x) == self;
    }
  }

  /** Dropping the stale values and adding the current ones keeps the index exact. */
  lemma UpdateKeepsMatch(cols: seq<Text>, rows: map<nat, Values>, id: nat, values: Values, before: Index, mid: Index,
                         after: Index)
    requires IndexMatches(cols, rows, before) && id in rows && !Clash(cols, rows, values, Some(id))
    requires Dropped(cols, rows[id], rows[id] + values, id, before, mid)
    requires Added(cols, rows[id] + values, id, mid, after)
    ensures IndexMatches(cols, rows[id := rows[id] + values], after)
  {
    var merged := rows[id] + values;
    var rows' := rows[id := merged];
    forall col, v, x: nat ensures Entry(after, col, v) == Some(x) <==> col in cols && Holds(rows', x, col, v) {
      if Carries(cols, merged, col, v) {
        assert Holds(rows, x, col, v) ==> Entry(before, col, v) == Some(x);
        assert Holds(rows, id, col, v) ==> Entry(before, col, v) == Some(id);
        assert Holds(rows, x, col, v) && v == merged[col] && col in values ==> x == id;
        assert col !in values ==> Holds(rows, id, col, v);
      } else {
        assert Entry(before, col, v) == Some(id) ==> Carries(cols, rows[id], col, v);
        assert x != id ==> (Holds(rows', x, col, v) <==> Holds(rows, x, col, v));
      }
    }
  }

  lemma TakeKeepsMatch(cols: seq<Text>, rows: map<nat, Values>, id: nat, before: Index, after: Index)
    requires IndexMatches(cols, rows, before) && id in rows
    requires Dropped(cols, rows[id], map[], id, before, after)
    ensures IndexMatches(cols, rows - {id}, after)
  {
    forall col, v, x: nat ensures Entry(after, col, v) == Some(x) <==> col in cols && Holds(rows - {id}, x, col, v) {
      assert x != id ==> (Holds(rows - {id}, x, col, v) <==> Holds(rows, x, col, v));
      assert Entry(before, col, v) == Some(id) ==> Carries(cols, rows[id], col, v);
    }
  }

  class InMemoryTable {
    const columns: seq<ColumnDef>
    const valid: Values -> bool
    var rows: map<nat, Values>
    var nextId: nat
    var uniq: Index

    /** Names of the primary-key and unique columns. */
    static function UniqueNames(columns: seq<ColumnDef>): seq<Text> {
      if columns == [] then [] else
      (if columns[0].primaryKey || columns[0].unique then [columns[0].name] else []) + UniqueNames(columns[1..])
    }

    ghost function Cols(): seq<Text> { UniqueNames(columns) }

    ghost function State(): TableState
      reads this
    {
      TableState(rows, nextId)
    }

    ghost predicate Valid()
      reads this
    {
      Ahead(State()) && IndexMatches(Cols(), rows, uniq)
    }

    constructor (columns: seq<ColumnDef>, valid: Values -> bool)
      ensures Valid() && State() == EMPTY && this.columns == columns && this.valid == valid
    {
      this.columns, this.valid := columns, valid;
      rows, nextId, uniq := map[], 1, map[];
    }

    method UniqCols() returns (cols: seq<Text>)
      ensures cols == Cols()
    {
      cols := [];
      for i := 0 to |columns|
        invariant cols + UniqueNames(columns[i..]) == Cols()
      {
        assert columns[i..][1..] == columns[i + 1..];
        ghost var rest := UniqueNames(columns[i + 1..]);
        if columns[i].primaryKey || columns[i].unique {
          assert cols + ([columns[i].name] + rest) == cols + [columns[i].name] + rest;
          cols := cols + [columns[i].name];
        } else {
          assert [] + rest == rest;
        }
      }
    }

    /** Some unique value is owned by another row, as far as the index knows. */
    method CheckUniq(cols: seq<Text>, values: Values, self: Option<nat>) returns (clash: bool)
      ensures clash <==>
        exists col :: col in cols && col in values && values[col] != Null
                      && Entry(uniq, col, values[col]).Some? && Entry(uniq, col, values[col]) != self
    {
      for i := 0 to |cols|
        invariant forall j :: 0 <= j < i && cols[j] in values && values[cols[j]] != Null ==>
          Entry(uniq, cols[j], values[cols[j]]).None? || Entry(uniq, cols[j], values[cols[j]]) == self
      {
        var col := cols[i];
        if col in values && values[col] != Null {
          if col in uniq && values[col] in uniq[col] {
            if Some(uniq[col][values[col]]) != self { return true; }
          }
        }
      }
      return false;
    }

    method IndexRow(cols: seq<Text>, id: nat, values: Values)
      modifies this`uniq
      ensures Added(cols, values, id, old(uniq), uniq)
    {
      for i := 0 to |cols|
        invariant Added(cols[..i], values, id, old(uniq), uniq)
      {
        var col := cols[i];
        ghost var before := uniq;
        assert cols[..i + 1] == cols[..i] + [col];
        if col in values && values[col] != Null {
          uniq := Insertion(uniq, col, values[col], id);
          assert forall c, v :: Entry(uniq, c, v) ==
                   if c == col && v == values[col] then Some(id) else Entry(before, c, v);
        }
      }
      assert cols[..|cols|] == cols;
    }

    /** `keep` is empty when the whole row goes, and the new row after an update. */
    method UnindexRow(cols: seq<Text>, id: nat, values: Values, keep: Values)
      modifies this`uniq
      ensures (forall col, v :: Entry(old(uniq), col, v).Some? ==> v != Null) ==>
                Dropped(cols, values, keep, id, old(uniq), uniq)
    {
      for i := 0 to |cols|
        invariant (forall col, v :: Entry(old(uniq), col, v).Some? ==> v != Null) ==>
                    Dropped(cols[..i], values, keep, id, old(uniq), uniq)
      {
        var col := cols[i];
        ghost var before := uniq;
        assert cols[..i + 1] == cols[..i] + [col];
        if col in values && !(col in keep && keep[col] == values[col]) {
          if col in uniq && values[col] in uniq[col] && uniq[col][values[col]] == id {
            uniq := Removal(uniq, col, values[col]);
            assert forall c, v :: Entry(uniq, c, v) ==
                     if c == col && v == values[col] then None else Entry(before, c, v);
          }
        }
      }
      assert cols[..|cols|] == cols;
    }

    method InsertUnchecked(values: Values) returns (out: Outcome)
      requires Valid()
      modifies this
      ensures Valid()
      ensures (State(), out) == Step(Cols(), valid, old(State()), TableSpec.InsertUnchecked(values))
      ensures out.Stored? ==> rows == old(rows)[out.id := values] && out.id == old(nextId)
      ensures out.Stored? || rows == old(rows)
    {
      var cols := UniqCols();
      var clash := CheckUniq(cols, values, None);
      ClashByIndex(cols, rows, uniq, values, None);
      if clash { return Failed(DuplicateKey); }
      if nextId >= MAX_ID { return Failed(Overflow); }
      var id := nextId;
      nextId := nextId + 1;
      IndexRow(cols, id, values);
      AddKeepsMatch(cols, rows, id, values, old(uniq), uniq, None);
      rows := rows[id := values];
      return Stored(id);
    }

    method Insert(values: Values) returns (out: Outcome)
      requires Valid()
      modifies this
      ensures Valid()
      ensures (State(), out) == Step(Cols(), valid, old(State()), TableSpec.Insert(values))
      ensures out.Stored? ==> valid(values) && rows == old(rows)[out.id := values] && out.id == old(nextId)
      ensures out.Stored? || rows == old(rows)
    {
      if !valid(values) { return Failed(SchemaViolation); }
      out := InsertUnchecked(values);
    }

    method Update(id: nat, values: Values) returns (out: Outcome)
      requires Valid()
      modifies this
      ensures Valid()
      ensures (State(), out) == Step(Cols(), valid, old(State()), TableSpec.Update(id, values))
      ensures out.Row? ==> id in old(rows) && out.values == old(rows)[id] + values
      ensures rows == if out.Row? then old(rows)[id := out.values] else old(rows)
    {
      hide Added, Dropped, Clash;
      if id !in rows { return Failed(RowNotFound); }
      var before := rows[id];
      var cols := UniqCols();
      var clash := CheckUniq(cols, values, Some(id));
      ClashByIndex(cols, rows, uniq, values, Some(id));
      if clash { return Failed(DuplicateKey); }
      var merged := before + values;
      rows := rows[id := merged];
      UnindexRow(cols, id, before, merged);
      ghost var mid := uniq;
      IndexRow(cols, id, merged);
      UpdateKeepsMatch(cols, old(rows), id, values, old(uniq), mid, uniq);
      return Row(merged);
    }

    method Take(id: nat) returns (out: Outcome)
      requires Valid()
      modifies this
      ensures Valid()
      ensures (State(), out) == Step(Cols(), valid, old(State()), TableSpec.Take(id))
      ensures out == Taken(if id in old(rows) then Some(old(rows)[id]) else None)
      ensures rows == old(rows) - {id}
    {
      if id !in rows { return Taken(None); }
      var removed := rows[id];
      rows := rows - {id};
      var cols := UniqCols();
      UnindexRow(cols, id, removed, map[]);
      TakeKeepsMatch(cols, old(rows), id, old(uniq), uniq);
      return Taken(Some(removed));
    }

    method InsertPreservingId(id: nat, values: Values) returns (out: Outcome)
      requires Valid()
      modifies this
      ensures Valid()
      ensures (State(), out) == Step(Cols(), valid, old(State()), Restore(id, values))
      ensures out.Stored? ==> id !in old(rows) && out.id == id && rows == old(rows)[id := values]
      ensures out.Stored? || rows == old(rows)
    {
      if id in rows { return Failed(DuplicateKey); }
      var cols := UniqCols();
      var clash := CheckUniq(cols, values, Some(id));
      ClashByIndex(cols, rows, uniq, values, Some(id));
      if clash { return Failed(DuplicateKey); }
      if id >= nextId {
        if id >= MAX_ID { return Failed(Overflow); }
        nextId := id + 1;
      }
      IndexRow(cols, id, values);
      AddKeepsMatch(cols, rows, id, values, old(uniq), uniq, Some(id));
      rows := rows[id := values];
      return Stored(id);
    }

    /** The indexed lookup answers what a scan over all rows answers. */
    method LookupByUnique(col: Text, v: Value) returns (r: Outcome)
      requires Valid()
      ensures col !in Cols() <==> r == Failed(NotIndexed)
      ensures col in Cols() ==> r.Taken?
      ensures col in Cols() && r.row.Some? ==> exists id :: Holds(rows, id, col, v) && rows[id] == r.row.value
      ensures col in Cols() && r.row.None? ==> forall id :: !Holds(rows, id, col, v)
    {
      var cols := UniqCols();
      var isUniq := false;
      for i := 0 to |cols|
        invariant isUniq <==> col in cols[..i]
      {
        if cols[i] == col { isUniq := true; }
      }
      if !isUniq { return Failed(NotIndexed); }
      if v == Null { return Taken(None); }
      if col in uniq && v in uniq[col] {
        var id := uniq[col][v];
        assert Entry(uniq, col, v) == Some(id);
        assert Holds(rows, id, col, v);
        return Taken(Some(rows[id]));
      }
      assert Entry(uniq, col, v) == None;
      return Taken(None);
    }
  }
}
