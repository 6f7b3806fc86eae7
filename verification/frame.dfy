/** Optional values, used for lookups that can miss and for session-state keys
    that may not have been set yet. */
module Options {

  datatype Option<+T> = None | Some(value: T)
}

/** A single-row table: an ordered list of named integer columns, as a
    one-row pandas DataFrame holds them. Boolean indicator columns are
    represented by the integers 0 and 1. */
module Frame {
  import opened Options

  datatype Column = Column(name: string, value: int)

  type Row = seq<Column>

  /** The column names of a row, in order. */
  function Names(row: Row): (ns: seq<string>)
    ensures |ns| == |row|
    ensures forall i :: 0 <= i < |row| ==> ns[i] == row[i].name
  {
    seq(|row|, i requires 0 <= i < |row| => row[i].name)
  }

  /** No name occurs twice. */
  predicate Distinct(ns: seq<string>)
  {
    forall i, j :: 0 <= i < j < |ns| ==> ns[i] != ns[j]
  }

  /** The value of column `name`. The page only reads rows whose names are
      distinct, where the column is unique; on a row with a repeated name the
      rightmost copy is taken, which matters only when the copies differ. */
  function Lookup(row: Row, name: string): (r: Option<int>)
    ensures r.None? <==> name !in Names(row)
    ensures r.Some? ==> exists i :: 0 <= i < |row| && row[i] == Column(name, r.value)
  {
    if |row| == 0 then None
    else if row[|row| - 1].name == name then Some(row[|row| - 1].value)
    else Lookup(row[..|row| - 1], name)
  }

  /** The value of column `name`, or 0 when the row has no such column. */
  function ValueOrZero(row: Row, name: string): (v: int)
  {
    match Lookup(row, name)
    case Some(v) => v
    case None => 0
  }

  /** Looking a name up in `a + b` consults `b` first and falls back to `a`. */
  lemma {:induction false} LookupAppend(a: Row, b: Row, name: string)
    ensures Lookup(a + b, name) == if name in Names(b) then Lookup(b, name) else Lookup(a, name)
    decreases |b|
  {
    if |b| == 0 {
      assert a + b == a;
    } else {
      var b' := b[..|b| - 1];
      assert (a + b)[..|a + b| - 1] == a + b';
      if b[|b| - 1].name != name {
        LookupAppend(a, b', name);
        assert name in Names(b) <==> name in Names(b') by {
          if name in Names(b) {
            var k :| 0 <= k < |b| && Names(b)[k] == name;
            assert Names(b')[k] == name;
          }
          if name in Names(b') {
            var k :| 0 <= k < |b'| && Names(b')[k] == name;
            assert Names(b)[k] == name;
          }
        }
      } else {
        assert Names(b)[|b| - 1] == name;
      }
    }
  }

  /** When every column called `name` carries the same value `v`, and there
      is at least one, the lookup returns `v`. */
  lemma LookupUniform(row: Row, name: string, v: int)
    requires name in Names(row)
    requires forall i :: 0 <= i < |row| && row[i].name == name ==> row[i].value == v
    ensures Lookup(row, name) == Some(v)
  {
  }

  /** Appending a column whose name is new keeps the names distinct. */
  lemma DistinctSnoc(row: Row, c: Column)
    requires Distinct(Names(row)) && c.name !in Names(row)
    ensures Distinct(Names(row + [c]))
  {
    var ns := Names(row + [c]);
    forall i, j | 0 <= i < j < |ns|
      ensures ns[i] != ns[j]
    {
      if j < |row| {
        assert ns[i] == Names(row)[i] && ns[j] == Names(row)[j];
      } else {
        assert ns[j] == c.name && ns[i] == Names(row)[i];
      }
    }
  }

  /** Two rows with the same names that agree on every column called `name`
      give the same lookup for it. */
  lemma {:induction false} LookupAgree(a: Row, b: Row, name: string)
    requires Names(a) == Names(b)
    requires forall i :: 0 <= i < |a| && a[i].name == name ==> a[i].value == b[i].value
    ensures Lookup(a, name) == Lookup(b, name)
    decreases |a|
  {
    assert |a| == |Names(a)| == |b|;
    if |a| > 0 {
      var k := |a| - 1;
      assert Names(a)[k] == Names(b)[k];
      assert Names(a[..k]) == Names(b[..k]) by {
        forall i | 0 <= i < k ensures Names(a[..k])[i] == Names(b[..k])[i] {
          assert Names(a)[i] == Names(b)[i];
        }
      }
      LookupAgree(a[..k], b[..k], name);
    }
  }

  /** In a row without repeated names, each column is found by its name. */
  lemma LookupDistinct(row: Row, i: int)
    requires Distinct(Names(row))
    requires 0 <= i < |row|
    ensures Lookup(row, row[i].name) == Some(row[i].value)
  {
    forall j | 0 <= j < |row| && j != i
      ensures row[j].name != row[i].name
    {
      if j < i {
        assert Names(row)[j] != Names(row)[i];
      } else {
        assert Names(row)[i] != Names(row)[j];
      }
    }
    assert Names(row)[i] == row[i].name;
    LookupUniform(row, row[i].name, row[i].value);
  }
}
