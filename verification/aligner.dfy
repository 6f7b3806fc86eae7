/** The feature aligner: a candidate row is reindexed onto a classifier's
    ordered list of expected feature names. Expected columns the candidate
    lacks are 0; candidate columns the classifier does not expect are dropped. */
module Aligner {
  import opened Options
  import opened Frame

  /** A row of zeros indexed by exactly the expected names. */
  function Zeros(expected: seq<string>): (r: Row)
    ensures Names(r) == expected
    ensures forall n :: n in expected ==> Lookup(r, n) == Some(0)
    ensures forall i :: 0 <= i < |r| ==> r[i].value == 0
  {
    seq(|expected|, i requires 0 <= i < |expected| => Column(expected[i], 0))
  }

  /** Column assignment: every column called `name` takes the value `v`;
      the other columns and the order are unchanged. */
  function SetColumn(row: Row, name: string, v: int): (r: Row)
    ensures Names(r) == Names(row)
    ensures forall i :: 0 <= i < |r| && row[i].name == name ==> r[i].value == v
    ensures forall i :: 0 <= i < |r| && row[i].name != name ==> r[i] == row[i]
  {
    seq(|row|, i requires 0 <= i < |row| =>
      if row[i].name == name then Column(name, v) else row[i])
  }

  /** After the assignment the column reads `v` wherever it exists, and
      every other column reads as before. */
  lemma SetColumnLookup(row: Row, name: string, v: int, n: string)
    ensures Lookup(SetColumn(row, name, v), n) ==
      if n == name && name in Names(row) then Some(v) else Lookup(row, n)
  {
    var r := SetColumn(row, name, v);
    if n == name {
      if name in Names(row) {
        LookupUniform(r, name, v);
      }
    } else {
      LookupAgree(r, row, n);
    }
  }

  /** Reference definition of the aligned row: position by position, the
      expected name with the candidate's value for it, or 0. */
  function Align(expected: seq<string>, cand: Row): (r: Row)
  {
    seq(|expected|, i requires 0 <= i < |expected| =>
      Column(expected[i], ValueOrZero(cand, expected[i])))
  }

  /** Aligning against a candidate without columns gives the zero row. */
  lemma AlignEmpty(expected: seq<string>)
    ensures Align(expected, []) == Zeros(expected)
  {
  }

  /** Appending one candidate column changes the aligned row exactly as the
      guarded column assignment does. */
  lemma AlignSnoc(expected: seq<string>, cand: Row, c: Column)
    ensures Align(expected, cand + [c]) ==
      if c.name in expected then SetColumn(Align(expected, cand), c.name, c.value)
      else Align(expected, cand)
  {
    forall n
      ensures ValueOrZero(cand + [c], n) ==
        if n == c.name then c.value else ValueOrZero(cand, n)
    {
      LookupAppend(cand, [c], n);
    }
  }

  /** The alignment loop: start from zeros over the expected names, then
      walk the candidate's columns left to right and copy each one whose
      name the classifier expects. The page copies the candidate's column
      by name, which fails when that name labels several columns, so no
      expected name may label two candidate columns; a repeated name the
      classifier does not expect is never copied and is allowed. */
  method AlignColumns(expected: seq<string>, cand: Row) returns (out: Row)
    requires forall i, j :: 0 <= i < j < |cand| && cand[i].name == cand[j].name ==>
      cand[i].name !in expected
    ensures out == Align(expected, cand)
    ensures Names(out) == expected
    ensures forall i :: 0 <= i < |out| ==>
      out[i].value == (if expected[i] in Names(cand) then Lookup(cand, expected[i]).value else 0)
  {
    out := Zeros(expected);
    AlignEmpty(expected);
    var k := 0;
    while k < |cand|
      invariant 0 <= k <= |cand|
      invariant out == Align(expected, cand[..k])
    {
      var c := cand[k];
      if c.name in expected {
        out := SetColumn(out, c.name, c.value);
      }
      AlignSnoc(expected, cand[..k], c);
      assert cand[..k + 1] == cand[..k] + [c];
      k := k + 1;
    }
    assert cand[..k] == cand;
  }

  /** The aligned row's columns are exactly the expected list, and no
      candidate column the classifier does not expect survives. */
  lemma AlignShape(expected: seq<string>, cand: Row)
    ensures Names(Align(expected, cand)) == expected
    ensures forall c :: c in cand && c.name !in expected ==> c.name !in Names(Align(expected, cand))
  {
  }

  /** Alignment only depends on the candidate's lookups of expected names. */
  lemma AlignCongruent(expected: seq<string>, a: Row, b: Row)
    requires forall n :: n in expected ==> Lookup(a, n) == Lookup(b, n)
    ensures Align(expected, a) == Align(expected, b)
  {
    forall i | 0 <= i < |expected|
      ensures Align(expected, a)[i] == Align(expected, b)[i]
    {
      assert Lookup(a, expected[i]) == Lookup(b, expected[i]);
    }
  }

  /** Every expected name is found in the aligned row, with the value the
      alignment gave it. */
  lemma LookupAligned(expected: seq<string>, cand: Row, n: string)
    requires n in expected
    ensures Lookup(Align(expected, cand), n) == Some(ValueOrZero(cand, n))
  {
    var r := Align(expected, cand);
    var k :| 0 <= k < |expected| && expected[k] == n;
    assert Names(r)[k] == n;
    LookupUniform(r, n, ValueOrZero(cand, n));
  }

  /** Aligning an aligned row against the same list changes nothing, even
      when the list repeats a name. */
  lemma AlignIdempotent(expected: seq<string>, cand: Row)
    ensures Align(expected, Align(expected, cand)) == Align(expected, cand)
  {
    var r := Align(expected, cand);
    forall i | 0 <= i < |expected|
      ensures Align(expected, r)[i] == r[i]
    {
      LookupAligned(expected, cand, expected[i]);
    }
  }
}
