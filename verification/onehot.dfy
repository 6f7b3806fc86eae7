/** One-hot expansion of the four categorical fields: each selected value adds
    one indicator column named `{field}_{value}` holding 1 to the assembled
    record. */
module OneHot {
  import opened Options
  import opened Frame
  import opened Assembler

  datatype CategoricalField = AgeGroup | Education | Race | Sex

  /** The categorical fields in the order the expansion loop visits them. */
  const CategoricalFields: seq<CategoricalField> := [AgeGroup, Education, Race, Sex]

  /** The column prefix of a categorical field: its name in the schema. */
  function Prefix(c: CategoricalField): (p: string)
  {
    match c
    case AgeGroup => "age_group"
    case Education => "education"
    case Race => "race"
    case Sex => "sex"
  }

  /** The form's selection for a categorical field. */
  function Selection(f: FormInput, c: CategoricalField): (choice: Choice)
  {
    match c
    case AgeGroup => f.ageGroup
    case Education => f.education
    case Race => f.race
    case Sex => f.sex
  }

  /** The form with the selection for `c` replaced. */
  function WithSelection(f: FormInput, c: CategoricalField, choice: Choice): (g: FormInput)
    ensures Selection(g, c) == choice
    ensures forall d :: d != c ==> Selection(g, d) == Selection(f, d)
  {
    match c
    case AgeGroup => f.(ageGroup := choice)
    case Education => f.(education := choice)
    case Race => f.(race := choice)
    case Sex => f.(sex := choice)
  }

  /** The indicator column name for value `text` of field `c`. */
  function IndicatorName(c: CategoricalField, text: string): (n: string)
  {
    Prefix(c) + "_" + text
  }

  /** `name` is an indicator column of field `c`, for some value. */
  predicate IsIndicatorOf(name: string, c: CategoricalField)
  {
    |Prefix(c)| + 1 <= |name| && name[..|Prefix(c)| + 1] == Prefix(c) + "_"
  }

  /** The indicator columns of a one-element series: one column holding 1 for
      a present value, none for a missing one. */
  function Dummies(c: CategoricalField, choice: Choice): (r: Row)
    ensures choice.Missing? ==> r == []
    ensures choice.Chosen? ==> Names(r) == [IndicatorName(c, choice.text)]
    ensures forall i :: 0 <= i < |r| ==> r[i].value == 1
  {
    match choice
    case Missing => []
    case Chosen(text) => [Column(IndicatorName(c, text), 1)]
  }

  /** The expansion loop: for each field in turn, its indicator columns are
      appended to the right of the row. */
  function ExpandFields(row: Row, f: FormInput, fields: seq<CategoricalField>): (r: Row)
    ensures |row| <= |r| <= |row| + |fields|
    ensures forall i :: 0 <= i < |row| ==> r[i] == row[i]
    ensures forall i :: |row| <= i < |r| ==> r[i].value == 1
    decreases |fields|
  {
    if |fields| == 0 then row
    else ExpandFields(row + Dummies(fields[0], Selection(f, fields[0])), f, fields[1..])
  }

  /** The candidate columns: the assembled record followed by the indicators. */
  function Candidate(f: FormInput): (r: Row)
    ensures 23 <= |r| <= 27
    ensures r[..23] == Assemble(f)
    ensures forall i :: 23 <= i < |r| ==> r[i].value == 1
  {
    ExpandFields(Assemble(f), f, CategoricalFields)
  }

  /** The expansion loop unrolled over the four fields. */
  lemma CandidateShape(f: FormInput)
    ensures Candidate(f) ==
      Assemble(f) + Dummies(AgeGroup, f.ageGroup) + Dummies(Education, f.education) +
      Dummies(Race, f.race) + Dummies(Sex, f.sex)
  {
    var r0 := Assemble(f);
    var r1 := r0 + Dummies(AgeGroup, f.ageGroup);
    var r2 := r1 + Dummies(Education, f.education);
    var r3 := r2 + Dummies(Race, f.race);
    var r4 := r3 + Dummies(Sex, f.sex);
    assert CategoricalFields[1..] == [Education, Race, Sex];
    assert CategoricalFields[1..][1..] == [Race, Sex];
    assert CategoricalFields[1..][1..][1..] == [Sex];
    assert ExpandFields(r4, f, []) == r4;
    assert ExpandFields(r3, f, [Sex]) == r4;
    assert ExpandFields(r2, f, [Race, Sex]) == r4;
    assert ExpandFields(r1, f, [Education, Race, Sex]) == r4;
  }

  /** Indicator names tell their field and value apart. */
  lemma IndicatorNameInjective(c: CategoricalField, v: string, d: CategoricalField, w: string)
    ensures IndicatorName(c, v) == IndicatorName(d, w) <==> c == d && v == w
  {
    if IndicatorName(c, v) == IndicatorName(d, w) {
      assert Prefix(c)[0] == IndicatorName(c, v)[0] == IndicatorName(d, w)[0] == Prefix(d)[0];
      assert c == d;
      var k := |Prefix(c)| + 1;
      assert v == IndicatorName(c, v)[k..];
      assert w == IndicatorName(d, w)[k..];
    }
  }

  /** Every indicator name of field `c` is recognised as one, and as no
      other field's. */
  lemma IndicatorNameIsIndicator(c: CategoricalField, v: string, d: CategoricalField)
    ensures IsIndicatorOf(IndicatorName(c, v), d) <==> c == d
  {
    var n := IndicatorName(c, v);
    if c == d {
      assert n[..|Prefix(c)| + 1] == Prefix(c) + "_";
    } else {
      assert n[0] == Prefix(c)[0] != Prefix(d)[0];
      assert |Prefix(d)| + 1 <= |n| ==> n[..|Prefix(d)| + 1][0] == n[0];
    }
  }

  /** The scalar field names start with letters no categorical prefix starts with. */
  lemma ScalarInitials()
    ensures forall n :: n in ScalarFields ==> |n| > 0 && n[0] != 'a' && n[0] != 'e' && n[0] != 'r' && n[0] != 's'
  {
  }

  /** No scalar field name is an indicator name. */
  lemma IndicatorNotScalar(c: CategoricalField, v: string)
    ensures IndicatorName(c, v) !in ScalarFields
  {
    var n := IndicatorName(c, v);
    assert n[0] == Prefix(c)[0];
    assert n[0] == 'a' || n[0] == 'e' || n[0] == 'r' || n[0] == 's';
    ScalarInitials();
  }

  /** Appending a field's indicator columns keeps the names distinct when the
      selected indicator is new. */
  lemma DistinctDummies(row: Row, c: CategoricalField, choice: Choice)
    requires Distinct(Names(row))
    requires choice.Chosen? ==> IndicatorName(c, choice.text) !in Names(row)
    ensures Distinct(Names(row + Dummies(c, choice)))
  {
    match choice
    case Missing =>
      assert row + Dummies(c, choice) == row;
    case Chosen(text) =>
      DistinctSnoc(row, Column(IndicatorName(c, text), 1));
  }

  /** Appending a field's indicator columns only changes lookups of that
      field's selected indicator. */
  lemma LookupDummies(row: Row, c: CategoricalField, choice: Choice, n: string)
    ensures Lookup(row + Dummies(c, choice), n) ==
      if choice.Chosen? && n == IndicatorName(c, choice.text) then Some(1) else Lookup(row, n)
  {
    LookupAppend(row, Dummies(c, choice), n);
  }

  /** Appending the four fields' indicator columns to a row without the
      name `IndicatorName(c, w)` makes it hold that name exactly when `w` is
      the selected value of `c`, and then with 1. */
  lemma ExpandedIndicator(row: Row, f: FormInput, c: CategoricalField, w: string)
    requires IndicatorName(c, w) !in Names(row)
    ensures Lookup(row + Dummies(AgeGroup, f.ageGroup) + Dummies(Education, f.education) +
                   Dummies(Race, f.race) + Dummies(Sex, f.sex), IndicatorName(c, w)) ==
      if Selection(f, c) == Chosen(w) then Some(1) else None
  {
    var n := IndicatorName(c, w);
    assert Selection(f, AgeGroup) == f.ageGroup;
    assert Selection(f, Education) == f.education;
    assert Selection(f, Race) == f.race;
    assert Selection(f, Sex) == f.sex;
    if f.ageGroup.Chosen? { IndicatorNameInjective(c, w, AgeGroup, f.ageGroup.text); }
    if f.education.Chosen? { IndicatorNameInjective(c, w, Education, f.education.text); }
    if f.race.Chosen? { IndicatorNameInjective(c, w, Race, f.race.text); }
    if f.sex.Chosen? { IndicatorNameInjective(c, w, Sex, f.sex.text); }
    var r1 := row + Dummies(AgeGroup, f.ageGroup);
    var r2 := r1 + Dummies(Education, f.education);
    var r3 := r2 + Dummies(Race, f.race);
    LookupDummies(r3, Sex, f.sex, n);
    LookupDummies(r2, Race, f.race, n);
    LookupDummies(r1, Education, f.education, n);
    LookupDummies(row, AgeGroup, f.ageGroup, n);
  }

  /** The candidate holds the indicator of value `w` of field `c` exactly
      when `w` is the selected value, and then it holds 1. */
  lemma CandidateIndicator(f: FormInput, c: CategoricalField, w: string)
    ensures Lookup(Candidate(f), IndicatorName(c, w)) ==
      if Selection(f, c) == Chosen(w) then Some(1) else None
  {
    CandidateShape(f);
    IndicatorNotScalar(c, w);
    ExpandedIndicator(Assemble(f), f, c, w);
  }

  /** The one-hot step leaves every scalar field's value as assembled. */
  lemma CandidateScalar(f: FormInput, n: string)
    requires n in ScalarFields
    ensures Lookup(Candidate(f), n) == Lookup(Assemble(f), n)
  {
    CandidateShape(f);
    forall c: CategoricalField, v: string
      ensures n != IndicatorName(c, v)
    {
      IndicatorNotScalar(c, v);
    }
    var r0 := Assemble(f);
    var r1 := r0 + Dummies(AgeGroup, f.ageGroup);
    var r2 := r1 + Dummies(Education, f.education);
    var r3 := r2 + Dummies(Race, f.race);
    LookupDummies(r3, Sex, f.sex, n);
    LookupDummies(r2, Race, f.race, n);
    LookupDummies(r1, Education, f.education, n);
    LookupDummies(r0, AgeGroup, f.ageGroup, n);
  }

  /** The candidate's column names never repeat: the scalar fields are
      distinct, and each indicator is new when it is appended. */
  lemma CandidateDistinct(f: FormInput)
    ensures Distinct(Names(Candidate(f)))
  {
    CandidateShape(f);
    var r0 := Assemble(f);
    var r1 := r0 + Dummies(AgeGroup, f.ageGroup);
    var r2 := r1 + Dummies(Education, f.education);
    var r3 := r2 + Dummies(Race, f.race);
    ScalarFieldsDistinct();
    NewIndicator(r0, [], f, AgeGroup);
    DistinctDummies(r0, AgeGroup, f.ageGroup);
    NewIndicator(r0, [AgeGroup], f, Education);
    DistinctDummies(r1, Education, f.education);
    NewIndicator(r0, [AgeGroup, Education], f, Race);
    DistinctDummies(r2, Race, f.race);
    NewIndicator(r0, [AgeGroup, Education, Race], f, Sex);
    DistinctDummies(r3, Sex, f.sex);
  }

  /** After the record and the indicators of the fields before `c`, the
      indicator of `c`'s selection is not yet present. */
  lemma NewIndicator(r0: Row, before: seq<CategoricalField>, f: FormInput, c: CategoricalField)
    requires Names(r0) == ScalarFields
    requires c !in before
    ensures Selection(f, c).Chosen? ==>
      IndicatorName(c, Selection(f, c).text) !in Names(ExpandFields(r0, f, before))
    decreases |before|
  {
    if Selection(f, c).Chosen? {
      var n := IndicatorName(c, Selection(f, c).text);
      IndicatorNotScalar(c, Selection(f, c).text);
      NewIndicatorStep(r0, before, f, n, c);
    }
  }

  /** A name that is not a scalar field and is no indicator of a field in
      `before` is absent after expanding over `before`. */
  lemma {:induction false} NewIndicatorStep(row: Row, before: seq<CategoricalField>, f: FormInput, n: string, c: CategoricalField)
    requires n !in Names(row)
    requires c !in before
    requires Selection(f, c).Chosen? && n == IndicatorName(c, Selection(f, c).text)
    ensures n !in Names(ExpandFields(row, f, before))
    decreases |before|
  {
    if |before| > 0 {
      var d := before[0];
      var choice := Selection(f, d);
      if choice.Chosen? {
        IndicatorNameInjective(c, Selection(f, c).text, d, choice.text);
      }
      LookupDummies(row, d, choice, n);
      NewIndicatorStep(row + Dummies(d, choice), before[1..], f, n, c);
    }
  }
}
