/** The whole preparation step: assemble the record, add the one-hot
    indicators, align onto the classifier's feature list. The feature list is
    a parameter; the row it yields is what the classifiers are given. */
module Pipeline {
  import opened Frame
  import opened Assembler
  import opened OneHot
  import opened Aligner

  /** The aligned row for a form and a classifier's feature list. */
  function PrepareRow(f: FormInput, expected: seq<string>): (r: Row)
  {
    Align(expected, Candidate(f))
  }

  /** The preparation as the page runs it, with the alignment loop. */
  method Prepare(f: FormInput, expected: seq<string>) returns (row: Row)
    ensures row == PrepareRow(f, expected)
    ensures Names(row) == expected
  {
    CandidateDistinct(f);
    row := AlignColumns(expected, Candidate(f));
  }

  /** A name the candidate holds is a scalar field or the indicator of a
      selected value, and conversely. */
  lemma CandidateNames(f: FormInput, n: string)
    ensures n in Names(Candidate(f)) <==>
      n in ScalarFields ||
      exists c :: Selection(f, c).Chosen? && n == IndicatorName(c, Selection(f, c).text)
  {
    if n in ScalarFields {
      CandidateScalar(f, n);
      ScalarFieldsDistinct();
      var k :| 0 <= k < |ScalarFields| && ScalarFields[k] == n;
      assert Names(Assemble(f))[k] == n;
    } else if c :| Selection(f, c).Chosen? && n == IndicatorName(c, Selection(f, c).text) {
      CandidateIndicator(f, c, Selection(f, c).text);
    } else {
      CandidateShape(f);
      var r0 := Assemble(f);
      var r1 := r0 + Dummies(AgeGroup, f.ageGroup);
      var r2 := r1 + Dummies(Education, f.education);
      var r3 := r2 + Dummies(Race, f.race);
      assert Selection(f, AgeGroup) == f.ageGroup;
      assert Selection(f, Education) == f.education;
      assert Selection(f, Race) == f.race;
      assert Selection(f, Sex) == f.sex;
      LookupDummies(r3, Sex, f.sex, n);
      LookupDummies(r2, Race, f.race, n);
      LookupDummies(r1, Education, f.education, n);
      LookupDummies(r0, AgeGroup, f.ageGroup, n);
      assert Lookup(Candidate(f), n) == Lookup(r0, n);
    }
  }

  /** Each expected scalar field carries the assembled value unchanged. */
  lemma PreparedScalar(f: FormInput, expected: seq<string>, i: int)
    requires 0 <= i < |expected| && expected[i] in ScalarFields
    ensures PrepareRow(f, expected)[i] == Column(expected[i], Lookup(Assemble(f), expected[i]).value)
  {
    CandidateScalar(f, expected[i]);
  }

  /** For a categorical field, an expected indicator column holds 1 exactly
      when it names the selected value, and 0 otherwise. */
  lemma PreparedIndicator(f: FormInput, expected: seq<string>, c: CategoricalField, w: string, i: int)
    requires 0 <= i < |expected| && expected[i] == IndicatorName(c, w)
    ensures PrepareRow(f, expected)[i].value == if Selection(f, c) == Chosen(w) then 1 else 0
  {
    CandidateIndicator(f, c, w);
  }

  /** An expected column that is neither a scalar field nor the indicator of
      a selected value is 0. */
  lemma PreparedUnmatchedZero(f: FormInput, expected: seq<string>, i: int)
    requires 0 <= i < |expected| && expected[i] !in ScalarFields
    requires forall c :: Selection(f, c).Chosen? ==> expected[i] != IndicatorName(c, Selection(f, c).text)
    ensures PrepareRow(f, expected)[i].value == 0
  {
    CandidateNames(f, expected[i]);
  }

  /** Clearing the selection of `c` changes no lookup in the candidate other
      than that of the cleared indicator. */
  lemma ClearedSelectionLookup(f: FormInput, c: CategoricalField, n: string)
    requires Selection(f, c).Chosen? && n != IndicatorName(c, Selection(f, c).text)
    ensures Lookup(Candidate(f), n) == Lookup(Candidate(WithSelection(f, c, Missing)), n)
  {
    var g := WithSelection(f, c, Missing);
    assert Assemble(g) == Assemble(f);
    if n in ScalarFields {
      CandidateScalar(f, n);
      CandidateScalar(g, n);
    } else {
      CandidateNames(f, n);
      CandidateNames(g, n);
      if d :| Selection(f, d).Chosen? && n == IndicatorName(d, Selection(f, d).text) {
        assert d != c;
        CandidateIndicator(f, d, Selection(f, d).text);
        CandidateIndicator(g, d, Selection(f, d).text);
      }
    }
  }

  /** Every expected indicator of `c` is 0 when the selected value's own
      indicator is not expected. */
  lemma UnseenIndicatorsZero(f: FormInput, expected: seq<string>, c: CategoricalField)
    requires Selection(f, c).Chosen? && IndicatorName(c, Selection(f, c).text) !in expected
    ensures forall i :: 0 <= i < |expected| && IsIndicatorOf(expected[i], c) ==>
      PrepareRow(f, expected)[i].value == 0
  {
    forall i | 0 <= i < |expected| && IsIndicatorOf(expected[i], c)
      ensures PrepareRow(f, expected)[i].value == 0
    {
      var k := |Prefix(c)| + 1;
      var w := expected[i][k..];
      assert expected[i] == expected[i][..k] + w;
      assert expected[i] == IndicatorName(c, w);
      PreparedIndicator(f, expected, c, w, i);
    }
  }

  /** When the selected value of field `c` has no indicator among the
      expected names, alignment still yields a full row, every expected
      indicator of `c` is 0, and the row is the one a missing selection
      gives: the field contributes nothing. */
  lemma UnseenCategoryVanishes(f: FormInput, expected: seq<string>, c: CategoricalField)
    requires Selection(f, c).Chosen? && IndicatorName(c, Selection(f, c).text) !in expected
    ensures Names(PrepareRow(f, expected)) == expected
    ensures forall i :: 0 <= i < |expected| && IsIndicatorOf(expected[i], c) ==>
      PrepareRow(f, expected)[i].value == 0
    ensures PrepareRow(f, expected) == PrepareRow(WithSelection(f, c, Missing), expected)
  {
    UnseenIndicatorsZero(f, expected, c);
    var g := WithSelection(f, c, Missing);
    forall n | n in expected
      ensures Lookup(Candidate(f), n) == Lookup(Candidate(g), n)
    {
      ClearedSelectionLookup(f, c, n);
    }
    AlignCongruent(expected, Candidate(f), Candidate(g));
  }

  /** Preparing is idempotent: re-aligning a prepared row onto the same list
      gives the same row. */
  lemma PrepareIdempotent(f: FormInput, expected: seq<string>)
    ensures Align(expected, PrepareRow(f, expected)) == PrepareRow(f, expected)
  {
    AlignIdempotent(expected, Candidate(f));
  }
}
