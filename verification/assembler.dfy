/** The input assembler: the form's selections become the fixed record of 23
    scalar fields the classifiers were trained on, with constant defaults for
    the fields the form does not ask about. */
module Assembler {
  import opened Options
  import opened Frame

  /** A slider position; the slider widget bounds it to 0..3. */
  type Level = x: int | 0 <= x <= 3

  /** A categorical selection. The choices come from the distinct values of a
      column of the reference dataset, which can include a missing value;
      `Missing` stands for it. */
  datatype Choice = Missing | Chosen(text: string)

  /** The current state of the prediction form's controls. */
  datatype FormInput = FormInput(
    ageGroup: Choice,
    education: Choice,
    race: Choice,
    sex: Choice,
    h1n1Concern: Level,
    h1n1Knowledge: Level,
    doctorReccH1n1: bool,
    doctorReccSeasonal: bool,
    chronicMedCondition: bool,
    healthWorker: bool,
    healthInsurance: bool)

  /** Python's `int(b)` on a boolean. */
  function Flag(b: bool): (r: int)
    ensures r == 0 || r == 1
    ensures r == 1 <==> b
  {
    if b then 1 else 0
  }

  /** The field groups of the schema. */
  const SliderFields: seq<string> := ["h1n1_concern", "h1n1_knowledge"]
  const BehavioralFields: seq<string> := [
    "behavioral_antiviral_meds", "behavioral_avoidance", "behavioral_face_mask",
    "behavioral_wash_hands", "behavioral_large_gatherings",
    "behavioral_outside_home", "behavioral_touch_face"]
  const CheckboxFields: seq<string> := [
    "doctor_recc_h1n1", "doctor_recc_seasonal", "chronic_med_condition",
    "health_worker", "health_insurance"]
  const InfantField: string := "child_under_6_months"
  const OpinionFields: seq<string> := [
    "opinion_h1n1_vacc_effective", "opinion_h1n1_risk", "opinion_h1n1_sick_from_vacc",
    "opinion_seas_vacc_effective", "opinion_seas_risk", "opinion_seas_sick_from_vacc"]
  const HouseholdFields: seq<string> := ["household_adults", "household_children"]

  /** The 23 scalar fields in the order the record lists them: the sliders,
      the behavioural flags, three checkboxes, the infant field, the other two
      checkboxes, the opinions and the household counts. */
  const ScalarFields: seq<string> :=
    SliderFields + BehavioralFields + CheckboxFields[..3] + [InfantField] +
    CheckboxFields[3..] + OpinionFields + HouseholdFields

  /** A block of columns that all hold the same constant. */
  function Constant(names: seq<string>, v: int): (r: Row)
    ensures Names(r) == names
    ensures forall i :: 0 <= i < |r| ==> r[i].value == v
  {
    seq(|names|, i requires 0 <= i < |names| => Column(names[i], v))
  }

  /** The scalar record built from the form, block by block in the order of
      `ScalarFields`. */
  function Assemble(f: FormInput): (r: Row)
    ensures Names(r) == ScalarFields
  {
    [ Column("h1n1_concern", f.h1n1Concern),
      Column("h1n1_knowledge", f.h1n1Knowledge) ] +
    Constant(BehavioralFields, 0) +
    [ Column("doctor_recc_h1n1", Flag(f.doctorReccH1n1)),
      Column("doctor_recc_seasonal", Flag(f.doctorReccSeasonal)),
      Column("chronic_med_condition", Flag(f.chronicMedCondition)),
      Column(InfantField, 0),
      Column("health_worker", Flag(f.healthWorker)),
      Column("health_insurance", Flag(f.healthInsurance)) ] +
    Constant(OpinionFields, 3) +
    Constant(HouseholdFields, 0)
  }

  /** The schema has 23 fields and none of them repeats. */
  lemma ScalarFieldsDistinct()
    ensures |ScalarFields| == 23 && Distinct(ScalarFields)
  {
  }

  /** Every field of the assembled record is found by name with its own value. */
  lemma AssembleLookup(f: FormInput, i: int)
    requires 0 <= i < 23
    ensures Lookup(Assemble(f), ScalarFields[i]) == Some(Assemble(f)[i].value)
  {
    ScalarFieldsDistinct();
    LookupDistinct(Assemble(f), i);
  }


  /** A field of a group placed at `offset` in the record is found with the
      value the record holds there. */
  lemma GroupLookup(f: FormInput, group: seq<string>, offset: int, n: string) returns (i: int)
    requires 0 <= offset && offset + |group| <= 23
    requires ScalarFields[offset..offset + |group|] == group
    requires n in group
    ensures 0 <= i < 23 && Assemble(f)[i].name == n && offset <= i < offset + |group|
    ensures Lookup(Assemble(f), n) == Some(Assemble(f)[i].value)
  {
    var k :| 0 <= k < |group| && group[k] == n;
    i := offset + k;
    assert ScalarFields[i] == n;
    assert Names(Assemble(f))[i] == n;
    AssembleLookup(f, i);
  }

  /** The behavioural flags are all 0. */
  lemma BehavioralDefaults(f: FormInput)
    ensures forall n :: n in BehavioralFields ==> Lookup(Assemble(f), n) == Some(0)
  {
    forall n | n in BehavioralFields
      ensures Lookup(Assemble(f), n) == Some(0)
    {
      var i := GroupLookup(f, BehavioralFields, 2, n);
      assert Assemble(f)[i] == Constant(BehavioralFields, 0)[i - 2];
    }
  }

  /** The opinion fields are all at the scale's midpoint, 3. */
  lemma OpinionDefaults(f: FormInput)
    ensures forall n :: n in OpinionFields ==> Lookup(Assemble(f), n) == Some(3)
  {
    forall n | n in OpinionFields
      ensures Lookup(Assemble(f), n) == Some(3)
    {
      var i := GroupLookup(f, OpinionFields, 15, n);
      assert Assemble(f)[i] == Constant(OpinionFields, 3)[i - 15];
    }
  }

  /** The household counts and the infant field are 0. */
  lemma HouseholdDefaults(f: FormInput)
    ensures forall n :: n in HouseholdFields ==> Lookup(Assemble(f), n) == Some(0)
    ensures Lookup(Assemble(f), InfantField) == Some(0)
  {
    forall n | n in HouseholdFields
      ensures Lookup(Assemble(f), n) == Some(0)
    {
      var i := GroupLookup(f, HouseholdFields, 21, n);
      assert Assemble(f)[i] == Constant(HouseholdFields, 0)[i - 21];
    }
    var r := Assemble(f);
    assert r[12] == Column(InfantField, 0);
    ScalarFieldsDistinct();
    LookupDistinct(r, 12);
  }

  /** Each slider field carries its slider's position. */
  lemma SliderValues(f: FormInput)
    ensures Lookup(Assemble(f), "h1n1_concern") == Some(f.h1n1Concern as int)
    ensures Lookup(Assemble(f), "h1n1_knowledge") == Some(f.h1n1Knowledge as int)
  {
    var r := Assemble(f);
    assert r[0] == Column("h1n1_concern", f.h1n1Concern as int);
    assert r[1] == Column("h1n1_knowledge", f.h1n1Knowledge as int);
    ScalarFieldsDistinct();
    LookupDistinct(r, 0);
    LookupDistinct(r, 1);
  }

  /** Each checkbox field carries its own box as 0 or 1. */
  lemma CheckboxValues(f: FormInput)
    ensures Lookup(Assemble(f), "doctor_recc_h1n1") == Some(Flag(f.doctorReccH1n1))
    ensures Lookup(Assemble(f), "doctor_recc_seasonal") == Some(Flag(f.doctorReccSeasonal))
    ensures Lookup(Assemble(f), "chronic_med_condition") == Some(Flag(f.chronicMedCondition))
    ensures Lookup(Assemble(f), "health_worker") == Some(Flag(f.healthWorker))
    ensures Lookup(Assemble(f), "health_insurance") == Some(Flag(f.healthInsurance))
  {
    var r := Assemble(f);
    assert r[9] == Column("doctor_recc_h1n1", Flag(f.doctorReccH1n1));
    assert r[10] == Column("doctor_recc_seasonal", Flag(f.doctorReccSeasonal));
    assert r[11] == Column("chronic_med_condition", Flag(f.chronicMedCondition));
    assert r[13] == Column("health_worker", Flag(f.healthWorker));
    assert r[14] == Column("health_insurance", Flag(f.healthInsurance));
    ScalarFieldsDistinct();
    LookupDistinct(r, 9);
    LookupDistinct(r, 10);
    LookupDistinct(r, 11);
    LookupDistinct(r, 13);
    LookupDistinct(r, 14);
  }
}
