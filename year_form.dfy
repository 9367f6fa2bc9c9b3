/** The year segment form: a validator that never fails and the length select. */
module YearForm {
  import opened Js
  import opened JsObject
  import opened ImmerForm
  import opened FormInputs
  import SequenceRule

  /** The lengths the select offers. */
  datatype YearLength = Two | Four

  function Digits(l: YearLength): int {
    match l
    case Two => 2
    case Four => 4
  }

  /** `validateYearForm(form)`: no check at all. */
  function ValidateYearForm(form: Object): (r: Failures)
    ensures r == map[]
  {
    map[]
  }

  /** The length select. */
  function EditLength(form: Object, l: YearLength): (r: Object)
    ensures Get(r, "length") == Num(Digits(l))
    ensures forall k :: k != "length" ==> Get(r, k) == Get(form, k)
  {
    Edit(form, "length", Num(Digits(l)))
  }

  // ---------------------------------------------------------------------------
  // Lemmas

  /** After choosing a length, a year from 1000 to 9999 previews with exactly
      the chosen number of digits. */
  lemma ChosenLengthRenders(form: Object, l: YearLength, cal: SequenceRule.Calendar)
    requires 1000 <= cal.year < 10000
    ensures |SequenceRule.RenderYear(EditLength(form, l), cal)| == Digits(l)
  {
    var r := EditLength(form, l);
    assert Get(r, "length") == Num(Digits(l));
    if l == Two {
      assert LooseEqualsNumber(Num(2), 2);
      SequenceRule.YearWidth(r, cal);
    } else {
      assert !LooseEqualsNumber(Num(4), 2);
      SequenceRule.YearWidth(r, cal);
    }
  }
}
