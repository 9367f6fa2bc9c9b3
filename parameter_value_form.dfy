/** The parameter-value segment form: its validator and its one edit handler. */
module ParameterValueForm {
  import opened Js
  import opened JsObject
  import opened Lingual
  import opened ImmerForm
  import opened FormInputs

  /** `validateParameterValueForm(form)`: only `parameterName` is checked. */
  function ValidateParameterValueForm(form: Object): (r: Failures)
    ensures "parameterName" in r <==> IsEmpty(Get(form, "parameterName"))
    ensures "parameterName" in r ==> r["parameterName"] == ParameterNameRequired
    ensures r.Keys <= {"parameterName"}
  {
    if IsEmpty(Get(form, "parameterName")) then map["parameterName" := ParameterNameRequired] else map[]
  }

  /** The parameter name input; `length` has no input here. */
  function EditParameterName(form: Object, typed: string): (r: Object)
    ensures Get(r, "parameterName") == Str(typed)
    ensures forall k :: k != "parameterName" ==> Get(r, k) == Get(form, k)
    ensures ValidateParameterValueForm(r) == map[] <==> typed != ""
  {
    var r := Edit(form, "parameterName", Str(typed));
    assert typed == "" ==> "parameterName" in ValidateParameterValueForm(r);
    r
  }

  // ---------------------------------------------------------------------------
  // Lemmas

  /** Whatever `length` holds, the outcome is the same. */
  lemma LengthNotValidated(form: Object, v: Value)
    ensures ValidateParameterValueForm(Edit(form, "length", v)) == ValidateParameterValueForm(form)
  {
    assert Get(Edit(form, "length", v), "parameterName") == Get(form, "parameterName");
  }
}
