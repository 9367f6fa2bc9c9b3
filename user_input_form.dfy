/** The user-input segment form: its validator and its edit handlers. */
module UserInputForm {
  import opened Js
  import opened JsObject
  import opened Lingual
  import opened ImmerForm
  import opened FormInputs

  /** The failures for the two validated fields' values, written in the order
      length, parameterName. */
  function FieldFailures(length: Value, parameterName: Value): Failures {
    var withLength: Failures := if IsNil(length) then map["length" := InvalidInput] else map[];
    if IsEmpty(parameterName) then withLength["parameterName" := ParameterNameRequired] else withLength
  }

  /** `validateUserInputForm(form)`. */
  function ValidateUserInputForm(form: Object): (r: Failures)
    ensures "length" in r <==> IsNil(Get(form, "length"))
    ensures "parameterName" in r <==> IsEmpty(Get(form, "parameterName"))
    ensures "length" in r ==> r["length"] == InvalidInput
    ensures "parameterName" in r ==> r["parameterName"] == ParameterNameRequired
    ensures r.Keys <= {"length", "parameterName"}
    ensures r == map[] <==> !IsNil(Get(form, "length")) && !IsEmpty(Get(form, "parameterName"))
  {
    var r := FieldFailures(Get(form, "length"), Get(form, "parameterName"));
    assert "length" in r || "parameterName" in r ==> r != map[];
    r
  }

  /** The length input: a falsy entry becomes 1. */
  function EditLength(form: Object, v: Value): (r: Object)
    ensures Get(r, "length") == CoerceNumberInput(v)
    ensures forall k :: k != "length" ==> Get(r, k) == Get(form, k)
    ensures "length" !in ValidateUserInputForm(r)
  {
    Edit(form, "length", CoerceNumberInput(v))
  }

  /** The parameter name input: the text as typed; only an empty name fails. */
  function EditParameterName(form: Object, typed: string): (r: Object)
    ensures Get(r, "parameterName") == Str(typed)
    ensures forall k :: k != "parameterName" ==> Get(r, k) == Get(form, k)
    ensures "parameterName" in ValidateUserInputForm(r) <==> typed == ""
  {
    Edit(form, "parameterName", Str(typed))
  }
}
