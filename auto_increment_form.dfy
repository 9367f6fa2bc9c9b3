/** The auto-increment segment form: its validator and its edit handlers. */
module AutoIncrementForm {
  import opened Js
  import opened JsObject
  import opened CodeRule
  import opened Lingual
  import opened ImmerForm
  import opened FormInputs

  /** `Math.pow(10, e)` for an integer exponent, exactly. */
  function Power(e: int): real {
    if e >= 0 then Pow10(e) as real else 1.0 / (Pow10(-e) as real)
  }

  /** `Math.pow(10, form.length || 1) - 1` for a form whose length is `length`;
      None when it is NaN. */
  function MaxStartValue(length: Value): Option<real> {
    match ToNumber(Or(length, Num(1)))
    case None => None
    case Some(e) => Some(Power(e) - 1.0)
  }

  /** `form.start > maxStartValue`, a comparison with NaN being false. */
  predicate StartExceedsMax(start: Value, length: Value) {
    match (ToNumber(start), MaxStartValue(length))
    case (Some(s), Some(bound)) => s as real > bound
    case _ => false
  }

  /** The failures for the four validated fields' values, written in the order
      length, period, paddingCharactor, start. */
  function FieldFailures(length: Value, period: Value, padding: Value, start: Value): Failures {
    var withLength: Failures := if IsNil(length) then map["length" := InvalidInput] else map[];
    var withPeriod := if IsEmpty(period) then withLength["period" := DataIsRequired] else withLength;
    var withPadding := if IsEmpty(padding) then withPeriod["paddingCharactor" := DataIsRequired] else withPeriod;
    if StartExceedsMax(start, length) then withPadding["start" := MaximumNotBeExceed(MaxStartValue(length).value)]
    else withPadding
  }

  /** `validateAutoIncrementForm(form)`: one message for each failing field. */
  function ValidateAutoIncrementForm(form: Object): (r: Failures)
    ensures "length" in r <==> IsNil(Get(form, "length"))
    ensures "period" in r <==> IsEmpty(Get(form, "period"))
    ensures "paddingCharactor" in r <==> IsEmpty(Get(form, "paddingCharactor"))
    ensures "start" in r <==> StartExceedsMax(Get(form, "start"), Get(form, "length"))
    ensures "length" in r ==> r["length"] == InvalidInput
    ensures "period" in r ==> r["period"] == DataIsRequired
    ensures "paddingCharactor" in r ==> r["paddingCharactor"] == DataIsRequired
    ensures "start" in r ==> r["start"] == MaximumNotBeExceed(MaxStartValue(Get(form, "length")).value)
    ensures r.Keys <= {"length", "period", "paddingCharactor", "start"}
  {
    FieldFailures(Get(form, "length"), Get(form, "period"), Get(form, "paddingCharactor"), Get(form, "start"))
  }

  /** The period select: one of the four periods. */
  function EditPeriod(form: Object, p: Period): (r: Object)
    ensures Get(r, "period") == Str(PeriodTag(p))
    ensures forall k :: k != "period" ==> Get(r, k) == Get(form, k)
    ensures "period" !in ValidateAutoIncrementForm(r)
  {
    Edit(form, "period", Str(PeriodTag(p)))
  }

  /** The length input: a falsy entry becomes 1. */
  function EditLength(form: Object, v: Value): (r: Object)
    ensures Get(r, "length") == CoerceNumberInput(v)
    ensures forall k :: k != "length" ==> Get(r, k) == Get(form, k)
    ensures "length" !in ValidateAutoIncrementForm(r)
  {
    Edit(form, "length", CoerceNumberInput(v))
  }

  /** The padding input: reduced to its last character, "0" when empty. */
  function EditPadding(form: Object, typed: string): (r: Object)
    ensures Get(r, "paddingCharactor") == PaddingInput(typed)
    ensures forall k :: k != "paddingCharactor" ==> Get(r, k) == Get(form, k)
    ensures "paddingCharactor" !in ValidateAutoIncrementForm(r)
  {
    Edit(form, "paddingCharactor", PaddingInput(typed))
  }

  /** The initial value input: a falsy entry becomes 1. */
  function EditStart(form: Object, v: Value): (r: Object)
    ensures Get(r, "start") == CoerceNumberInput(v)
    ensures forall k :: k != "start" ==> Get(r, k) == Get(form, k)
  {
    Edit(form, "start", CoerceNumberInput(v))
  }

  // ---------------------------------------------------------------------------
  // Lemmas

  /** For an integer length L >= 0 (0 counting as 1), an integer start s fails
      exactly when it exceeds 10^L - 1, the largest number of L digits; that
      bound itself passes. */
  lemma {:induction false} StartBound(form: Object, length: int, start: int)
    requires Get(form, "length") == Num(length) && length >= 0
    requires Get(form, "start") == Num(start)
    ensures var e := if length == 0 then 1 else length;
      && ("start" in ValidateAutoIncrementForm(form) <==> start >= Pow10(e))
      && ("start" in ValidateAutoIncrementForm(form) ==>
            ValidateAutoIncrementForm(form)["start"] == MaximumNotBeExceed((Pow10(e) - 1) as real))
  {
    var e := if length == 0 then 1 else length;
    MaxStartOfLength(length, e);
    ExceedsMaxOfStart(start, length, e);
  }

  /** The bound for a length L >= 0 is 10^L - 1, a length of 0 counting as 1. */
  lemma MaxStartOfLength(length: int, e: nat)
    requires length >= 0 && e == if length == 0 then 1 else length
    ensures MaxStartValue(Num(length)) == Some((Pow10(e) - 1) as real)
  {
    assert Or(Num(length), Num(1)) == Num(e);
  }

  lemma ExceedsMaxOfStart(start: int, length: int, e: nat)
    requires MaxStartValue(Num(length)) == Some((Pow10(e) - 1) as real)
    ensures StartExceedsMax(Num(start), Num(length)) <==> start >= Pow10(e)
  {
  }

  /** A start that passes the validator fits in `length` digits, so its
      zero-padded preview is exactly `length` wide. */
  lemma {:induction false} ValidStartFitsLength(form: Object, length: int, start: nat)
    requires Get(form, "length") == Num(length) && length >= 1
    requires Get(form, "start") == Num(start)
    requires "start" !in ValidateAutoIncrementForm(form)
    ensures |NatToString(start)| <= length
    ensures |PadStart(NatToString(start), length, "0")| == length
  {
    StartBound(form, length, start);
    NatToStringShort(start, length);
  }

  /** A form of one digit starting at 1, with a period and a padding
      character, passes. */
  lemma OneDigitPasses(form: Object)
    requires Get(form, "length") == Num(1) && Get(form, "start") == Num(1)
    requires Get(form, "period") == Str("forever") && Get(form, "paddingCharactor") == Str("0")
    ensures ValidateAutoIncrementForm(form) == map[]
  {
    var r := ValidateAutoIncrementForm(form);
    assert !StartExceedsMax(Num(1), Num(1)) by {
      MaxStartOfLength(1, 1);
      assert Pow10(1) == 10;
    }
    assert r.Keys == {};
  }

  /** `scope` is never validated: changing it changes no failure. */
  lemma {:induction false} ScopeNotValidated(form: Object, v: Value)
    ensures ValidateAutoIncrementForm(Edit(form, "scope", v)) == ValidateAutoIncrementForm(form)
  {
    UnvalidatedEdit(form, "scope", v);
  }

  /** Editing a field other than the four validated ones changes no failure. */
  lemma UnvalidatedEdit(form: Object, key: string, v: Value)
    requires key != "length" && key != "period" && key != "paddingCharactor" && key != "start"
    ensures ValidateAutoIncrementForm(Edit(form, key, v)) == ValidateAutoIncrementForm(form)
  {
    var edited := Edit(form, key, v);
    EditKeeps(form, key, v, "length");
    EditKeeps(form, key, v, "period");
    EditKeeps(form, key, v, "paddingCharactor");
    EditKeeps(form, key, v, "start");
    SameFieldsSameFailures(edited, form);
  }

  /** Forms that agree on the four validated fields fail alike. */
  lemma SameFieldsSameFailures(a: Object, b: Object)
    requires Get(a, "length") == Get(b, "length") && Get(a, "period") == Get(b, "period")
    requires Get(a, "paddingCharactor") == Get(b, "paddingCharactor") && Get(a, "start") == Get(b, "start")
    ensures ValidateAutoIncrementForm(a) == ValidateAutoIncrementForm(b)
  {
  }
}
