/** The generic validation helpers shared by the forms: the `required`,
    `maxLength`, `minLength` and `fn` checks, and the test for an empty failure
    object. */
module ImmerForm {
  import opened Js
  import opened Lingual

  /** `ISingleValidationResult`: passed, or failed with a reason. */
  datatype Check = Passed | Failed(reason: Message)

  /** `IShapedFailures`: the message recorded for each failing field. */
  type Failures = map<string, Message>

  /** `validationMethods.required`: fails on null and undefined, on the empty
      string and on the empty array; everything else passes, 0 and false
      included. */
  function Required(data: Value): (r: Check)
    ensures r.Failed? <==> IsNil(data) || data == Str("") || data == Arr([])
    ensures r.Failed? ==> r.reason == LblRequired
  {
    if IsNil(data) then Failed(LblRequired)
    else if data.Str? && |data.s| == 0 then Failed(LblRequired)
    else if data.Arr? && |data.items| == 0 then Failed(LblRequired)
    else Passed
  }

  /** `len <= n` with n converted to a number; NaN compares false. */
  predicate AtMost(len: int, n: Value) {
    match ToNumber(n)
    case Some(x) => len <= x
    case None => false
  }

  /** `len >= n` with n converted to a number; NaN compares false. */
  predicate AtLeast(len: int, n: Value) {
    match ToNumber(n)
    case Some(x) => len >= x
    case None => false
  }

  /** The reason given for data that has no `length` property. */
  function NoLength(data: Value): Message {
    Text(ToStr(data) + " has no length property")
  }

  /** `validationMethods.maxLength(n)(data)`. Reading `length` of null or
      undefined throws. */
  function MaxLength(n: Value, data: Value): (r: Outcome<Check>)
    ensures r.Throws? <==> IsNil(data)
    ensures !IsNil(data) && LengthOf(data).None? ==> r == Returns(Failed(NoLength(data)))
    ensures LengthOf(data).Some? ==>
              (r == Returns(Passed) <==> AtMost(LengthOf(data).value, n))
    ensures LengthOf(data).Some? && !AtMost(LengthOf(data).value, n) ==>
              r == Returns(Failed(MaxStringLength(JoinSeparator(n))))
  {
    if IsNil(data) then Throws
    else
      match LengthOf(data)
      case None => Returns(Failed(NoLength(data)))
      case Some(len) =>
        if AtMost(len, n) then Returns(Passed) else Returns(Failed(MaxStringLength(JoinSeparator(n))))
  }

  /** `validationMethods.minLength(n)(data)`. */
  function MinLength(n: Value, data: Value): (r: Outcome<Check>)
    ensures r.Throws? <==> IsNil(data)
    ensures !IsNil(data) && LengthOf(data).None? ==> r == Returns(Failed(NoLength(data)))
    ensures LengthOf(data).Some? ==>
              (r == Returns(Passed) <==> AtLeast(LengthOf(data).value, n))
    ensures LengthOf(data).Some? && !AtLeast(LengthOf(data).value, n) ==>
              r == Returns(Failed(MinStringLength(JoinSeparator(n))))
  {
    if IsNil(data) then Throws
    else
      match LengthOf(data)
      case None => Returns(Failed(NoLength(data)))
      case Some(len) =>
        if AtLeast(len, n) then Returns(Passed) else Returns(Failed(MinStringLength(JoinSeparator(n))))
  }

  /** `validationMethods.fn(f)(data)`: the check f itself, applied to data. */
  function Fn(f: Value -> Check, data: Value): (r: Check)
    ensures r == f(data)
  {
    f(data)
  }

  /** `isFailuresEmpty(failures)`: every value of the failure object, taken in
      key order (None standing for null or undefined), is absent. */
  function IsFailuresEmpty(values: seq<Option<Message>>): (r: bool)
    ensures r <==> forall i :: 0 <= i < |values| ==> values[i].None?
  {
    values == [] || (values[0].None? && IsFailuresEmpty(values[1..]))
  }

  // ---------------------------------------------------------------------------
  // Lemmas

  /** A string passes `maxLength(n)` and `minLength(m)` together exactly when
      its length in UTF-16 code units lies between m and n; for a string of
      Basic Multilingual Plane characters that is its number of characters. */
  lemma LengthWindow(s: string, m: int, n: int)
    ensures MaxLength(Num(n), Str(s)) == Returns(Passed) && MinLength(Num(m), Str(s)) == Returns(Passed)
            <==> m <= Utf16Length(s) <= n
    ensures InBmp(s) ==>
              (MaxLength(Num(n), Str(s)) == Returns(Passed) && MinLength(Num(m), Str(s)) == Returns(Passed)
               <==> m <= |s| <= n)
  {
    assert LengthOf(Str(s)) == Some(Utf16Length(s));
  }

  /** Failure objects are empty when both halves are. */
  lemma {:induction false} IsFailuresEmptyAppend(a: seq<Option<Message>>, b: seq<Option<Message>>)
    ensures IsFailuresEmpty(a + b) <==> IsFailuresEmpty(a) && IsFailuresEmpty(b)
  {
    assert forall i :: 0 <= i < |a| ==> (a + b)[i] == a[i];
    assert forall i :: 0 <= i < |b| ==> (a + b)[|a| + i] == b[i];
  }
}
