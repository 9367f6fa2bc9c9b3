/** The checksum segment form: its validator and its edit handlers. */
module ChecksumForm {
  import opened Js
  import opened JsObject
  import opened Lingual
  import opened ImmerForm
  import opened FormInputs
  import SequenceRule

  /** The algorithms the select offers: only CRC32. */
  datatype Algorithm = CRC32

  function AlgorithmTag(a: Algorithm): string {
    match a
    case CRC32 => "CRC32"
  }

  /** The failures for the three validated fields' values, written in the
      order length, paddingCharactor, algorithm. */
  function FieldFailures(length: Value, padding: Value, algorithm: Value): Failures {
    var withLength: Failures := if IsNil(length) then map["length" := InvalidInput] else map[];
    var withPadding := if IsEmpty(padding) then withLength["paddingCharactor" := DataIsRequired] else withLength;
    if IsEmpty(algorithm) then withPadding["algorithm" := DataIsRequired] else withPadding
  }

  /** `validateChecksumForm(form)`: each key is set by its own condition only,
      so a form with all three fields present passes. */
  function ValidateChecksumForm(form: Object): (r: Failures)
    ensures "length" in r <==> IsNil(Get(form, "length"))
    ensures "paddingCharactor" in r <==> IsEmpty(Get(form, "paddingCharactor"))
    ensures "algorithm" in r <==> IsEmpty(Get(form, "algorithm"))
    ensures "length" in r ==> r["length"] == InvalidInput
    ensures "paddingCharactor" in r ==> r["paddingCharactor"] == DataIsRequired
    ensures "algorithm" in r ==> r["algorithm"] == DataIsRequired
    ensures r.Keys <= {"length", "paddingCharactor", "algorithm"}
    ensures r == map[] <==>
              !IsNil(Get(form, "length")) && !IsEmpty(Get(form, "paddingCharactor")) && !IsEmpty(Get(form, "algorithm"))
  {
    var r := FieldFailures(Get(form, "length"), Get(form, "paddingCharactor"), Get(form, "algorithm"));
    assert "length" in r || "paddingCharactor" in r || "algorithm" in r ==> r != map[];
    r
  }

  /** The algorithm select. */
  function EditAlgorithm(form: Object, a: Algorithm): (r: Object)
    ensures Get(r, "algorithm") == Str("CRC32")
    ensures forall k :: k != "algorithm" ==> Get(r, k) == Get(form, k)
    ensures "algorithm" !in ValidateChecksumForm(r)
  {
    Edit(form, "algorithm", Str(AlgorithmTag(a)))
  }

  /** The length input: a falsy entry becomes 1. */
  function EditLength(form: Object, v: Value): (r: Object)
    ensures Get(r, "length") == CoerceNumberInput(v)
    ensures forall k :: k != "length" ==> Get(r, k) == Get(form, k)
    ensures "length" !in ValidateChecksumForm(r)
  {
    Edit(form, "length", CoerceNumberInput(v))
  }

  /** The padding input: reduced to its last character, "0" when empty. */
  function EditPadding(form: Object, typed: string): (r: Object)
    ensures Get(r, "paddingCharactor") == PaddingInput(typed)
    ensures forall k :: k != "paddingCharactor" ==> Get(r, k) == Get(form, k)
    ensures "paddingCharactor" !in ValidateChecksumForm(r)
  {
    Edit(form, "paddingCharactor", PaddingInput(typed))
  }

  // ---------------------------------------------------------------------------
  // Lemmas

  /** After a padding edit the checksum preview is `length` copies of the last
      character typed ("0" when nothing was typed). */
  lemma PaddingEditRenders(form: Object, typed: string)
    ensures var c := if typed == [] then '0' else typed[|typed| - 1];
      var length := ToInteger(Get(form, "length"));
      SequenceRule.RenderChecksum(EditPadding(form, typed)) == Repeat(c, if length <= 0 then 0 else length)
  {
    var r := EditPadding(form, typed);
    var c := if typed == [] then '0' else typed[|typed| - 1];
    assert PadChars(Get(r, "paddingCharactor")) == [c];
    assert Get(r, "length") == Get(form, "length");
    SequenceRule.ChecksumOfOneCharacter(r, c);
  }

  /** Editing the three fields in turn yields a form that passes. */
  lemma EditedFormPasses(form: Object, a: Algorithm, length: Value, typed: string)
    ensures ValidateChecksumForm(EditPadding(EditLength(EditAlgorithm(form, a), length), typed)) == map[]
  {
    var r := EditPadding(EditLength(EditAlgorithm(form, a), length), typed);
    assert Get(r, "algorithm") == Str("CRC32");
    assert Get(r, "length") == CoerceNumberInput(length);
  }
}
