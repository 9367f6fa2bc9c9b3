/** The input handling the segment forms share: the number inputs that fall
    back to 1, the padding input reduced to one character, and the
    copy-on-write update of a single field. */
module FormInputs {
  import opened Js
  import opened JsObject

  /** A number input's value after `if (!value || value === "null" ||
      value === "undefined") value = 1`. */
  function CoerceNumberInput(v: Value): (r: Value)
    ensures !Truthy(v) || v == Str("null") || v == Str("undefined") ==> r == Num(1)
    ensures Truthy(v) && v != Str("null") && v != Str("undefined") ==> r == v
    ensures Truthy(r) && !IsNil(r)
  {
    if !Truthy(v) || v == Str("null") || v == Str("undefined") then Num(1) else v
  }

  /** The padding input after `last(value || "0")`: its last character, or "0"
      when nothing was typed. */
  function PaddingInput(typed: string): (r: Value)
    ensures typed != [] ==> r == Str([typed[|typed| - 1]])
    ensures typed == [] ==> r == Str("0")
    ensures r.Str? && |r.s| == 1
  {
    Last(if typed == [] then "0" else typed)
  }

  /** A copy-on-write update of one field (`produce(form, d => d[key] = v)`):
      the field reads v, every other field reads as before, and the form keeps
      its keys, gaining `key` at the end if it was missing. */
  function Edit(form: Object, key: string, v: Value): (r: Object)
    ensures Get(r, key) == v
    ensures forall k :: k != key ==> Get(r, k) == Get(form, k)
    ensures Keys(r) == if Has(form, key) then Keys(form) else Keys(form) + [key]
  {
    EditReads(form, key, v);
    Set(form, key, v)
  }

  /** A field other than the edited one reads as before. */
  lemma EditKeeps(form: Object, key: string, v: Value, k: string)
    requires k != key
    ensures Get(Edit(form, key, v), k) == Get(form, k)
  {
  }

  lemma EditReads(form: Object, key: string, v: Value)
    ensures Get(Set(form, key, v), key) == v
    ensures forall k :: k != key ==> Get(Set(form, key, v), k) == Get(form, k)
  {
    GetSet(form, key, v, key);
    forall k | k != key
      ensures Get(Set(form, key, v), k) == Get(form, k)
    {
      GetSet(form, key, v, k);
    }
  }
}
