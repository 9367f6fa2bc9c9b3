/** The literal segment form: its validator and its one edit handler. */
module LiteralForm {
  import opened Js
  import opened JsObject
  import opened Lingual
  import opened ImmerForm
  import opened FormInputs

  /** `validateLiteralForm(form)`: only `content` is checked. */
  function ValidateLiteralForm(form: Object): (r: Failures)
    ensures "content" in r <==> IsEmpty(Get(form, "content"))
    ensures "content" in r ==> r["content"] == ContentRequired
    ensures r.Keys <= {"content"}
  {
    if IsEmpty(Get(form, "content")) then map["content" := ContentRequired] else map[]
  }

  /** The content input. */
  function EditContent(form: Object, typed: string): (r: Object)
    ensures Get(r, "content") == Str(typed)
    ensures forall k :: k != "content" ==> Get(r, k) == Get(form, k)
    ensures ValidateLiteralForm(r) == map[] <==> typed != ""
  {
    var r := Edit(form, "content", Str(typed));
    assert typed == "" ==> "content" in ValidateLiteralForm(r);
    r
  }
}
