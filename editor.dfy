/** The multi-segment rule editor: the list of segment forms, the focused
    position, the modified flag and the failures of the last confirmation, with
    the handlers that change them, and the editor's own form codec and
    validation dispatch. */
module Editor {
  import opened Js
  import opened JsObject
  import opened Types
  import opened CodeRule
  import opened Lingual
  import opened ImmerForm
  import opened FormInputs
  import SingleEditor
  import AutoIncrementForm
  import ChecksumForm
  import LiteralForm
  import ParameterValueForm
  import YearForm

  // ---------------------------------------------------------------------------
  // The editor's codec

  /** `getFormsFromSegments`, for one segment: `{type}` merged with the
      settings as name -> value. The note is not read. */
  function DecodeSegment(s: Segment): Object {
    Merge([Entry("type", s.ruleType)], FromPairs(SingleEditor.SettingPairs(s.settings)))
  }

  /** `getFormsFromSegments(segments)`. */
  function GetFormsFromSegments(segments: seq<Segment>): (r: seq<Object>)
    ensures |r| == |segments|
    ensures forall i :: 0 <= i < |segments| ==> r[i] == DecodeSegment(segments[i])
  {
    if segments == [] then [] else [DecodeSegment(segments[0])] + GetFormsFromSegments(segments[1..])
  }

  /** The settings `onConfirm` writes for a form: every field except `type`,
      `note` included, in field order, its value converted to a string. A field
      is written exactly when it is not `type`, every setting comes from a
      field, and `EncodedSettingsAppend` gives the order. */
  function EncodedSettings(form: Object): (r: seq<Setting>)
    ensures |r| <= |form|
    ensures forall i :: 0 <= i < |r| ==> r[i].name != "type" && r[i].value.Str?
    ensures forall i :: 0 <= i < |form| ==> (form[i].key != "type" <==> SingleEditor.SettingOfField(form[i]) in r)
    ensures forall x :: x in r ==> exists i :: 0 <= i < |form| && x == SingleEditor.SettingOfField(form[i])
  {
    if form == [] then []
    else
      var head := if form[0].key == "type" then [] else [SingleEditor.SettingOfField(form[0])];
      var rest := EncodedSettings(form[1..]);
      assert forall i :: 1 <= i < |form| ==> form[i] == form[1..][i - 1];
      assert forall x :: x in rest ==> exists i :: 1 <= i < |form| && x == SingleEditor.SettingOfField(form[i]) by {
        forall x | x in rest
          ensures exists i :: 1 <= i < |form| && x == SingleEditor.SettingOfField(form[i])
        {
          var j :| 0 <= j < |form[1..]| && x == SingleEditor.SettingOfField(form[1..][j]);
          assert x == SingleEditor.SettingOfField(form[j + 1]);
        }
      }
      head + rest
  }

  /** The segment `onConfirm` writes for a form: its type and its settings; it
      has no `note` of its own, and every field but `type` is among its
      settings as a string. */
  function EncodeForm(form: Object): (r: Segment)
    ensures r.ruleType == Get(form, "type") && r.note == Undefined
    ensures forall i :: 0 <= i < |form| ==> (form[i].key != "type" <==> SingleEditor.SettingOfField(form[i]) in r.settings)
  {
    Segment(Get(form, "type"), Undefined, EncodedSettings(form))
  }

  function EncodeForms(forms: seq<Object>): (r: seq<Segment>)
    ensures |r| == |forms|
    ensures forall i :: 0 <= i < |forms| ==> r[i] == EncodeForm(forms[i])
  {
    if forms == [] then [] else [EncodeForm(forms[0])] + EncodeForms(forms[1..])
  }

  // ---------------------------------------------------------------------------
  // The editor's validation

  /** The five kinds this editor validates; userInput is not among them. */
  predicate EditorValidated(k: RuleType) {
    k in {AutoIncrement, Checksum, Literal, ParameterValue, Year}
  }

  function ValidateKind(k: RuleType, form: Object): (r: Failures)
    ensures !EditorValidated(k) ==> r == map[]
  {
    match k
    case AutoIncrement => AutoIncrementForm.ValidateAutoIncrementForm(form)
    case Checksum => ChecksumForm.ValidateChecksumForm(form)
    case Literal => LiteralForm.ValidateLiteralForm(form)
    case ParameterValue => ParameterValueForm.ValidateParameterValueForm(form)
    case Year => YearForm.ValidateYearForm(form)
    case _ => map[]
  }

  /** The validation of one form in `getValidationResults`. */
  function ValidateForm(form: Object): (r: Failures)
    ensures KindOf(Get(form, "type")).None? ==> r == map[]
    ensures KindOf(Get(form, "type")).Some? ==> r == ValidateKind(KindOf(Get(form, "type")).value, form)
  {
    match KindOf(Get(form, "type"))
    case Some(k) => ValidateKind(k, form)
    case None => map[]
  }

  /** `getValidationResults(formList)`: one failure map per form, in order. */
  function GetValidationResults(forms: seq<Object>): (r: seq<Failures>)
    ensures |r| == |forms|
    ensures forall i :: 0 <= i < |forms| ==> r[i] == ValidateForm(forms[i])
  {
    if forms == [] then [] else [ValidateForm(forms[0])] + GetValidationResults(forms[1..])
  }

  /** `_.every(listedFailures, _.isEmpty)`. */
  predicate AllEmpty(listed: seq<Failures>) {
    forall i :: 0 <= i < |listed| ==> listed[i] == map[]
  }

  // ---------------------------------------------------------------------------
  // List operations

  /** `splice(at, 1)` on an array: the element at `at` removed, when there is one. */
  function RemoveAt<T>(l: seq<T>, at: nat): (r: seq<T>)
    ensures at < |l| ==> |r| == |l| - 1
    ensures at >= |l| ==> r == l
  {
    if at < |l| then l[..at] + l[at + 1..] else l
  }

  /** `splice(at, 0, x)` on an array: x inserted before position `at`, or at the
      end when `at` is past it. */
  function InsertAt<T>(l: seq<T>, at: nat, x: T): (r: seq<T>)
    ensures |r| == |l| + 1
  {
    if at <= |l| then l[..at] + [x] + l[at..] else l + [x]
  }

  /** Reference definition of a move: take the element out, then put it back so
      that it lands at position `to`. */
  function Moved<T>(l: seq<T>, from: nat, to: nat): (r: seq<T>)
    requires from < |l| && to < |l|
    ensures |r| == |l|
  {
    var rest := l[..from] + l[from + 1..];
    rest[..to] + [l[from]] + rest[to..]
  }

  /** The form a new segment starts with. */
  const BlankLiteral: Object := [Entry("type", Str("literal")), Entry("content", Str(""))]

  /** The form `onChangeType(k)` puts in place: the same defaults as the
      single-segment editor for five kinds, only `{type}` for the others. */
  function EditorDefaults(k: RuleType): (r: Object)
    ensures |r| >= 1 && r[0] == Entry("type", TypeValue(k))
  {
    var t := Entry("type", TypeValue(k));
    match k
    case AutoIncrement =>
      [t, Entry("scope", Str("plant")), Entry("period", Str("forever")), Entry("length", Num(1)),
       Entry("paddingCharactor", Str("0")), Entry("start", Num(1))]
    case Checksum => [t, Entry("algorithm", Str("CRC32")), Entry("length", Num(1)), Entry("paddingCharactor", Str("0"))]
    case Literal => [t, Entry("content", Str(""))]
    case ParameterValue => [t, Entry("parameterName", Str("")), Entry("length", Num(2))]
    case Year => [t, Entry("length", Num(2))]
    case _ => [t]
  }

  /** Whether the focused form is shown with an editing form, and so can
      submit: its type names a kind other than userInput. */
  predicate HasEditingForm(form: Object) {
    KindOf(Get(form, "type")).Some? && KindOf(Get(form, "type")).value != UserInput
  }

  /** The form a submission stores: auto-increment forms always get the "plant"
      scope. */
  function Submitted(shown: Object, form: Object): (r: Object)
    ensures KindOf(Get(shown, "type")) == Some(AutoIncrement) ==> Get(r, "scope") == Str("plant")
    ensures KindOf(Get(shown, "type")) == Some(AutoIncrement) ==>
              forall k :: k != "scope" ==> Get(r, k) == Get(form, k)
    ensures KindOf(Get(shown, "type")) != Some(AutoIncrement) ==> r == form
  {
    if KindOf(Get(shown, "type")) == Some(AutoIncrement) then Edit(form, "scope", Str("plant")) else form
  }

  // ---------------------------------------------------------------------------
  // The component

  /** `CodeRuleEditor`'s state. The drag markers (`movingPosition`,
      `droppingPosition`) only steer the drop hint and are not kept here. */
  class CodeRuleEditor {
    var formList: seq<Object>
    var isModified: bool
    var focusedPosition: int
    var listedFailures: seq<Failures>

    /** The initial state: the segments decoded, nothing modified, the first
        segment focused. */
    constructor(segments: seq<Segment>)
      ensures formList == GetFormsFromSegments(segments)
      ensures !isModified && focusedPosition == 0 && listedFailures == []
    {
      formList := GetFormsFromSegments(segments);
      isModified := false;
      focusedPosition := 0;
      listedFailures := [];
    }

    /** A click on the preview at `idx` focuses it. */
    method Click(idx: nat)
      modifies this
      ensures focusedPosition == idx
      ensures formList == old(formList) && isModified == old(isModified) && listedFailures == old(listedFailures)
    {
      focusedPosition := idx;
    }

    /** The remove button of the preview at `idx`: the form is taken out, the
        focus moves back one place when it was at or after `idx` (with no lower
        bound), and the list is marked modified. */
    method Remove(idx: nat)
      modifies this
      ensures formList == RemoveAt(old(formList), idx)
      ensures focusedPosition == if old(focusedPosition) >= idx then old(focusedPosition) - 1 else old(focusedPosition)
      ensures isModified && listedFailures == old(listedFailures)
    {
      formList := RemoveAt(formList, idx);
      if focusedPosition >= idx {
        focusedPosition := focusedPosition - 1;
      }
      isModified := true;
    }

    /** The add button: a blank literal is appended and focused. */
    method Insert()
      modifies this
      ensures formList == old(formList) + [BlankLiteral]
      ensures focusedPosition == |formList| - 1
      ensures isModified && listedFailures == old(listedFailures)
    {
      formList := formList + [BlankLiteral];
      focusedPosition := |formList| - 1;
      isModified := true;
    }

    /** `onMove(from, to)` for the indices of two shown previews: the two
        splices, the larger index first, move the form to `to`; the moved form
        is focused. Moving a form onto itself changes nothing. */
    method Move(from: nat, to: nat)
      requires from < |formList| && to < |formList|
      modifies this
      ensures from != to ==> formList == Moved(old(formList), from, to) && focusedPosition == to && isModified
      ensures from == to ==>
                formList == old(formList) && focusedPosition == old(focusedPosition) && isModified == old(isModified)
      ensures listedFailures == old(listedFailures)
    {
      if from < to {
        ghost var before := formList;
        var x := formList[from];
        formList := InsertAt(formList, to + 1, x);
        formList := RemoveAt(formList, from);
        ForwardMove(before, from, to);
        focusedPosition := to;
        isModified := true;
      } else if from > to {
        ghost var before := formList;
        var x := formList[from];
        formList := RemoveAt(formList, from);
        formList := InsertAt(formList, to, x);
        BackwardMove(before, from, to);
        focusedPosition := to;
        isModified := true;
      }
    }

    /** A submission from the focused form's editing form. That form is only
        shown for a focused form that exists and has a kind other than
        userInput. */
    method SubmitFocusedForm(form: Object)
      requires 0 <= focusedPosition < |formList| && HasEditingForm(formList[focusedPosition])
      modifies this
      ensures formList == old(formList)[old(focusedPosition) := Submitted(old(formList)[old(focusedPosition)], form)]
      ensures isModified
      ensures focusedPosition == old(focusedPosition) && listedFailures == old(listedFailures)
    {
      formList := formList[focusedPosition := Submitted(formList[focusedPosition], form)];
      isModified := true;
    }

    /** `onChangeType(k)` from the focused form's editing form: the form is
        replaced by the kind's defaults. */
    method ChangeType(k: RuleType)
      requires 0 <= focusedPosition < |formList| && HasEditingForm(formList[focusedPosition])
      modifies this
      ensures formList == old(formList)[old(focusedPosition) := EditorDefaults(k)]
      ensures isModified
      ensures focusedPosition == old(focusedPosition) && listedFailures == old(listedFailures)
    {
      formList := formList[focusedPosition := EditorDefaults(k)];
      isModified := true;
    }

    /** `onConfirm`: validate every form; when none fails, submit the encoded
        segments and clear the modified flag; keep the failures either way. */
    method Confirm() returns (submitted: Option<seq<Segment>>)
      modifies this
      ensures listedFailures == GetValidationResults(old(formList))
      ensures submitted.Some? <==> AllEmpty(listedFailures)
      ensures submitted.Some? ==> submitted.value == EncodeForms(formList) && !isModified
      ensures submitted.None? ==> isModified == old(isModified)
      ensures formList == old(formList) && focusedPosition == old(focusedPosition)
    {
      var listed := GetValidationResults(formList);
      if AllEmpty(listed) {
        submitted := Some(EncodeForms(formList));
        isModified := false;
      } else {
        submitted := None;
      }
      listedFailures := listed;
    }
  }

  // ---------------------------------------------------------------------------
  // Lemmas: moving

  /** Moving forward by inserting after `to` first and then removing at `from`
      is the reference move. */
  lemma ForwardMove<T>(l: seq<T>, from: nat, to: nat)
    requires from < to < |l|
    ensures RemoveAt(InsertAt(l, to + 1, l[from]), from) == Moved(l, from, to)
  {
    var inserted := InsertAt(l, to + 1, l[from]);
    assert inserted == l[..to + 1] + [l[from]] + l[to + 1..];
    var rest := l[..from] + l[from + 1..];
    assert rest[..to] == l[..from] + l[from + 1..to + 1];
    assert rest[to..] == l[to + 1..];
  }

  /** Moving backward by removing at `from` first and then inserting at `to` is
      the reference move. */
  lemma BackwardMove<T>(l: seq<T>, from: nat, to: nat)
    requires to < from < |l|
    ensures InsertAt(RemoveAt(l, from), to, l[from]) == Moved(l, from, to)
  {
  }

  /** A move puts the moved form at `to` and keeps every other form, in order:
      taking the form at `to` out again gives the list without the form at
      `from`. */
  lemma MovedPlacement<T>(l: seq<T>, from: nat, to: nat)
    requires from < |l| && to < |l|
    ensures Moved(l, from, to)[to] == l[from]
    ensures RemoveAt(Moved(l, from, to), to) == RemoveAt(l, from)
  {
    var rest := l[..from] + l[from + 1..];
    var r := Moved(l, from, to);
    assert r[..to] == rest[..to];
    assert r[to + 1..] == rest[to..];
    assert rest[..to] + rest[to..] == rest;
  }

  /** A move is a permutation. */
  lemma MovedIsPermutation<T>(l: seq<T>, from: nat, to: nat)
    requires from < |l| && to < |l|
    ensures multiset(Moved(l, from, to)) == multiset(l)
  {
    var rest := l[..from] + l[from + 1..];
    assert l == l[..from] + [l[from]] + l[from + 1..];
    assert multiset(l) == multiset(rest) + multiset{l[from]};
    assert rest == rest[..to] + rest[to..];
    assert multiset(rest) == multiset(rest[..to]) + multiset(rest[to..]);
  }

  /** Moving onto the same place changes nothing. */
  lemma MovedInPlace<T>(l: seq<T>, at: nat)
    requires at < |l|
    ensures Moved(l, at, at) == l
  {
    assert l == l[..at] + [l[at]] + l[at + 1..];
  }

  /** Moving 2 to 4 in [A, B, C, D, E] gives [A, B, D, E, C]; moving 4 to 1
      gives [A, E, B, C, D]. */
  lemma MoveExamples()
    ensures Moved(['A', 'B', 'C', 'D', 'E'], 2, 4) == ['A', 'B', 'D', 'E', 'C']
    ensures Moved(['A', 'B', 'C', 'D', 'E'], 4, 1) == ['A', 'E', 'B', 'C', 'D']
  {
    ForwardMove(['A', 'B', 'C', 'D', 'E'], 2, 4);
  }

  // ---------------------------------------------------------------------------
  // Lemmas: codec

  /** Settings as this editor writes them back: string values under distinct
      names other than `type` (`note` is an ordinary name here). */
  predicate StoredSettings(settings: seq<Setting>) {
    && (forall i, j :: 0 <= i < j < |settings| ==> settings[i].name != settings[j].name)
    && (forall i :: 0 <= i < |settings| ==> settings[i].name != "type" && settings[i].value.Str?)
  }

  /** Decoding a segment whose settings have distinct names other than `type`
      lists `type` and then one field per setting, in order. */
  lemma {:induction false} DecodeLaidOut(s: Segment)
    requires StoredSettings(s.settings)
    ensures DecodeSegment(s) == [Entry("type", s.ruleType)] + SingleEditor.SettingPairs(s.settings)
  {
    var header := [Entry("type", s.ruleType)];
    var pairs := SingleEditor.SettingPairs(s.settings);
    forall i, j | 0 <= i < j < |pairs|
      ensures pairs[i].key != pairs[j].key
    {
      assert pairs[i].key == s.settings[i].name && pairs[j].key == s.settings[j].name;
    }
    FromPairsOfUnique(pairs);
    assert Keys(header) == ["type"];
    forall i | 0 <= i < |pairs|
      ensures !Has(header, pairs[i].key)
    {
      assert pairs[i].key == s.settings[i].name;
    }
    MergeDisjoint(header, pairs);
  }

  /** The settings written for the fields of string-valued pairs are those
      settings. */
  lemma {:induction false} EncodedSettingsOfPairs(settings: seq<Setting>)
    requires forall i :: 0 <= i < |settings| ==> settings[i].name != "type" && settings[i].value.Str?
    ensures EncodedSettings(SingleEditor.SettingPairs(settings)) == settings
    decreases |settings|
  {
    if settings != [] {
      var pairs := SingleEditor.SettingPairs(settings);
      var tail := settings[1..];
      assert SingleEditor.SettingPairs(tail) == pairs[1..];
      EncodedSettingsOfPairs(tail);
      assert settings == [settings[0]] + tail;
    }
  }

  /** The settings of a concatenation of fields are those of the first part
      followed by those of the second: with the contract of `EncodedSettings`
      this fixes them, in field order. */
  lemma {:induction false} EncodedSettingsAppend(a: Object, b: Object)
    ensures EncodedSettings(a + b) == EncodedSettings(a) + EncodedSettings(b)
  {
    if a == [] {
      assert a + b == b;
    } else {
      assert (a + b)[1..] == a[1..] + b;
      EncodedSettingsAppend(a[1..], b);
    }
  }

  /** A form with no `type` field gives one setting per field, in order. */
  lemma {:induction false} EncodedSettingsWithoutType(form: Object)
    requires forall i :: 0 <= i < |form| ==> form[i].key != "type"
    ensures |EncodedSettings(form)| == |form|
    ensures forall i :: 0 <= i < |form| ==> EncodedSettings(form)[i] == SingleEditor.SettingOfField(form[i])
  {
    if form != [] {
      EncodedSettingsWithoutType(form[1..]);
    }
  }

  /** Saving a form made of `type` and then other fields: the type, and one
      string setting per field, in order. */
  lemma {:induction false} EncodeTypedForm(t: Value, fields: Object)
    requires forall i :: 0 <= i < |fields| ==> fields[i].key != "type"
    ensures var s := EncodeForm([Entry("type", t)] + fields);
      && s.ruleType == t
      && |s.settings| == |fields|
      && forall i :: 0 <= i < |fields| ==> s.settings[i] == SingleEditor.SettingOfField(fields[i])
  {
    var form := [Entry("type", t)] + fields;
    assert form[1..] == fields;
    assert EncodedSettings(form) == EncodedSettings(fields);
    EncodedSettingsWithoutType(fields);
  }

  /** What confirming a form installed by a type change saves: the kind's type
      and every default field after `type` as a string setting, in order. */
  lemma EditorDefaultsSaved(k: RuleType)
    ensures var d := EditorDefaults(k);
      var s := EncodeForm(d);
      && s.ruleType == TypeValue(k)
      && |s.settings| == |d| - 1
      && forall i :: 1 <= i < |d| ==> s.settings[i - 1] == SingleEditor.SettingOfField(d[i])
  {
    var d := EditorDefaults(k);
    var fields := d[1..];
    assert d == [Entry("type", TypeValue(k))] + fields;
    assert forall i :: 0 <= i < |fields| ==> fields[i].key != "type" by {
      match k
      case AutoIncrement =>
      case Checksum =>
      case _ =>
    }
    EncodeTypedForm(TypeValue(k), fields);
  }

  /** Saving a decoded segment gives back its type and its settings, names,
      values and order; the note does not survive. */
  lemma EditorRoundTrip(s: Segment)
    requires StoredSettings(s.settings)
    ensures EncodeForm(DecodeSegment(s)) == Segment(s.ruleType, Undefined, s.settings)
  {
    DecodeLaidOut(s);
    var form := [Entry("type", s.ruleType)] + SingleEditor.SettingPairs(s.settings);
    assert form[0].key == "type" && form[1..] == SingleEditor.SettingPairs(s.settings);
    assert EncodedSettings(form) == EncodedSettings(form[1..]);
    EncodedSettingsOfPairs(s.settings);
  }

  /** The same for a whole list: saving the forms the editor starts with gives
      the segments back without their notes. */
  lemma EditorListRoundTrip(segments: seq<Segment>)
    requires forall i :: 0 <= i < |segments| ==> StoredSettings(segments[i].settings)
    ensures var saved := EncodeForms(GetFormsFromSegments(segments));
      && |saved| == |segments|
      && forall i :: 0 <= i < |segments| ==> saved[i] == segments[i].(note := Undefined)
  {
    var saved := EncodeForms(GetFormsFromSegments(segments));
    forall i | 0 <= i < |segments|
      ensures saved[i] == segments[i].(note := Undefined)
    {
      EditorRoundTrip(segments[i]);
    }
  }

  // ---------------------------------------------------------------------------
  // Lemmas: validation and defaults

  /** The editor validates a form as the single-segment editor does, except a
      userInput form, which it never fails. */
  lemma EditorValidationAgrees(form: Object)
    ensures KindOf(Get(form, "type")) != Some(UserInput) ==>
              ValidateForm(form) == SingleEditor.GetValidationResults(form)
    ensures KindOf(Get(form, "type")) == Some(UserInput) ==> ValidateForm(form) == map[]
  {
  }

  /** The defaults `onChangeType` installs are the single-segment editor's for
      the five validated kinds, and just the type for the others. */
  lemma EditorDefaultsAgree(k: RuleType)
    ensures EditorValidated(k) ==> EditorDefaults(k) == SingleEditor.Defaults(k)
    ensures !EditorValidated(k) ==> EditorDefaults(k) == [Entry("type", TypeValue(k))]
  {
    match k
    case AutoIncrement =>
    case Checksum =>
    case Literal =>
    case ParameterValue =>
    case Year =>
    case _ =>
  }

  /** After a type change the focused form fails confirmation exactly for
      literal (empty content) and parameterValue (empty parameter name). */
  lemma EditorDefaultsValidation(k: RuleType)
    ensures ValidateForm(EditorDefaults(k))
            == if k == Literal then map["content" := ContentRequired]
               else if k == ParameterValue then map["parameterName" := ParameterNameRequired]
               else map[]
  {
    KindOfTypeValue(k);
    EditorDefaultsAgree(k);
    var d := EditorDefaults(k);
    assert Get(d, "type") == TypeValue(k);
    if EditorValidated(k) {
      EditorValidationAgrees(d);
      SingleEditor.DefaultsValidation(k);
    }
  }

  /** A form left blank after the add button blocks confirmation. */
  lemma BlankLiteralBlocksConfirm(forms: seq<Object>)
    ensures !AllEmpty(GetValidationResults(forms + [BlankLiteral]))
  {
    var b := BlankLiteral;
    assert Get(b, "type") == Str("literal") && Get(b, "content") == Str("");
    KindOfTypeValue(Literal);
    assert "content" in ValidateForm(b);
    assert GetValidationResults(forms + [b])[|forms|] == ValidateForm(b);
  }
}
