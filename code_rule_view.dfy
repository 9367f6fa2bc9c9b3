/** The read-only rule view: the label and prompt shown for a userInput
    segment, and the settings update emitted when its value is typed. */
module CodeRuleView {
  import opened Js
  import opened JsObject
  import opened Types
  import opened CodeRule
  import opened Lingual
  import opened SequenceRule

  /** The setting that holds the text typed into a userInput segment. */
  const UserInputValue := "userInputValue"

  /** The caption of a segment: a userInput segment's truthy parameter name,
      otherwise the display name of its type. */
  function Label(s: Segment): (r: Message)
    ensures KindOf(s.ruleType) != Some(UserInput) ==> r == SequenceTypeName(ToStr(s.ruleType))
  {
    var name := Get(ParseCodeRuleMap(Some(s)), "parameterName");
    if KindOf(s.ruleType) == Some(UserInput) && Truthy(name) then Text(ToStr(name))
    else SequenceTypeName(ToStr(s.ruleType))
  }

  /** The prompt after a userInput segment's caption: the number of digits,
      from its `length` setting read as an integer. */
  function Prompt(s: Segment): (r: Option<Message>)
    ensures r.Some? <==> KindOf(s.ruleType) == Some(UserInput)
  {
    if KindOf(s.ruleType) == Some(UserInput) then
      Some(NumberDigits(JoinSeparator(Get(ParseCodeRuleMap(Some(s)), "length"))))
    else None
  }

  /** `(value || "").length > codeRuleMap.length`, the text measured in UTF-16
      code units; a length that is missing or not a number never rejects. */
  predicate TooLong(typed: string, length: Value) {
    match ToNumber(length)
    case Some(n) => Utf16Length(typed) > n
    case None => false
  }

  /** Every setting called `name` given the value v; the others as they were. */
  function Replaced(settings: seq<Setting>, name: string, v: Value): (r: seq<Setting>)
    ensures |r| == |settings|
    ensures forall i :: 0 <= i < |settings| ==> r[i].name == settings[i].name
    ensures forall i :: 0 <= i < |settings| ==>
              r[i].value == if settings[i].name == name then v else settings[i].value
  {
    if settings == [] then []
    else
      var last := settings[|settings| - 1];
      Replaced(settings[..|settings| - 1], name, v) + [if last.name == name then Setting(name, v) else last]
  }

  /** Whether some setting is called `name`. */
  predicate Named(settings: seq<Setting>, name: string) {
    exists i :: 0 <= i < |settings| && settings[i].name == name
  }

  /** The segment handed to `onUserInputChange` when `typed` is entered in an
      editable userInput segment: nothing when the text is longer than the
      `length` setting or no callback is given; otherwise the `userInputValue`
      setting set to the text, replaced where one exists and appended last
      where none does. */
  function UserInputChange(form: Segment, typed: string, hasCallback: bool): (r: Option<Segment>)
    ensures r.Some? <==> hasCallback && !TooLong(typed, Get(ParseCodeRuleMap(Some(form)), "length"))
    ensures r.Some? ==> r.value.ruleType == form.ruleType && r.value.note == form.note
    ensures r.Some? && Named(form.settings, UserInputValue) ==>
              r.value.settings == Replaced(form.settings, UserInputValue, Str(typed))
    ensures r.Some? && !Named(form.settings, UserInputValue) ==>
              r.value.settings == form.settings + [Setting(UserInputValue, Str(typed))]
  {
    var m := ParseCodeRuleMap(Some(form));
    if TooLong(typed, Get(m, "length")) || !hasCallback then None
    else
      HasUserInputValue(form);
      if Has(m, UserInputValue) then Some(form.(settings := Replaced(form.settings, UserInputValue, Str(typed))))
      else Some(form.(settings := form.settings + [Setting(UserInputValue, Str(typed))]))
  }

  // ---------------------------------------------------------------------------
  // Lemmas

  /** The map has a key written by a setting exactly when a setting has that
      name, apart from what it held before. */
  lemma {:induction false} HasWithSettings(acc: Object, settings: seq<Setting>, k: string)
    ensures Has(WithSettings(acc, settings), k) <==> Has(acc, k) || Named(settings, k)
    decreases |settings|
  {
    if settings != [] {
      var init := settings[..|settings| - 1];
      var last := settings[|settings| - 1];
      HasWithSettings(acc, init, k);
      HasSet(WithSettings(acc, init), last.name, MapValue(last), k);
      NamedSplit(settings, k);
    }
  }

  lemma HasSet(o: Object, key: string, v: Value, k: string)
    ensures Has(Set(o, key, v), k) <==> Has(o, k) || k == key
  {
    var r := Set(o, key, v);
    assert Keys(r) == if Has(o, key) then Keys(o) else Keys(o) + [key];
  }

  /** A name is used by non-empty settings when it is used by all but the last
      one or by the last one. */
  lemma NamedSplit(settings: seq<Setting>, k: string)
    requires settings != []
    ensures Named(settings, k) <==> Named(settings[..|settings| - 1], k) || settings[|settings| - 1].name == k
  {
    var init := settings[..|settings| - 1];
    if Named(init, k) {
      var i :| 0 <= i < |init| && init[i].name == k;
      assert settings[i].name == k;
    }
    if Named(settings, k) {
      var i :| 0 <= i < |settings| && settings[i].name == k;
      if i < |init| {
        assert init[i].name == k;
      }
    }
  }

  /** `"userInputValue" in codeRuleMap` holds exactly when a setting has that name. */
  lemma HasUserInputValue(form: Segment)
    ensures Has(ParseCodeRuleMap(Some(form)), UserInputValue) <==> Named(form.settings, UserInputValue)
  {
    HasWithSettings(Header(form), form.settings, UserInputValue);
    assert Keys(Header(form)) == ["type", "note"];
  }

  /** Replacing the values of one name leaves the last setting of any other name
      as it was, and makes that of the replaced name carry the new value. */
  lemma {:induction false} LastNamedReplaced(settings: seq<Setting>, name: string, v: Value, k: string)
    ensures k != name ==> LastNamed(Replaced(settings, name, v), k) == LastNamed(settings, k)
    ensures k == name && Named(settings, name) ==> LastNamed(Replaced(settings, name, v), k) == Some(Setting(name, v))
    decreases |settings|
  {
    if settings != [] {
      var n := |settings|;
      var init := settings[..n - 1];
      var last := settings[n - 1];
      var r := Replaced(settings, name, v);
      assert r[..n - 1] == Replaced(init, name, v);
      assert r[n - 1] == if last.name == name then Setting(name, v) else last;
      LastNamedReplaced(init, name, v, k);
      if k == name {
        NamedSplit(settings, name);
      }
    }
  }

  /** After an accepted change the segment reads back the typed text as its
      `userInputValue`, and every other key of its map, `length` included, is
      as it was. */
  lemma ChangeReadsBack(form: Segment, typed: string)
    requires UserInputChange(form, typed, true).Some?
    ensures var m := ParseCodeRuleMap(Some(UserInputChange(form, typed, true).value));
      && Get(m, UserInputValue) == Str(typed)
      && forall k :: k != UserInputValue ==> Get(m, k) == Get(ParseCodeRuleMap(Some(form)), k)
  {
    var after := UserInputChange(form, typed, true).value;
    forall k
      ensures Get(ParseCodeRuleMap(Some(after)), k)
              == if k == UserInputValue then Str(typed) else Get(ParseCodeRuleMap(Some(form)), k)
    {
      ParseCodeRuleMapReads(after, k);
      ParseCodeRuleMapReads(form, k);
      LastNamedAfterChange(form, typed, after.settings, k);
    }
  }

  /** The last setting of each name after a change: the typed value for
      `userInputValue`, as before for every other name. */
  lemma LastNamedAfterChange(form: Segment, typed: string, settings: seq<Setting>, k: string)
    requires UserInputChange(form, typed, true) == Some(form.(settings := settings))
    ensures LastNamed(settings, k)
            == if k == UserInputValue then Some(Setting(UserInputValue, Str(typed))) else LastNamed(form.settings, k)
  {
    if Named(form.settings, UserInputValue) {
      LastNamedReplaced(form.settings, UserInputValue, Str(typed), k);
    } else {
      assert settings[..|settings| - 1] == form.settings;
    }
  }

  /** The editable preview of the changed segment shows the typed text, padded
      with "_" to the segment's length. */
  lemma ChangeRendersTyped(form: Segment, typed: string)
    requires UserInputChange(form, typed, true).Some?
    ensures RenderUserInput(ParseCodeRuleMap(Some(UserInputChange(form, typed, true).value)), true)
            == PadEnd(typed, ToInteger(Get(ParseCodeRuleMap(Some(form)), "length")), "_")
  {
    ChangeReadsBack(form, typed);
    var m := ParseCodeRuleMap(Some(UserInputChange(form, typed, true).value));
    assert Get(m, "userInputValue") == Str(typed);
    assert Get(m, "length") == Get(ParseCodeRuleMap(Some(form)), "length");
    assert ToStr(Str(typed)) == typed;
  }

  /** A second change replaces the value the first one appended: the settings
      keep their number. */
  lemma SecondChangeReplaces(form: Segment, first: string, second: string)
    requires UserInputChange(form, first, true).Some?
    requires UserInputChange(UserInputChange(form, first, true).value, second, true).Some?
    ensures var once := UserInputChange(form, first, true).value;
      |UserInputChange(once, second, true).value.settings| == |once.settings|
  {
    var once := UserInputChange(form, first, true).value;
    if !Named(form.settings, UserInputValue) {
      assert once.settings[|form.settings|].name == UserInputValue;
    } else {
      var i :| 0 <= i < |form.settings| && form.settings[i].name == UserInputValue;
      assert once.settings[i].name == UserInputValue;
    }
  }

  /** A userInput segment whose last `parameterName` setting is a non-empty
      string is captioned with that name; with no such setting it gets its
      type's display name. */
  lemma UserInputLabel(s: Segment, name: string)
    requires KindOf(s.ruleType) == Some(UserInput)
    ensures LastNamed(s.settings, "parameterName") == Some(Setting("parameterName", Str(name))) && name != []
            ==> Label(s) == Text(name)
    ensures LastNamed(s.settings, "parameterName").None? ==> Label(s) == SequenceTypeName("userInput")
  {
    var v := Get(ParseCodeRuleMap(Some(s)), "parameterName");
    ParseCodeRuleMapReads(s, "parameterName");
    UserInputTypeName(s.ruleType);
    LabelOfName(s, v);
  }

  lemma UserInputTypeName(t: Value)
    requires KindOf(t) == Some(UserInput)
    ensures ToStr(t) == "userInput"
  {
    TypeValueOfKind(t, UserInput);
  }

  /** A userInput segment's caption is its parameter name when that is truthy,
      its type name otherwise. */
  lemma LabelOfName(s: Segment, v: Value)
    requires KindOf(s.ruleType) == Some(UserInput) && Get(ParseCodeRuleMap(Some(s)), "parameterName") == v
    ensures Truthy(v) ==> Label(s) == Text(ToStr(v))
    ensures !Truthy(v) ==> Label(s) == SequenceTypeName(ToStr(s.ruleType))
  {
  }

  /** A userInput segment's prompt is the digit count read from its last
      `length` setting as an integer; with no such setting the placeholder is
      filled with the separator "," that joining with undefined gives. */
  lemma PromptOfLength(s: Segment)
    requires KindOf(s.ruleType) == Some(UserInput)
    ensures match LastNamed(s.settings, "length")
            case Some(st) => Prompt(s) == Some(NumberDigits(JoinSeparator(CoerceInteger(st.value))))
            case None => Prompt(s) == Some(NumberDigits(","))
  {
    ParseCodeRuleMapReads(s, "length");
  }

  /** A last `length` setting that denotes the integer n, as a number or as its
      decimal text, prompts with n's decimal text. */
  lemma PromptOfIntegerLength(s: Segment, n: int)
    requires KindOf(s.ruleType) == Some(UserInput)
    requires LastNamed(s.settings, "length").Some? && DenotesInteger(LastNamed(s.settings, "length").value.value, n)
    ensures Prompt(s) == Some(NumberDigits(IntToString(n)))
  {
    PromptOfLength(s);
    CoerceIntegerOfInteger(LastNamed(s.settings, "length").value.value, n);
  }

  /** Every other segment of a known kind is captioned with its type's name as
      `getCodeTypeName` gives it. */
  lemma LabelIsTypeName(s: Segment)
    requires KindOf(s.ruleType).Some? && KindOf(s.ruleType) != Some(UserInput)
    ensures Label(s) == GetCodeTypeName(s.ruleType)
  {
  }
}
