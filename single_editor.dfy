/** The single-segment editor: the form codec it shares with its host, the
    validation dispatch, the defaults installed on a type change, the note
    guard, and the component state holding the last validation failures. */
module SingleEditor {
  import opened Js
  import opened JsObject
  import opened Types
  import opened CodeRule
  import opened Lingual
  import opened ImmerForm
  import opened FormInputs
  import AutoIncrementForm
  import ChecksumForm
  import LiteralForm
  import ParameterValueForm
  import YearForm
  import UserInputForm
  import SequenceRule

  // ---------------------------------------------------------------------------
  // The form codec

  /** The form shown for a missing or untyped segment. */
  const EmptyLiteralForm: Object :=
    [Entry("type", Str("literal")), Entry("note", Str("")), Entry("content", Str(""))]

  /** A segment's settings as the pairs `fromPairs` receives. */
  function SettingPairs(settings: seq<Setting>): (r: seq<Entry>)
    ensures |r| == |settings|
    ensures forall i :: 0 <= i < |settings| ==> r[i] == Entry(settings[i].name, settings[i].value)
  {
    if settings == [] then []
    else SettingPairs(settings[..|settings| - 1]) + [Entry(settings[|settings| - 1].name, settings[|settings| - 1].value)]
  }

  /** `parseFormFromSegment(segment)`: `{type, note}` merged with the settings
      as name -> value; a segment that is missing or whose resulting `type` is
      falsy gives the empty literal form instead. The result always has a
      truthy `type`. */
  function ParseFormFromSegment(segment: Option<Segment>): (r: Object)
    ensures Truthy(Get(r, "type"))
    ensures segment.None? ==> r == EmptyLiteralForm
    ensures segment.Some? && !Truthy(segment.value.ruleType)
            && (forall i :: 0 <= i < |segment.value.settings| ==> segment.value.settings[i].name != "type")
            ==> r == EmptyLiteralForm
  {
    match segment
    case None => EmptyLiteralForm
    case Some(s) =>
      var pairs := SettingPairs(s.settings);
      FromPairsLacks(pairs, "type");
      MergeLacks([Entry("type", s.ruleType), Entry("note", s.note)], FromPairs(pairs), "type");
      var form := Merge([Entry("type", s.ruleType), Entry("note", s.note)], FromPairs(SettingPairs(s.settings)));
      if Truthy(Get(form, "type")) then form else EmptyLiteralForm
  }

  /** A form field as a setting, `{ name: pair[0], value: `${pair[1]}` }`. */
  function SettingOfField(e: Entry): Setting {
    Setting(e.key, Str(ToStr(e.value)))
  }

  /** The settings `parseSegmentFromForm` writes: every field except `type`
      and `note`, in field order, its value converted to a string. A field is
      written exactly when it is not `type` or `note`, every setting comes
      from a field, and `FormSettingsAppend` gives the order. */
  function FormSettings(form: Object): (r: seq<Setting>)
    ensures |r| <= |form|
    ensures forall i :: 0 <= i < |r| ==> r[i].name != "type" && r[i].name != "note" && r[i].value.Str?
    ensures forall i :: 0 <= i < |form| ==>
              (form[i].key != "type" && form[i].key != "note" <==> SettingOfField(form[i]) in r)
    ensures forall x :: x in r ==> exists i :: 0 <= i < |form| && x == SettingOfField(form[i])
  {
    if form == [] then []
    else
      var head := if form[0].key == "type" || form[0].key == "note" then [] else [SettingOfField(form[0])];
      var rest := FormSettings(form[1..]);
      assert forall i :: 1 <= i < |form| ==> form[i] == form[1..][i - 1];
      assert forall x :: x in rest ==> exists i :: 1 <= i < |form| && x == SettingOfField(form[i]) by {
        forall x | x in rest
          ensures exists i :: 1 <= i < |form| && x == SettingOfField(form[i])
        {
          var j :| 0 <= j < |form[1..]| && x == SettingOfField(form[1..][j]);
          assert x == SettingOfField(form[j + 1]);
        }
      }
      head + rest
  }

  /** `parseSegmentFromForm(form)`. */
  function ParseSegmentFromForm(form: Object): (r: Segment)
    ensures r.ruleType == Get(form, "type") && r.note == Get(form, "note")
    ensures forall i :: 0 <= i < |r.settings| ==>
              r.settings[i].name != "type" && r.settings[i].name != "note" && r.settings[i].value.Str?
    ensures forall i :: 0 <= i < |form| ==>
              (form[i].key != "type" && form[i].key != "note" <==> SettingOfField(form[i]) in r.settings)
  {
    Segment(Get(form, "type"), Get(form, "note"), FormSettings(form))
  }

  // ---------------------------------------------------------------------------
  // Validation dispatch

  /** The six kinds whose form has a validator here. */
  predicate Validated(k: RuleType) {
    k in {AutoIncrement, Checksum, Literal, ParameterValue, Year, UserInput}
  }

  /** The validator for a kind; the kinds without one give {}. */
  function Validate(k: RuleType, form: Object): (r: Failures)
    ensures !Validated(k) ==> r == map[]
  {
    match k
    case AutoIncrement => AutoIncrementForm.ValidateAutoIncrementForm(form)
    case Checksum => ChecksumForm.ValidateChecksumForm(form)
    case Literal => LiteralForm.ValidateLiteralForm(form)
    case ParameterValue => ParameterValueForm.ValidateParameterValueForm(form)
    case Year => YearForm.ValidateYearForm(form)
    case UserInput => UserInputForm.ValidateUserInputForm(form)
    case _ => map[]
  }

  /** `getValidationResults(form)`: the validator of the kind the form's `type`
      names; a `type` naming no kind gives {}. */
  function GetValidationResults(form: Object): (r: Failures)
    ensures KindOf(Get(form, "type")).None? ==> r == map[]
    ensures KindOf(Get(form, "type")).Some? ==> r == Validate(KindOf(Get(form, "type")).value, form)
  {
    match KindOf(Get(form, "type"))
    case Some(k) => Validate(k, form)
    case None => map[]
  }

  // ---------------------------------------------------------------------------
  // Type change and note edit

  /** The form `onChangeType(k)` installs: the kind's defaults and nothing else. */
  function Defaults(k: RuleType): (r: Object)
    ensures |r| >= 1 && r[0] == Entry("type", TypeValue(k))
  {
    var t := Entry("type", TypeValue(k));
    match k
    case AutoIncrement =>
      [t, Entry("scope", Str("plant")), Entry("period", Str("forever")), Entry("length", Num(1)),
       Entry("paddingCharactor", Str("0")), Entry("start", Num(1))]
    case Checksum => [t, Entry("algorithm", Str("CRC32")), Entry("length", Num(1)), Entry("paddingCharactor", Str("0"))]
    case Literal => [t, Entry("content", Str(""))]
    case ParameterValue => [t, Entry("parameterName", Str("")), Entry("length", Num(2))]
    case Year => [t, Entry("length", Num(2))]
    case Month => [t, Entry("length", Num(2))]
    case DayOfMonth => [t, Entry("length", Num(2))]
    case DayOfWeek => [t, Entry("length", Num(1))]
    case DayOfYear => [t, Entry("length", Num(3))]
    case WeekOfYear => [t, Entry("length", Num(2))]
    case UserInput => [t, Entry("parameterName", Str("")), Entry("length", Num(1))]
  }

  /** The longest note the note area accepts. */
  const MaxNoteLength := 30

  /** The note area's change handler: a note longer than 30 UTF-16 code units
      is dropped; otherwise the segment with the new note is submitted. */
  function NoteEdit(codeRule: Option<Segment>, typed: string): (r: Option<Segment>)
    ensures r.Some? <==> Utf16Length(typed) <= MaxNoteLength
    ensures |typed| > MaxNoteLength ==> r.None?
    ensures r.Some? ==> r.value.note == Str(typed)
    ensures r.Some? ==> r.value.ruleType == Get(ParseFormFromSegment(codeRule), "type")
    ensures r.Some? ==> r.value.settings == ParseSegmentFromForm(ParseFormFromSegment(codeRule)).settings
  {
    FormSettingsSetNote(ParseFormFromSegment(codeRule), Str(typed));
    if Utf16Length(typed) > MaxNoteLength then None
    else Some(ParseSegmentFromForm(Edit(ParseFormFromSegment(codeRule), "note", Str(typed))))
  }

  /** Writing the `note` field leaves the settings as they were: `note` never
      becomes a setting, and every other field keeps its place. */
  lemma {:induction false} FormSettingsSetNote(form: Object, v: Value)
    ensures FormSettings(Set(form, "note", v)) == FormSettings(form)
  {
    if form != [] && form[0].key != "note" {
      FormSettingsSetNote(form[1..], v);
      assert Set(form, "note", v) == [form[0]] + Set(form[1..], "note", v);
      assert ([form[0]] + Set(form[1..], "note", v))[1..] == Set(form[1..], "note", v);
    } else if form != [] {
      assert Set(form, "note", v)[1..] == form[1..];
    }
  }

  /** Sixteen characters outside the Basic Multilingual Plane are 32 code
      units long, so the note area drops them. */
  lemma AstralNoteRejected(codeRule: Option<Segment>)
    ensures NoteEdit(codeRule, Repeat('\U{1F600}', 16)).None?
  {
    Utf16LengthRepeat('\U{1F600}', 16);
  }

  // ---------------------------------------------------------------------------
  // The component

  /** `SingleCodeRuleEditor`: its only state is the failures of the last
      confirmation. The segment it edits belongs to its host and is passed to
      each handler; what a handler submits to the host is its result. */
  class SingleCodeRuleEditor {
    var failures: Failures

    constructor()
      ensures failures == map[]
    {
      failures := map[];
    }

    /** `onConfirm`: validate the decoded segment, submit it re-encoded only
        when nothing failed, and keep the failures either way. */
    method OnConfirm(codeRule: Option<Segment>) returns (submitted: Option<Segment>)
      modifies this
      ensures failures == GetValidationResults(ParseFormFromSegment(codeRule))
      ensures submitted.Some? <==> failures == map[]
      ensures submitted.Some? ==> submitted.value == ParseSegmentFromForm(ParseFormFromSegment(codeRule))
    {
      var form := ParseFormFromSegment(codeRule);
      var result := GetValidationResults(form);
      if result == map[] {
        submitted := Some(ParseSegmentFromForm(form));
      } else {
        submitted := None;
      }
      failures := result;
    }

    /** `onChangeType(k)`: clear the failures and submit the kind's defaults,
        whatever the segment held before. */
    method OnChangeType(k: RuleType) returns (submitted: Segment)
      modifies this
      ensures failures == map[]
      ensures submitted == ParseSegmentFromForm(Defaults(k))
    {
      failures := map[];
      submitted := ParseSegmentFromForm(Defaults(k));
    }
  }

  // ---------------------------------------------------------------------------
  // Lemmas: the codec

  /** Every segment this editor submits is typed, and its settings never
      include `type` or `note`. */
  lemma SubmittedSegmentsAreTyped(codeRule: Option<Segment>)
    ensures var s := ParseSegmentFromForm(ParseFormFromSegment(codeRule));
      Truthy(s.ruleType)
  {
  }

  /** Settings read back from a form whose non-header fields are strings. */
  lemma {:induction false} FormSettingsOfPairs(settings: seq<Setting>)
    requires forall i :: 0 <= i < |settings| ==>
               settings[i].name != "type" && settings[i].name != "note" && settings[i].value.Str?
    ensures FormSettings(SettingPairs(settings)) == settings
    decreases |settings|
  {
    if settings != [] {
      var pairs := SettingPairs(settings);
      var tail := settings[1..];
      assert SettingPairs(tail) == pairs[1..];
      FormSettingsOfPairs(tail);
      assert settings == [settings[0]] + tail;
    }
  }

  /** The settings of a concatenation of fields are the settings of the first
      part followed by those of the second: together with the contract of
      `FormSettings` this fixes them, in field order. */
  lemma {:induction false} FormSettingsAppend(a: Object, b: Object)
    ensures FormSettings(a + b) == FormSettings(a) + FormSettings(b)
  {
    if a == [] {
      assert a + b == b;
    } else {
      assert (a + b)[1..] == a[1..] + b;
      FormSettingsAppend(a[1..], b);
    }
  }

  /** A form with no `type` or `note` field gives one setting per field, in
      order, each field's value as its string. */
  lemma {:induction false} FormSettingsWithoutHeader(form: Object)
    requires forall i :: 0 <= i < |form| ==> form[i].key != "type" && form[i].key != "note"
    ensures |FormSettings(form)| == |form|
    ensures forall i :: 0 <= i < |form| ==> FormSettings(form)[i] == SettingOfField(form[i])
  {
    if form != [] {
      FormSettingsWithoutHeader(form[1..]);
    }
  }

  /** Encoding a form made of `type` and then fields other than `type` and
      `note`: the type, no note, and one string setting per field, in order. */
  lemma {:induction false} EncodeTypedFields(t: Value, fields: Object)
    requires forall i :: 0 <= i < |fields| ==> fields[i].key != "type" && fields[i].key != "note"
    ensures var s := ParseSegmentFromForm([Entry("type", t)] + fields);
      && s.ruleType == t && s.note == Undefined
      && |s.settings| == |fields|
      && forall i :: 0 <= i < |fields| ==> s.settings[i] == SettingOfField(fields[i])
  {
    var form := [Entry("type", t)] + fields;
    assert form[1..] == fields;
    assert FormSettings(form) == FormSettings(fields);
    FormSettingsWithoutHeader(fields);
    forall i | 0 <= i < |fields|
      ensures Keys(fields)[i] != "note"
    {
      assert Keys(fields)[i] == fields[i].key;
    }
    assert Get(form, "note") == Get(fields, "note");
  }

  /** What `onChangeType(k)` submits: the kind's type, no note, and every
      default field after `type` as a string setting, in order. */
  lemma DefaultsSubmitted(k: RuleType)
    ensures var d := Defaults(k);
      var s := ParseSegmentFromForm(d);
      && s.ruleType == TypeValue(k) && s.note == Undefined
      && |s.settings| == |d| - 1
      && forall i :: 1 <= i < |d| ==> s.settings[i - 1] == SettingOfField(d[i])
  {
    var d := Defaults(k);
    var fields := d[1..];
    assert d == [Entry("type", TypeValue(k))] + fields;
    assert forall i :: 0 <= i < |fields| ==> fields[i].key != "type" && fields[i].key != "note" by {
      match k
      case AutoIncrement =>
      case Checksum =>
      case _ =>
    }
    EncodeTypedFields(TypeValue(k), fields);
  }

  /** The year's numeric default `length: 2` is submitted as the string "2". */
  lemma YearDefaultsSubmitted()
    ensures ParseSegmentFromForm(Defaults(Year)).settings == [Setting("length", Str("2"))]
  {
    DefaultsSubmitted(Year);
    assert Defaults(Year)[1] == Entry("length", Num(2));
    assert ToStr(Num(2)) == "2";
  }

  /** Settings as this editor writes them: string values under distinct names
      other than `type` and `note`. */
  predicate TextSettings(settings: seq<Setting>) {
    SequenceRule.PlainSettings(settings) && forall i :: 0 <= i < |settings| ==> settings[i].value.Str?
  }

  /** The pairs of settings with distinct names have distinct keys. */
  lemma PairsOfDistinctNames(settings: seq<Setting>)
    requires SequenceRule.DistinctNames(settings)
    ensures UniqueKeys(SettingPairs(settings))
  {
    var pairs := SettingPairs(settings);
    forall i, j | 0 <= i < j < |pairs|
      ensures pairs[i].key != pairs[j].key
    {
      assert pairs[i].key == settings[i].name && pairs[j].key == settings[j].name;
    }
  }

  lemma HeaderKeys(t: Value, note: Value)
    ensures forall k :: Has([Entry("type", t), Entry("note", note)], k) <==> k == "type" || k == "note"
  {
    assert Keys([Entry("type", t), Entry("note", note)]) == ["type", "note"];
  }

  /** Decoding a typed segment with plain settings lists `type`, `note` and then
      one field per setting, in order. */
  lemma {:induction false} DecodePlain(s: Segment)
    requires Truthy(s.ruleType)
    requires SequenceRule.PlainSettings(s.settings)
    ensures ParseFormFromSegment(Some(s)) == [Entry("type", s.ruleType), Entry("note", s.note)] + SettingPairs(s.settings)
  {
    var header := [Entry("type", s.ruleType), Entry("note", s.note)];
    var pairs := SettingPairs(s.settings);
    PairsOfDistinctNames(s.settings);
    FromPairsOfUnique(pairs);
    HeaderKeys(s.ruleType, s.note);
    forall i | 0 <= i < |pairs|
      ensures !Has(header, pairs[i].key)
    {
      assert pairs[i].key == s.settings[i].name;
    }
    MergeDisjoint(header, pairs);
    assert (header + pairs)[0] == Entry("type", s.ruleType);
  }

  /** Encoding a form laid out as `type`, `note` and string fields gives those
      fields back as settings. */
  lemma {:induction false} EncodeLaidOut(t: Value, note: Value, settings: seq<Setting>)
    requires TextSettings(settings)
    ensures ParseSegmentFromForm([Entry("type", t), Entry("note", note)] + SettingPairs(settings))
            == Segment(t, note, settings)
  {
    var form := [Entry("type", t), Entry("note", note)] + SettingPairs(settings);
    assert form[0].key == "type" && form[1..][0].key == "note";
    assert Get(form, "type") == t && Get(form[1..], "note") == note;
    assert form[1..][1..] == SettingPairs(settings);
    assert FormSettings(form) == FormSettings(form[1..]);
    assert FormSettings(form[1..]) == FormSettings(SettingPairs(settings));
    FormSettingsOfPairs(settings);
  }

  /** Encoding a decoded segment gives the segment back: type, note, and every
      setting's name, value and position, for a typed segment whose settings
      are strings with distinct names other than `type` and `note`. */
  lemma SegmentRoundTrip(s: Segment)
    requires Truthy(s.ruleType) && TextSettings(s.settings)
    ensures ParseSegmentFromForm(ParseFormFromSegment(Some(s))) == s
  {
    DecodePlain(s);
    EncodeLaidOut(s.ruleType, s.note, s.settings);
  }

  /** Decoding an encoded form gives the form back when its fields are `type`,
      then `note`, then distinct string fields, and its type is truthy. */
  lemma FormRoundTrip(t: Value, note: Value, settings: seq<Setting>)
    requires Truthy(t) && TextSettings(settings)
    ensures var form := [Entry("type", t), Entry("note", note)] + SettingPairs(settings);
      ParseFormFromSegment(Some(ParseSegmentFromForm(form))) == form
  {
    EncodeLaidOut(t, note, settings);
    DecodePlain(Segment(t, note, settings));
  }

  // ---------------------------------------------------------------------------
  // Lemmas: defaults

  /** What validating a kind's defaults reports: the literal's empty content,
      the empty parameter name of parameterValue and userInput; every other
      kind's defaults pass. */
  lemma DefaultsValidation(k: RuleType)
    ensures GetValidationResults(Defaults(k))
            == match k
               case Literal => map["content" := ContentRequired]
               case ParameterValue => map["parameterName" := ParameterNameRequired]
               case UserInput => map["parameterName" := ParameterNameRequired]
               case _ => map[]
  {
    DefaultsDispatch(k);
    match k {
      case AutoIncrement =>
        AutoIncrementDefaultFields();
        AutoIncrementForm.OneDigitPasses(Defaults(AutoIncrement));
      case Checksum => ChecksumDefaultsPass();
      case Literal => LiteralDefaultsFail();
      case ParameterValue => ParameterValueDefaultsFail();
      case UserInput => UserInputDefaultsFail();
      case _ =>
    }
  }

  /** A kind's defaults are checked by that kind's validator. */
  lemma DefaultsDispatch(k: RuleType)
    ensures GetValidationResults(Defaults(k)) == Validate(k, Defaults(k))
  {
    KindOfTypeValue(k);
    assert Get(Defaults(k), "type") == TypeValue(k);
  }

  /** A failure object whose only key is `key`. */
  lemma OnlyFailure(r: Failures, key: string, m: Message)
    requires key in r && r[key] == m && r.Keys <= {key}
    ensures r == map[key := m]
  {
  }

  /** The fields of the auto-increment defaults. */
  lemma AutoIncrementDefaultFields()
    ensures var d := Defaults(AutoIncrement);
      && Get(d, "length") == Num(1) && Get(d, "start") == Num(1)
      && Get(d, "period") == Str("forever") && Get(d, "paddingCharactor") == Str("0")
  {
    assert Defaults(AutoIncrement)
           == [Entry("type", TypeValue(AutoIncrement)), Entry("scope", Str("plant")), Entry("period", Str("forever")),
               Entry("length", Num(1)), Entry("paddingCharactor", Str("0")), Entry("start", Num(1))];
  }

  lemma ChecksumDefaultsPass()
    ensures ChecksumForm.ValidateChecksumForm(Defaults(Checksum)) == map[]
  {
    var d := Defaults(Checksum);
    assert d == [Entry("type", TypeValue(Checksum)), Entry("algorithm", Str("CRC32")),
                 Entry("length", Num(1)), Entry("paddingCharactor", Str("0"))];
    assert Get(d, "algorithm") == Str("CRC32");
    assert Get(d, "length") == Num(1);
    assert Get(d, "paddingCharactor") == Str("0");
  }

  lemma LiteralDefaultsFail()
    ensures LiteralForm.ValidateLiteralForm(Defaults(Literal)) == map["content" := ContentRequired]
  {
    var d := Defaults(Literal);
    assert d == [Entry("type", TypeValue(Literal)), Entry("content", Str(""))];
    assert Get(d, "content") == Str("");
    OnlyFailure(LiteralForm.ValidateLiteralForm(d), "content", ContentRequired);
  }

  lemma ParameterValueDefaultsFail()
    ensures ParameterValueForm.ValidateParameterValueForm(Defaults(ParameterValue))
            == map["parameterName" := ParameterNameRequired]
  {
    var d := Defaults(ParameterValue);
    assert d == [Entry("type", TypeValue(ParameterValue)), Entry("parameterName", Str("")), Entry("length", Num(2))];
    assert Get(d, "parameterName") == Str("");
    OnlyFailure(ParameterValueForm.ValidateParameterValueForm(d), "parameterName", ParameterNameRequired);
  }

  lemma UserInputDefaultsFail()
    ensures UserInputForm.ValidateUserInputForm(Defaults(UserInput))
            == map["parameterName" := ParameterNameRequired]
  {
    var d := Defaults(UserInput);
    assert d == [Entry("type", TypeValue(UserInput)), Entry("parameterName", Str("")), Entry("length", Num(1))];
    assert Get(d, "parameterName") == Str("");
    assert Get(d, "length") == Num(1);
    var r := UserInputForm.ValidateUserInputForm(d);
    assert "length" !in r;
    OnlyFailure(r, "parameterName", ParameterNameRequired);
  }

  /** The default lengths of the date kinds other than year. */
  lemma DateDefaultLengths()
    ensures Get(Defaults(Month), "length") == Num(2)
    ensures Get(Defaults(DayOfMonth), "length") == Num(2)
    ensures Get(Defaults(WeekOfYear), "length") == Num(2)
    ensures Get(Defaults(DayOfYear), "length") == Num(3)
    ensures Get(Defaults(DayOfWeek), "length") == Num(1)
  {
    assert Defaults(Month) == [Entry("type", Str("month")), Entry("length", Num(2))];
    assert Defaults(DayOfMonth) == [Entry("type", Str("dayOfMonth")), Entry("length", Num(2))];
    assert Defaults(WeekOfYear) == [Entry("type", Str("weekOfYear")), Entry("length", Num(2))];
    assert Defaults(DayOfYear) == [Entry("type", Str("dayOfYear")), Entry("length", Num(3))];
    assert Defaults(DayOfWeek) == [Entry("type", Str("dayOfWeek")), Entry("length", Num(1))];
  }

  /** The date kinds' default lengths are the widths their previews have. */
  lemma DateDefaultsMatchPreview(cal: SequenceRule.Calendar)
    requires cal.month < 100 && cal.dayOfMonth < 100 && cal.weekOfYear < 100
    requires cal.dayOfYear < 1000 && cal.dayOfWeek < 10
    ensures Get(Defaults(Month), "length") == Num(|SequenceRule.RenderMonth(cal)|)
    ensures Get(Defaults(DayOfMonth), "length") == Num(|SequenceRule.RenderDayOfMonth(cal)|)
    ensures Get(Defaults(WeekOfYear), "length") == Num(|SequenceRule.RenderWeekOfYear(cal)|)
    ensures Get(Defaults(DayOfYear), "length") == Num(|SequenceRule.RenderDayOfYear(cal)|)
    ensures Get(Defaults(DayOfWeek), "length") == Num(|SequenceRule.RenderDayOfWeek(cal)|)
  {
    SequenceRule.DateWidths(cal);
    DateDefaultLengths();
  }

  /** The defaults of the five date kinds other than year carry a `length`
      their form interface does not declare. */
  lemma DateDefaultsCarryLength(k: RuleType)
    requires k in {Month, DayOfMonth, DayOfWeek, DayOfYear, WeekOfYear}
    ensures Has(Defaults(k), "length")
    ensures !ConformsTo(Defaults(k), k)
  {
    var d := Defaults(k);
    assert d[1].key == "length";
    assert Keys(d)[1] == "length";
    assert !KeyConforms(d[1], k);
  }
}
