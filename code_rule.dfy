/** The serialised form of a code rule and the shape of each kind's editing form. */
module CodeRule {
  import opened Js
  import opened JsObject
  import opened Types

  /** One `{name, value}` entry of a segment's settings. */
  datatype Setting = Setting(name: string, value: Value)

  /** `ICodeRule`: a segment's type, its optional note (undefined when absent)
      and its ordered settings. The type is kept as a raw value because the
      code reads segments that may carry no type at all. */
  datatype Segment = Segment(ruleType: Value, note: Value, settings: seq<Setting>)

  /** `IRule`: a rule is its segments, in order. */
  type Rule = seq<Segment>

  /** Setting values are numbers or strings. */
  predicate WellTypedSetting(s: Setting) {
    s.value.Num? || s.value.Str?
  }

  predicate WellTypedSegment(seg: Segment) {
    (seg.note.Undefined? || seg.note.Str?)
    && forall i :: 0 <= i < |seg.settings| ==> WellTypedSetting(seg.settings[i])
  }

  /** The names of a segment's settings, in order. */
  function SettingNames(settings: seq<Setting>): (r: seq<string>)
    ensures |r| == |settings| && forall i :: 0 <= i < |settings| ==> r[i] == settings[i].name
  {
    if settings == [] then [] else SettingNames(settings[..|settings| - 1]) + [settings[|settings| - 1].name]
  }

  /** The auto-increment `period`. */
  datatype Period = Forever | PerDay | PerMonth | PerYear

  function PeriodTag(p: Period): string {
    match p
    case Forever => "forever"
    case PerDay => "day"
    case PerMonth => "month"
    case PerYear => "year"
  }

  /** The value types a form field is declared with. */
  datatype FieldType = TString | TNumber | TNumberOrString | TPeriod

  predicate HasFieldType(v: Value, t: FieldType) {
    match t
    case TString => v.Str?
    case TNumber => v.Num?
    case TNumberOrString => v.Num? || v.Str?
    case TPeriod => v.Str? && v.s in {"forever", "day", "month", "year"}
  }

  /** A field declared by a form interface besides `type` and `note`. */
  datatype Field = Field(name: string, fieldType: FieldType, optional: bool)

  /** The fields each kind's form interface declares besides `type` and `note`. */
  function DeclaredFields(k: RuleType): seq<Field> {
    match k
    case Literal => [Field("content", TString, false)]
    case ParameterValue => [Field("parameterName", TString, false), Field("length", TNumber, false)]
    case Year => [Field("length", TNumber, false)]
    case Month => []
    case DayOfMonth => []
    case DayOfWeek => []
    case DayOfYear => []
    case WeekOfYear => []
    case AutoIncrement =>
      [Field("scope", TString, false), Field("period", TPeriod, false), Field("length", TNumber, false),
       Field("paddingCharactor", TString, false), Field("start", TNumber, false),
       Field("currentAutoNumber", TNumberOrString, true)]
    case Checksum =>
      [Field("algorithm", TString, false), Field("length", TNumber, false), Field("paddingCharactor", TString, false)]
    case UserInput =>
      [Field("length", TNumber, false), Field("parameterName", TString, false),
       Field("userInputValue", TString, true)]
  }

  /** The declaration of `name` among a kind's fields, if it has one. */
  function FieldNamed(fields: seq<Field>, name: string): (r: Option<Field>)
    ensures r.Some? ==> r.value in fields && r.value.name == name
    ensures r.None? ==> forall i :: 0 <= i < |fields| ==> fields[i].name != name
  {
    if fields == [] then None
    else if fields[0].name == name then Some(fields[0])
    else FieldNamed(fields[1..], name)
  }

  /** A form object has exactly the shape of kind k's interface: its `type` names k,
      its `note` is absent or a string, every mandatory field is present, and no
      key is undeclared or of the wrong type. */
  predicate ConformsTo(form: Object, k: RuleType) {
    Get(form, "type") == TypeValue(k)
    && (Get(form, "note").Undefined? || Get(form, "note").Str?)
    && (forall f :: f in DeclaredFields(k) && !f.optional ==> Has(form, f.name))
    && forall i :: 0 <= i < |form| ==> KeyConforms(form[i], k)
  }

  predicate KeyConforms(e: Entry, k: RuleType) {
    e.key == "type" || e.key == "note"
    || match FieldNamed(DeclaredFields(k), e.key)
       case None => false
       case Some(f) => HasFieldType(e.value, f.fieldType) || (f.optional && e.value.Undefined?)
  }

  // ---------------------------------------------------------------------------
  // Lemmas

  /** The five date kinds declare no field besides `type` and `note`; every
      other kind declares at least one. */
  lemma DateKindsCarryNoFields(k: RuleType)
    ensures DeclaredFields(k) == [] <==> k in {Month, DayOfMonth, DayOfWeek, DayOfYear, WeekOfYear}
  {
  }

  /** `period` takes exactly the four values forever, day, month and year, and
      a period value is well typed exactly when it is the tag of one of them. */
  lemma PeriodValues(v: Value)
    ensures HasFieldType(v, TPeriod) <==> exists p: Period :: v == Str(PeriodTag(p))
  {
    if HasFieldType(v, TPeriod) {
      var p := if v.s == "forever" then Forever else if v.s == "day" then PerDay
               else if v.s == "month" then PerMonth else PerYear;
      assert v == Str(PeriodTag(p));
    }
  }

  /** Only `currentAutoNumber` and `userInputValue` are optional, and
      `currentAutoNumber` accepts a number or a string. */
  lemma OptionalFields(k: RuleType, f: Field)
    requires f in DeclaredFields(k) && f.optional
    ensures (k == AutoIncrement && f == Field("currentAutoNumber", TNumberOrString, true))
         || (k == UserInput && f == Field("userInputValue", TString, true))
  {
  }
}
