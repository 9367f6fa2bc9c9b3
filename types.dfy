/** The segment kinds a code rule is built from, and the label alignments. */
module Types {
  import opened Js

  /** `ECodeRuleType`: the eleven segment kinds, in declaration order. */
  datatype RuleType =
    | Literal
    | ParameterValue
    | Year
    | Month
    | DayOfMonth
    | DayOfWeek
    | DayOfYear
    | WeekOfYear
    | AutoIncrement
    | Checksum
    | UserInput

  /** The string each kind is serialised as. */
  function Tag(t: RuleType): string {
    match t
    case Literal => "literal"
    case ParameterValue => "parameterValue"
    case Year => "year"
    case Month => "month"
    case DayOfMonth => "dayOfMonth"
    case DayOfWeek => "dayOfWeek"
    case DayOfYear => "dayOfYear"
    case WeekOfYear => "weekOfYear"
    case AutoIncrement => "autoIncrement"
    case Checksum => "checksum"
    case UserInput => "userInput"
  }

  /** The enum member's own name. */
  function MemberName(t: RuleType): string {
    match t
    case Literal => "Literal"
    case ParameterValue => "ParameterValue"
    case Year => "Year"
    case Month => "Month"
    case DayOfMonth => "DayOfMonth"
    case DayOfWeek => "DayOfWeek"
    case DayOfYear => "DayOfYear"
    case WeekOfYear => "WeekOfYear"
    case AutoIncrement => "AutoIncrement"
    case Checksum => "Checksum"
    case UserInput => "UserInput"
  }

  /** Every member of the enum, in declaration order. */
  const AllTypes: seq<RuleType> :=
    [Literal, ParameterValue, Year, Month, DayOfMonth, DayOfWeek, DayOfYear,
     WeekOfYear, AutoIncrement, Checksum, UserInput]

  /** Reading a serialised tag back: the kind whose tag it is, if any. */
  function FromTag(s: string): (r: Option<RuleType>)
    ensures r.Some? ==> Tag(r.value) == s
  {
    if s == "literal" then Some(Literal)
    else if s == "parameterValue" then Some(ParameterValue)
    else if s == "year" then Some(Year)
    else if s == "month" then Some(Month)
    else if s == "dayOfMonth" then Some(DayOfMonth)
    else if s == "dayOfWeek" then Some(DayOfWeek)
    else if s == "dayOfYear" then Some(DayOfYear)
    else if s == "weekOfYear" then Some(WeekOfYear)
    else if s == "autoIncrement" then Some(AutoIncrement)
    else if s == "checksum" then Some(Checksum)
    else if s == "userInput" then Some(UserInput)
    else None
  }

  /** The kind a `type` value names: only a string equal to a tag names one. */
  function KindOf(v: Value): (r: Option<RuleType>)
    ensures r.Some? <==> v.Str? && FromTag(v.s).Some?
    ensures r.Some? ==> v == Str(Tag(r.value))
  {
    if v.Str? then FromTag(v.s) else None
  }

  /** The serialised `type` value of a kind. */
  function TypeValue(t: RuleType): Value {
    Str(Tag(t))
  }

  /** `ELabelTextAlign`. */
  datatype LabelTextAlign = Left | Right | Center

  function AlignTag(a: LabelTextAlign): string {
    match a
    case Left => "left"
    case Right => "right"
    case Center => "center"
  }

  // ---------------------------------------------------------------------------
  // Lemmas

  function LowerFirst(s: string): string {
    if s != [] && 'A' <= s[0] <= 'Z' then [(s[0] as int + 32) as char] + s[1..] else s
  }

  /** The enum has exactly eleven members, each listed once. */
  lemma AllTypesComplete(t: RuleType)
    ensures t in AllTypes
    ensures |AllTypes| == 11
    ensures forall i, j :: 0 <= i < j < |AllTypes| ==> AllTypes[i] != AllTypes[j]
  {
  }

  /** Tags are pairwise distinct, so a tag identifies its kind, and reading a
      tag back gives the kind it came from. */
  lemma TagsDistinct(a: RuleType, b: RuleType)
    ensures Tag(a) == Tag(b) <==> a == b
    ensures FromTag(Tag(a)) == Some(a)
  {
  }

  /** A tag is its member name with the first letter lower-cased. */
  lemma TagIsLowerCamelName(t: RuleType)
    ensures Tag(t) == LowerFirst(MemberName(t))
  {
    var m, tag := MemberName(t), Tag(t);
    assert |tag| == |m| && tag[1..] == m[1..] && 'A' <= m[0] <= 'Z' && tag[0] as int == m[0] as int + 32;
    assert tag == [tag[0]] + tag[1..];
  }

  /** The serialised `type` value of a kind names that kind again. */
  lemma KindOfTypeValue(t: RuleType)
    ensures KindOf(TypeValue(t)) == Some(t)
  {
    TagsDistinct(t, t);
  }

  /** A value naming a kind is that kind's serialised tag. */
  lemma TypeValueOfKind(t: Value, k: RuleType)
    requires KindOf(t) == Some(k)
    ensures t == TypeValue(k)
  {
  }

  /** The label alignments are exactly "left", "right" and "center". */
  lemma AlignTags(a: LabelTextAlign)
    ensures AlignTag(a) in {"left", "right", "center"}
    ensures forall b :: AlignTag(a) == AlignTag(b) ==> a == b
  {
  }
}
