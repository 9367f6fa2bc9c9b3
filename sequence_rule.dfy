/** Reading serialised segments: the flat setting map, the back conversion to
    a segment, the code length of a segment and of a whole rule, and the
    preview text each kind renders to. */
module SequenceRule {
  import opened Js
  import opened JsObject
  import opened Types
  import opened CodeRule
  import opened NumberCalculator
  import Lingual

  /** The calendar fields the date segments show. Reading the clock is not part
      of the model: the caller supplies today's fields (month 1-12, day of
      month 1-31, day of week 0-6, day of year 1-366, week of year). */
  datatype Calendar = Calendar(year: nat, month: nat, dayOfMonth: nat, dayOfWeek: nat, dayOfYear: nat, weekOfYear: nat)

  /** `IPreviewSequenceCodeOptions`; absent options are `NoOptions`. */
  datatype PreviewOptions = PreviewOptions(editableText: bool, autoIncrementOffset: Option<int>)

  const NoOptions := PreviewOptions(false, None)

  // ---------------------------------------------------------------------------
  // parseCodeRuleMap

  /** `value ? parseInt(value, 10) : 0`. */
  function CoerceInteger(v: Value): (r: Value)
    ensures r.Num? || r.NaN?
  {
    if Truthy(v) then ParseIntValue(v) else Num(0)
  }

  /** The value a setting is stored under in the map: `length` and `start` are
      read as integers, every other value is kept as it is. */
  function MapValue(s: Setting): Value {
    if s.name == "length" || s.name == "start" then CoerceInteger(s.value) else s.value
  }

  /** The settings written into the map one after another. */
  function WithSettings(acc: Object, settings: seq<Setting>): Object
    decreases |settings|
  {
    if settings == [] then acc
    else
      var last := settings[|settings| - 1];
      Set(WithSettings(acc, settings[..|settings| - 1]), last.name, MapValue(last))
  }

  /** The map's first two entries: the segment's type and note. */
  function Header(seg: Segment): Object {
    [Entry("type", seg.ruleType), Entry("note", seg.note)]
  }

  /** `parseCodeRuleMap(codeRule)`; a null segment gives {}. */
  function ParseCodeRuleMap(seg: Option<Segment>): Object {
    match seg
    case None => []
    case Some(s) => WithSettings(Header(s), s.settings)
  }

  /** The last setting called `name`, if any. */
  function LastNamed(settings: seq<Setting>, name: string): (r: Option<Setting>)
    ensures r.Some? ==> r.value in settings && r.value.name == name
    ensures r.None? ==> forall i :: 0 <= i < |settings| ==> settings[i].name != name
  {
    if settings == [] then None
    else if settings[|settings| - 1].name == name then Some(settings[|settings| - 1])
    else LastNamed(settings[..|settings| - 1], name)
  }

  // ---------------------------------------------------------------------------
  // parseCodeRule

  /** The value `parseCodeRule` stores for a map entry: `length` is read as an
      integer again, everything else is kept. */
  function RuleValue(key: string, v: Value): Value {
    if key == "length" then CoerceInteger(v) else v
  }

  /** The segment `parseCodeRule`'s reduce has built after the given entries. */
  function RuleFromEntries(entries: Object): Segment {
    if entries == [] then Segment(Undefined, Undefined, [])
    else
      var seg := RuleFromEntries(entries[..|entries| - 1]);
      var e := entries[|entries| - 1];
      if e.key == "type" then seg.(ruleType := e.value)
      else if e.key == "note" then seg.(note := e.value)
      else seg.(settings := seg.settings + [Setting(e.key, RuleValue(e.key, e.value))])
  }

  /** What `parseCodeRule(codeRuleMap)` returns; a null map gives an untyped
      segment with no settings. */
  function ParseCodeRuleSpec(m: Option<Object>): Segment {
    match m
    case None => Segment(Undefined, Undefined, [])
    case Some(o) => RuleFromEntries(o)
  }

  /** `parseCodeRule`: the reduce that writes `type` and `note` into the segment
      and pushes every other entry onto its settings. */
  method ParseCodeRule(m: Option<Object>) returns (seg: Segment)
    ensures seg == ParseCodeRuleSpec(m)
  {
    seg := Segment(Undefined, Undefined, []);
    if m.None? {
      return;
    }
    var entries := m.value;
    for i := 0 to |entries|
      invariant seg == RuleFromEntries(entries[..i])
    {
      assert entries[..i + 1][..i] == entries[..i];
      var key := entries[i].key;
      var value := entries[i].value;
      if key == "type" {
        seg := seg.(ruleType := value);
      } else if key == "note" {
        seg := seg.(note := value);
      } else {
        seg := seg.(settings := seg.settings + [Setting(key, if key == "length" then CoerceInteger(value) else value)]);
      }
    }
    assert entries[..|entries|] == entries;
  }

  // ---------------------------------------------------------------------------
  // Code length

  /** The kinds whose code length is their `length` setting. */
  predicate MeasuredByLength(k: RuleType) {
    k != Literal && k != ParameterValue
  }

  /** `getCodeLength(codeRule)`: a number, or undefined when a literal's content
      has no length property. */
  function GetCodeLength(seg: Option<Segment>): (r: Value)
    ensures seg.None? ==> r == Num(0)
    ensures seg.Some? && KindOf(seg.value.ruleType).None? ==> r == Num(0)
  {
    match seg
    case None => Num(0)
    case Some(s) =>
      var m := ParseCodeRuleMap(seg);
      match KindOf(s.ruleType)
      case None => Num(0)
      case Some(k) =>
        if MeasuredByLength(k) then
          var length := Get(m, "length");
          if Truthy(length) then ParseIntValue(length) else Num(0)
        else
          var content := Get(m, "content");
          if !Truthy(content) then Num(0)
          else
            match LengthOf(content)
            case Some(n) => Num(n)
            case None => Undefined
  }

  /** `total + x` for a running total and a code length: NaN unless both are numbers. */
  function AddLength(total: Value, x: Value): (r: Value)
    ensures r.Num? <==> total.Num? && x.Num?
  {
    if total.Num? && x.Num? then Num(total.n + x.n) else NaN
  }

  /** The code length of each segment, in order. */
  function CodeLengths(segs: seq<Option<Segment>>): (r: seq<Value>)
    ensures |r| == |segs| && forall i :: 0 <= i < |segs| ==> r[i] == GetCodeLength(segs[i])
  {
    if segs == [] then [] else CodeLengths(segs[..|segs| - 1]) + [GetCodeLength(segs[|segs| - 1])]
  }

  /** The reduce `total + x` over the code lengths, from `start`. */
  function LengthTotal(start: Value, lengths: seq<Value>): Value {
    if lengths == [] then start
    else AddLength(LengthTotal(start, lengths[..|lengths| - 1]), lengths[|lengths| - 1])
  }

  /** `getSequenceCodeLength(codeRules)`: the code lengths added up from 0; a
      null list counts as empty. */
  function GetSequenceCodeLength(segs: Option<seq<Option<Segment>>>): Value {
    match segs
    case None => Num(0)
    case Some(list) => LengthTotal(Num(0), CodeLengths(list))
  }

  // ---------------------------------------------------------------------------
  // Renderers

  /** `renderLiteral`: the content as it is. */
  function RenderLiteral(m: Object): Value {
    Get(m, "content")
  }

  /** `renderUserInput`: the typed value padded with "_" when editable, otherwise
      one "X" per character of the length. */
  function RenderUserInput(m: Object, editable: bool): string {
    var length := ToInteger(Get(m, "length"));
    if editable then
      var typed := Get(m, "userInputValue");
      PadEnd(if IsNil(typed) then "" else ToStr(typed), length, "_")
    else PadStart("", length, "X")
  }

  /** `renderParamaterValue`: "${name}". */
  function RenderParameterValue(m: Object): string {
    "${" + ToStr(Or(Get(m, "parameterName"), Str(""))) + "}"
  }

  /** The year as dayjs formats it: "YYYY" is the year padded to four digits,
      "YY" its last two characters. */
  function FourDigitYear(year: nat): string {
    PadStart(NatToString(year), 4, "0")
  }

  function TwoDigitYear(year: nat): string {
    var s := NatToString(year);
    if |s| <= 2 then s else s[|s| - 2..]
  }

  /** `renderYear`: two digits when `length == 2`, four otherwise. */
  function RenderYear(m: Object, cal: Calendar): string {
    if LooseEqualsNumber(Get(m, "length"), 2) then TwoDigitYear(cal.year) else FourDigitYear(cal.year)
  }

  /** `renderMonth`: "MM". */
  function RenderMonth(cal: Calendar): string {
    PadStart(NatToString(cal.month), 2, "0")
  }

  /** `renderDayOfMonth`: "DD". */
  function RenderDayOfMonth(cal: Calendar): string {
    PadStart(NatToString(cal.dayOfMonth), 2, "0")
  }

  /** `renderDayOfWeek`: "d". */
  function RenderDayOfWeek(cal: Calendar): string {
    NatToString(cal.dayOfWeek)
  }

  /** `renderWeekOfYear`: the week number zero-padded to two places. */
  function RenderWeekOfYear(cal: Calendar): string {
    PadStart(NatToString(cal.weekOfYear), 2, "0")
  }

  /** `renderDayOfYear`: the day number zero-padded to three places. */
  function RenderDayOfYear(cal: Calendar): string {
    PadStart(NatToString(cal.dayOfYear), 3, "0")
  }

  /** The number the auto-increment preview starts from: the larger of
      `start || 1` and `currentAutoNumber || 1`. */
  function PreviewStart(m: Object): Value {
    var start := Or(Get(m, "start"), Num(1));
    var current := Or(Get(m, "currentAutoNumber"), Num(1));
    if Greater(start, current) then start else current
  }

  /** `renderAutoIncrement(form, offset)`: the preview start plus the offset,
      left-padded with `paddingCharactor || "0"` to `length`. It throws when
      decimal.js cannot read the preview start. */
  function RenderAutoIncrement(m: Object, offset: int): Outcome<string> {
    RenderFrom(PreviewStart(m), m, offset)
  }

  /** The auto-increment preview counting from `start`. */
  function RenderFrom(start: Value, m: Object, offset: int): Outcome<string> {
    match Sum([start, Num(offset)])
    case None => Throws
    case Some(n) =>
      Returns(PadStart(IntToString(n), ToInteger(Get(m, "length")), ToStr(Or(Get(m, "paddingCharactor"), Str("0")))))
  }

  /** `renderChecksum`: `length` copies of the padding character. */
  function RenderChecksum(m: Object): (r: string)
    ensures var chars := PadChars(Get(m, "paddingCharactor"));
      var length := ToInteger(Get(m, "length"));
      && |r| == (if chars == [] || length <= 0 then 0 else length)
      && forall i :: 0 <= i < |r| ==> r[i] == chars[i % |chars|]
  {
    PadStart("", ToInteger(Get(m, "length")), PadChars(Get(m, "paddingCharactor")))
  }

  /** `getCodeTypeName(type)`: "-" for a falsy type; otherwise the display
      name `sequence_<type>`, or "-" when the locale table has no such entry.
      The table has an entry for each of the eleven kinds and no other. */
  function GetCodeTypeName(t: Value): (r: Lingual.Message)
    ensures r.SequenceTypeName? <==> KindOf(t).Some?
    ensures r.SequenceTypeName? ==> r.typeTag == t.s
    ensures !r.SequenceTypeName? ==> r == Lingual.Text("-")
  {
    if !Truthy(t) then Lingual.Text("-")
    else if KindOf(t).Some? then Lingual.SequenceTypeName(ToStr(t))
    else Lingual.Text("-")
  }

  // ---------------------------------------------------------------------------
  // Content and preview

  /** `getCodeContent(codeRule, options)`. */
  function GetCodeContent(seg: Option<Segment>, options: PreviewOptions, cal: Calendar): (r: Outcome<Value>)
    ensures seg.None? ==> r == Returns(Str(""))
    ensures seg.Some? && KindOf(seg.value.ruleType).None? ==> r == Returns(Str(""))
    ensures r.Throws? ==> seg.Some? && KindOf(seg.value.ruleType) == Some(AutoIncrement)
  {
    match seg
    case None => Returns(Str(""))
    case Some(s) =>
      var m := ParseCodeRuleMap(seg);
      match KindOf(s.ruleType)
      case None => Returns(Str(""))
      case Some(k) =>
        match k
        case UserInput => Returns(Str(RenderUserInput(m, options.editableText)))
        case AutoIncrement =>
          var offset := if options.autoIncrementOffset.Some? then options.autoIncrementOffset.value else 0;
          (match RenderAutoIncrement(m, offset)
           case Throws => Throws
           case Returns(r) => Returns(Str(r)))
        case Checksum => Returns(Str(RenderChecksum(m)))
        case WeekOfYear => Returns(Str(RenderWeekOfYear(cal)))
        case DayOfMonth => Returns(Str(RenderDayOfMonth(cal)))
        case DayOfWeek => Returns(Str(RenderDayOfWeek(cal)))
        case DayOfYear => Returns(Str(RenderDayOfYear(cal)))
        case Year => Returns(Str(RenderYear(m, cal)))
        case Month => Returns(Str(RenderMonth(cal)))
        case Literal => Returns(RenderLiteral(m))
        case ParameterValue => Returns(Str(RenderParameterValue(m)))
  }

  /** The content of each segment, in order. */
  function Contents(segs: seq<Option<Segment>>, options: PreviewOptions, cal: Calendar): (r: seq<Outcome<Value>>)
    ensures |r| == |segs| && forall i :: 0 <= i < |segs| ==> r[i] == GetCodeContent(segs[i], options, cal)
  {
    if segs == [] then [] else Contents(segs[..|segs| - 1], options, cal) + [GetCodeContent(segs[|segs| - 1], options, cal)]
  }

  /** The reduce `content += ...` over the contents, from `acc`; the first throw
      ends it. */
  function Appended(acc: string, contents: seq<Outcome<Value>>): Outcome<string> {
    if contents == [] then Returns(acc)
    else
      match Appended(acc, contents[..|contents| - 1])
      case Throws => Throws
      case Returns(prefix) =>
        match contents[|contents| - 1]
        case Throws => Throws
        case Returns(v) => Returns(prefix + ToStr(v))
  }

  /** `previewSequenceCode(segments, options)`: undefined for a null list. */
  function PreviewSequenceCode(segs: Option<seq<Option<Segment>>>, options: PreviewOptions, cal: Calendar): (r: Outcome<Value>)
    ensures segs.None? <==> r == Returns(Undefined)
  {
    match segs
    case None => Returns(Undefined)
    case Some(list) =>
      match Appended("", Contents(list, options, cal))
      case Throws => Throws
      case Returns(s) => Returns(Str(s))
  }

  // ---------------------------------------------------------------------------
  // Lemmas: the setting map

  /** Reading the map: a key is given by the last setting of that name, else by
      what the map held before the settings were written. */
  lemma {:induction false} GetWithSettings(acc: Object, settings: seq<Setting>, k: string)
    ensures Get(WithSettings(acc, settings), k)
            == match LastNamed(settings, k)
               case Some(st) => MapValue(st)
               case None => Get(acc, k)
  {
    if settings != [] {
      var last := settings[|settings| - 1];
      GetWithSettings(acc, settings[..|settings| - 1], k);
      GetSet(WithSettings(acc, settings[..|settings| - 1]), last.name, MapValue(last), k);
    }
  }

  /** `parseCodeRuleMap` keeps `type` and `note` unless a setting of that name
      overwrites them, and a setting's key holds the last such setting's value
      (an integer for `length` and `start`). */
  lemma ParseCodeRuleMapReads(s: Segment, k: string)
    ensures Get(ParseCodeRuleMap(Some(s)), k)
            == match LastNamed(s.settings, k)
               case Some(st) => MapValue(st)
               case None =>
                 if k == "type" then s.ruleType else if k == "note" then s.note else Undefined
  {
    GetWithSettings(Header(s), s.settings, k);
  }

  /** Setting names are pairwise distinct. */
  predicate DistinctNames(settings: seq<Setting>) {
    forall i, j :: 0 <= i < j < |settings| ==> settings[i].name != settings[j].name
  }

  /** Settings that neither repeat a name nor use `type` or `note`. */
  predicate PlainSettings(settings: seq<Setting>) {
    DistinctNames(settings) && forall i :: 0 <= i < |settings| ==> settings[i].name != "type" && settings[i].name != "note"
  }

  /** The map entries written for settings with distinct names. */
  function MapEntries(settings: seq<Setting>): (r: Object)
    ensures |r| == |settings|
    ensures forall i :: 0 <= i < |settings| ==> r[i] == Entry(settings[i].name, MapValue(settings[i]))
  {
    if settings == [] then []
    else MapEntries(settings[..|settings| - 1]) + [Entry(settings[|settings| - 1].name, MapValue(settings[|settings| - 1]))]
  }

  /** With plain settings, the map is the header followed by one entry per
      setting, in order. */
  lemma {:induction false} WithPlainSettings(acc: Object, settings: seq<Setting>)
    requires DistinctNames(settings)
    requires forall i :: 0 <= i < |settings| ==> !Has(acc, settings[i].name)
    ensures WithSettings(acc, settings) == acc + MapEntries(settings)
  {
    if settings != [] {
      var init := settings[..|settings| - 1];
      var last := settings[|settings| - 1];
      WithPlainSettings(acc, init);
      assert !Has(acc + MapEntries(init), last.name) by {
        KeysAppend(acc, MapEntries(init));
        forall i | 0 <= i < |init|
          ensures Keys(MapEntries(init))[i] != last.name
        {
          assert Keys(MapEntries(init))[i] == init[i].name;
        }
      }
      assert (acc + MapEntries(init)) + [Entry(last.name, MapValue(last))] == acc + MapEntries(settings);
    }
  }

  /** The settings `parseCodeRule` pushes back for plain settings. */
  function ReadBack(settings: seq<Setting>): (r: seq<Setting>)
    ensures |r| == |settings|
    ensures forall i :: 0 <= i < |settings| ==>
              r[i] == Setting(settings[i].name, RuleValue(settings[i].name, MapValue(settings[i])))
  {
    if settings == [] then []
    else
      var last := settings[|settings| - 1];
      ReadBack(settings[..|settings| - 1]) + [Setting(last.name, RuleValue(last.name, MapValue(last)))]
  }

  lemma {:induction false} RuleFromPlainEntries(pre: Object, settings: seq<Setting>)
    requires forall i :: 0 <= i < |settings| ==> settings[i].name != "type" && settings[i].name != "note"
    ensures RuleFromEntries(pre + MapEntries(settings))
            == RuleFromEntries(pre).(settings := RuleFromEntries(pre).settings + ReadBack(settings))
  {
    if settings == [] {
      assert pre + MapEntries(settings) == pre;
    } else {
      var init := settings[..|settings| - 1];
      RuleFromPlainEntries(pre, init);
      assert (pre + MapEntries(settings))[..|pre + MapEntries(settings)| - 1] == pre + MapEntries(init);
    }
  }

  /** v is the integer n, as a number or as its decimal string. */
  predicate DenotesInteger(v: Value, n: int) {
    v == Num(n) || v == Str(IntToString(n))
  }

  /** Integers survive being read as integers. */
  lemma CoerceIntegerOfInteger(v: Value, n: int)
    requires DenotesInteger(v, n)
    ensures CoerceInteger(v) == Num(n)
  {
    if v == Num(n) {
      ParseIntValueOfNum(n);
    } else {
      ParseIntOfIntToString(n);
    }
  }

  /** Reading a value as an integer twice always gives a number. */
  lemma CoerceIntegerTwice(v: Value)
    ensures CoerceInteger(CoerceInteger(v)).Num?
  {
    var once := CoerceInteger(v);
    if once.Num? {
      ParseIntValueOfNum(once.n);
    }
  }

  /** With plain settings, `parseCodeRule(parseCodeRuleMap(s))` is s with each
      setting read back. */
  lemma RoundTripShape(s: Segment)
    requires PlainSettings(s.settings)
    ensures ParseCodeRuleSpec(Some(ParseCodeRuleMap(Some(s)))) == Segment(s.ruleType, s.note, ReadBack(s.settings))
  {
    var h := Header(s);
    HeaderKeys(s);
    WithPlainSettings(h, s.settings);
    RuleFromPlainEntries(h, s.settings);
    RuleFromHeader(s);
  }

  lemma HeaderKeys(s: Segment)
    requires PlainSettings(s.settings)
    ensures forall i :: 0 <= i < |s.settings| ==> !Has(Header(s), s.settings[i].name)
  {
    assert Keys(Header(s)) == ["type", "note"];
  }

  lemma RuleFromHeader(s: Segment)
    ensures RuleFromEntries(Header(s)) == Segment(s.ruleType, s.note, [])
  {
    var h := Header(s);
    assert h[..|h| - 1] == [Entry("type", s.ruleType)];
    assert h[..|h| - 1][..0] == [];
    assert RuleFromEntries(h[..|h| - 1]) == Segment(s.ruleType, Undefined, []);
  }

  /** Round trip: `parseCodeRule(parseCodeRuleMap(s))` gives back the type, the
      note and the setting names in order; values are unchanged except `length`
      and `start`, which come back as the integers they denote, `length` always
      as a number. */
  lemma RoundTrip(s: Segment)
    requires PlainSettings(s.settings)
    ensures var r := ParseCodeRuleSpec(Some(ParseCodeRuleMap(Some(s))));
      && r.ruleType == s.ruleType
      && r.note == s.note
      && SettingNames(r.settings) == SettingNames(s.settings)
      && (forall i :: 0 <= i < |s.settings| && s.settings[i].name != "length" && s.settings[i].name != "start" ==>
            r.settings[i].value == s.settings[i].value)
      && (forall i :: 0 <= i < |s.settings| && s.settings[i].name == "length" ==> r.settings[i].value.Num?)
      && (forall i, n ::
            (0 <= i < |s.settings| && (s.settings[i].name == "length" || s.settings[i].name == "start")
             && DenotesInteger(s.settings[i].value, n))
            ==> r.settings[i].value == Num(n))
  {
    RoundTripShape(s);
    var r := ParseCodeRuleSpec(Some(ParseCodeRuleMap(Some(s))));
    assert r.settings == ReadBack(s.settings);
    forall i | 0 <= i < |s.settings| && s.settings[i].name == "length"
      ensures r.settings[i].value.Num?
    {
      CoerceIntegerTwice(s.settings[i].value);
    }
    forall i, n | 0 <= i < |s.settings| && (s.settings[i].name == "length" || s.settings[i].name == "start")
      && DenotesInteger(s.settings[i].value, n)
      ensures r.settings[i].value == Num(n)
    {
      CoerceIntegerOfInteger(s.settings[i].value, n);
      CoerceIntegerOfInteger(Num(n), n);
    }
  }

  // ---------------------------------------------------------------------------
  // Lemmas: code length

  /** The nine length-carrying kinds measure a segment by its last `length`
      setting: an integer length gives that integer, a missing one gives 0,
      and the result is always a number. */
  lemma CodeLengthOfLengthKind(s: Segment, k: RuleType)
    requires KindOf(s.ruleType) == Some(k) && MeasuredByLength(k)
    ensures GetCodeLength(Some(s)).Num?
    ensures LastNamed(s.settings, "length").None? ==> GetCodeLength(Some(s)) == Num(0)
  {
    ParseCodeRuleMapReads(s, "length");
    var length := Get(ParseCodeRuleMap(Some(s)), "length");
    if length.Num? {
      ParseIntValueOfNum(length.n);
    }
  }

  lemma CodeLengthOfIntegerSetting(s: Segment, k: RuleType, n: int)
    requires KindOf(s.ruleType) == Some(k) && MeasuredByLength(k)
    requires LastNamed(s.settings, "length").Some? && DenotesInteger(LastNamed(s.settings, "length").value.value, n)
    ensures GetCodeLength(Some(s)) == Num(n)
  {
    ParseCodeRuleMapReads(s, "length");
    CoerceIntegerOfInteger(LastNamed(s.settings, "length").value.value, n);
    ParseIntValueOfNum(n);
  }

  /** Literal and parameterValue segments are measured by their `content`
      setting: no content gives 0, whatever the `length` setting says. */
  lemma {:induction false} CodeLengthWithoutContent(s: Segment, k: RuleType)
    requires KindOf(s.ruleType) == Some(k) && !MeasuredByLength(k)
    requires LastNamed(s.settings, "content").None?
    ensures GetCodeLength(Some(s)) == Num(0)
  {
    ParseCodeRuleMapReads(s, "content");
  }

  /** A string content gives its length in UTF-16 code units, which is its
      number of characters when they all lie in the Basic Multilingual Plane. */
  lemma {:induction false} CodeLengthOfContent(s: Segment, k: RuleType, c: string)
    requires KindOf(s.ruleType) == Some(k) && !MeasuredByLength(k)
    requires LastNamed(s.settings, "content") == Some(Setting("content", Str(c)))
    ensures GetCodeLength(Some(s)) == Num(Utf16Length(c))
    ensures InBmp(c) ==> GetCodeLength(Some(s)) == Num(|c|)
  {
    ParseCodeRuleMapReads(s, "content");
  }

  /** A non-zero number as content has no length property: undefined. */
  lemma {:induction false} CodeLengthOfNumericContent(s: Segment, k: RuleType, n: int)
    requires KindOf(s.ruleType) == Some(k) && !MeasuredByLength(k)
    requires LastNamed(s.settings, "content") == Some(Setting("content", Num(n))) && n != 0
    ensures GetCodeLength(Some(s)).Undefined?
  {
    ParseCodeRuleMapReads(s, "content");
  }

  // ---------------------------------------------------------------------------
  // Lemmas: the sum of code lengths

  /** Adding up a concatenation is adding up its halves in turn. */
  lemma {:induction false} LengthTotalAppend(t: Value, a: seq<Value>, b: seq<Value>)
    ensures LengthTotal(t, a + b) == LengthTotal(LengthTotal(t, a), b)
  {
    if b == [] {
      assert a + b == a;
    } else {
      assert (a + b)[..|a + b| - 1] == a + b[..|b| - 1];
      LengthTotalAppend(t, a, b[..|b| - 1]);
    }
  }

  /** Once the running total is NaN it stays NaN. */
  lemma {:induction false} LengthTotalOfNaN(lengths: seq<Value>)
    ensures LengthTotal(NaN, lengths) == NaN
  {
    if lengths != [] {
      LengthTotalOfNaN(lengths[..|lengths| - 1]);
    }
  }

  /** Every length in the list is a number. */
  predicate AllNumbers(lengths: seq<Value>) {
    forall i :: 0 <= i < |lengths| ==> lengths[i].Num?
  }

  /** Reference definition: the lengths added up from the front. */
  function NumberSum(lengths: seq<Value>): int
    requires AllNumbers(lengths)
  {
    if lengths == [] then 0 else lengths[0].n + NumberSum(lengths[1..])
  }

  lemma {:induction false} LengthTotalShift(t: int, lengths: seq<Value>)
    requires AllNumbers(lengths)
    ensures LengthTotal(Num(t), lengths) == Num(t + NumberSum(lengths))
    decreases |lengths|
  {
    if lengths != [] {
      LengthTotalAppend(Num(t), [lengths[0]], lengths[1..]);
      assert [lengths[0]] + lengths[1..] == lengths;
      assert [lengths[0]][..0] == [];
      LengthTotalShift(t + lengths[0].n, lengths[1..]);
    }
  }

  /** When every code length is a number, the sequence length is their sum;
      a null list gives 0. */
  lemma {:induction false} SequenceLengthIsSum(segs: seq<Option<Segment>>)
    requires AllNumbers(CodeLengths(segs))
    ensures GetSequenceCodeLength(Some(segs)) == Num(NumberSum(CodeLengths(segs)))
  {
    LengthTotalShift(0, CodeLengths(segs));
  }

  /** One segment whose length is undefined makes the whole sum NaN. */
  lemma SequenceLengthUndefined(segs: seq<Option<Segment>>, i: int)
    requires 0 <= i < |segs| && GetCodeLength(segs[i]).Undefined?
    ensures GetSequenceCodeLength(Some(segs)) == NaN
  {
    LengthTotalOfNonNumber(Num(0), CodeLengths(segs), i);
  }

  /** A length that is not a number anywhere in the list makes the total NaN. */
  lemma LengthTotalOfNonNumber(t: Value, lengths: seq<Value>, i: int)
    requires 0 <= i < |lengths| && !lengths[i].Num?
    ensures LengthTotal(t, lengths) == NaN
  {
    var front, back := lengths[..i + 1], lengths[i + 1..];
    assert front[..i] == lengths[..i] && front[i] == lengths[i];
    assert LengthTotal(t, front) == NaN;
    LengthTotalAppend(t, front, back);
    assert front + back == lengths;
    LengthTotalOfNaN(back);
  }

  /** The lengths of a concatenation are the lengths of its parts. */
  lemma {:induction false} CodeLengthsAppend(a: seq<Option<Segment>>, b: seq<Option<Segment>>)
    ensures CodeLengths(a + b) == CodeLengths(a) + CodeLengths(b)
  {
    if b == [] {
      assert a + b == a;
    } else {
      var init, last := b[..|b| - 1], b[|b| - 1];
      CodeLengthsAppend(a, init);
      assert (a + b)[..|a + b| - 1] == a + init;
      assert (a + b)[|a + b| - 1] == last;
      assert CodeLengths(a + b) == CodeLengths(a + init) + [GetCodeLength(last)];
      assert CodeLengths(b) == CodeLengths(init) + [GetCodeLength(last)];
    }
  }

  /** The sequence length of a concatenation adds up the second part on top of
      the first. */
  lemma SequenceLengthAppend(a: seq<Option<Segment>>, b: seq<Option<Segment>>)
    ensures GetSequenceCodeLength(Some(a + b))
            == LengthTotal(GetSequenceCodeLength(Some(a)), CodeLengths(b))
  {
    CodeLengthsAppend(a, b);
    LengthTotalAppend(Num(0), CodeLengths(a), CodeLengths(b));
  }

  // ---------------------------------------------------------------------------
  // Lemmas: the preview

  /** Appending the contents of a concatenation is appending its parts in turn;
      a throw anywhere makes it throw. */
  lemma {:induction false} AppendedAppend(acc: string, a: seq<Outcome<Value>>, b: seq<Outcome<Value>>)
    ensures Appended(acc, a + b)
            == match Appended(acc, a)
               case Throws => Throws
               case Returns(p) => Appended(p, b)
  {
    if b == [] {
      assert a + b == a;
    } else {
      assert (a + b)[..|a + b| - 1] == a + b[..|b| - 1];
      AppendedAppend(acc, a, b[..|b| - 1]);
    }
  }

  /** Reference definition: the contents converted to strings and concatenated
      from the front; None when one of them throws. */
  function Concatenation(contents: seq<Outcome<Value>>): Option<string> {
    if contents == [] then Some("")
    else
      match (contents[0], Concatenation(contents[1..]))
      case (Returns(v), Some(rest)) => Some(ToStr(v) + rest)
      case _ => None
  }

  lemma {:induction false} AppendedIsConcatenation(acc: string, contents: seq<Outcome<Value>>)
    ensures Appended(acc, contents)
            == match Concatenation(contents)
               case None => Throws
               case Some(c) => Returns(acc + c)
    decreases |contents|
  {
    if contents != [] {
      AppendedAppend(acc, [contents[0]], contents[1..]);
      assert [contents[0]] + contents[1..] == contents;
      assert [contents[0]][..0] == [];
      match contents[0]
      case Throws =>
        assert Appended(acc, [contents[0]]) == Throws;
      case Returns(v) =>
        assert Appended(acc, [contents[0]]) == Returns(acc + ToStr(v));
        AppendedIsConcatenation(acc + ToStr(v), contents[1..]);
        if Concatenation(contents[1..]).Some? {
          assert acc + ToStr(v) + Concatenation(contents[1..]).value
                 == acc + (ToStr(v) + Concatenation(contents[1..]).value);
        }
    } else {
      assert acc + "" == acc;
    }
  }

  /** `previewSequenceCode` is the in-order concatenation of the segments'
      contents; it throws exactly when one of them throws, and an empty list
      previews as "". */
  lemma {:induction false} PreviewIsConcatenation(segs: seq<Option<Segment>>, options: PreviewOptions, cal: Calendar)
    ensures PreviewSequenceCode(Some(segs), options, cal)
            == match Concatenation(Contents(segs, options, cal))
               case None => Throws
               case Some(c) => Returns(Str(c))
    ensures segs == [] ==> PreviewSequenceCode(Some(segs), options, cal) == Returns(Str(""))
  {
    AppendedIsConcatenation("", Contents(segs, options, cal));
    var c := Concatenation(Contents(segs, options, cal));
    if c.Some? {
      assert "" + c.value == c.value;
    }
  }

  // ---------------------------------------------------------------------------
  // Lemmas: the renderers

  /** The preview start is `max(start || 1, currentAutoNumber || 1)`. */
  lemma PreviewStartOfNumbers(m: Object, start: int, current: int)
    requires Get(m, "start") == Num(start) && Get(m, "currentAutoNumber") == Num(current)
    ensures PreviewStart(m) == Num(Max(if start == 0 then 1 else start, if current == 0 then 1 else current))
  {
  }

  /** Whatever the padding, the auto-increment preview ends with the preview
      start plus the offset, written out in full: it is never truncated to
      `length`. A preview start decimal.js can read never throws. */
  lemma AutoIncrementNeverTruncated(m: Object, offset: int, p: int)
    requires Operand(PreviewStart(m)) == Some(p)
    ensures RenderAutoIncrement(m, offset).Returns?
    ensures var r := RenderAutoIncrement(m, offset).value;
      |r| >= |IntToString(p + offset)| && r[|r| - |IntToString(p + offset)|..] == IntToString(p + offset)
  {
    RenderedSum(m, offset, p);
  }

  lemma SumOfOperands(x: Value, p: int, offset: int)
    requires Operand(x) == Some(p)
    ensures Sum([x, Num(offset)]) == Some(p + offset)
  {
    assert [x, Num(offset)][..1] == [x];
    assert [x][..0] == [];
    assert Sum([x]) == Some(p);
  }

  /** The auto-increment preview of a readable start: the sum written out and
      padded. */
  lemma RenderedSum(m: Object, offset: int, p: int)
    requires Operand(PreviewStart(m)) == Some(p)
    ensures RenderAutoIncrement(m, offset)
            == Returns(PadStart(IntToString(p + offset), ToInteger(Get(m, "length")),
                                ToStr(Or(Get(m, "paddingCharactor"), Str("0")))))
  {
    RenderedSumFrom(PreviewStart(m), m, offset, p);
  }

  lemma RenderedSumFrom(start: Value, m: Object, offset: int, p: int)
    requires Operand(start) == Some(p)
    ensures RenderFrom(start, m, offset)
            == Returns(PadStart(IntToString(p + offset), ToInteger(Get(m, "length")),
                                ToStr(Or(Get(m, "paddingCharactor"), Str("0")))))
  {
    SumOfOperands(start, p, offset);
  }

  /** With zero padding, the auto-increment preview is the number
      `max(start||1, current||1) + offset` in digits, exactly `length` wide
      unless the number needs more; raising the offset by one raises the number
      read back by one. */
  lemma {:induction false} AutoIncrementZeroPadded(m: Object, offset: int, p: int)
    requires Operand(PreviewStart(m)) == Some(p) && p + offset >= 0
    requires !Truthy(Get(m, "paddingCharactor")) || Get(m, "paddingCharactor") == Str("0")
    ensures RenderAutoIncrement(m, offset).Returns?
    ensures var r := RenderAutoIncrement(m, offset).value;
      && AllDigits(r)
      && ParseInt(r) == Some(p + offset)
      && |r| == Max(ToInteger(Get(m, "length")), |NatToString(p + offset)|)
  {
    RenderedSum(m, offset, p);
    ZeroPaddedRender(RenderAutoIncrement(m, offset), p + offset, ToInteger(Get(m, "length")),
                     Get(m, "paddingCharactor"));
  }

  lemma ZeroPaddedRender(r: Outcome<string>, n: nat, length: int, pad: Value)
    requires !Truthy(pad) || pad == Str("0")
    requires r == Returns(PadStart(IntToString(n), length, ToStr(Or(pad, Str("0")))))
    ensures r.Returns? && AllDigits(r.value) && ParseInt(r.value) == Some(n)
    ensures |r.value| == Max(length, |NatToString(n)|)
  {
    assert ToStr(Or(pad, Str("0"))) == "0";
    assert IntToString(n) == NatToString(n);
    ZeroPaddedWidth(n, length);
  }

  /** Not editable, a user input previews as exactly `length` copies of "X"
      (none for a length of 0 or less). */
  lemma UserInputHidden(m: Object)
    ensures var length := ToInteger(Get(m, "length"));
      RenderUserInput(m, false) == Repeat('X', if length <= 0 then 0 else length)
  {
    var length := ToInteger(Get(m, "length"));
    PadStartOneChar("", length, 'X');
    assert Repeat('X', if length <= 0 then 0 else length) + "" == Repeat('X', if length <= 0 then 0 else length);
  }

  /** Editable, a user input previews as the typed value (or "") followed by
      enough "_" to reach `length`. */
  lemma UserInputEditable(m: Object)
    ensures var length := ToInteger(Get(m, "length"));
      var typed := Get(m, "userInputValue");
      var shown := if IsNil(typed) then "" else ToStr(typed);
      RenderUserInput(m, true) == shown + Repeat('_', if length <= |shown| then 0 else length - |shown|)
  {
    var typed := Get(m, "userInputValue");
    PadEndOneChar(if IsNil(typed) then "" else ToStr(typed), ToInteger(Get(m, "length")), '_');
  }

  /** A one-character padding gives `length` copies of that character. */
  lemma ChecksumOfOneCharacter(m: Object, c: char)
    requires PadChars(Get(m, "paddingCharactor")) == [c]
    ensures var length := ToInteger(Get(m, "length"));
      RenderChecksum(m) == Repeat(c, if length <= 0 then 0 else length)
  {
    var length := ToInteger(Get(m, "length"));
    PadStartOneChar("", length, c);
    assert Repeat(c, if length <= 0 then 0 else length) + "" == Repeat(c, if length <= 0 then 0 else length);
  }

  /** The year is two digits exactly when `length == 2` (its last two, as
      "YY" gives them), and otherwise the full year in at least four digits. */
  lemma YearWidth(m: Object, cal: Calendar)
    ensures var r := RenderYear(m, cal);
      var digits := NatToString(cal.year);
      if LooseEqualsNumber(Get(m, "length"), 2) then
        |r| <= 2 && r == digits[|digits| - |r|..] && (cal.year >= 10 ==> |r| == 2)
      else
        && AllDigits(r) && ParseInt(r) == Some(cal.year as int)
        && |r| >= 4 && (cal.year < 10000 ==> |r| == 4)
  {
    ZeroPaddedNat(cal.year, 4);
    assert Pow10(4) == 10000;
    if cal.year >= 10 {
      assert |NatToString(cal.year)| >= 2;
    }
  }

  /** The month, day of month, week and day of year are zero padded to two,
      two, two and three places and read back as the calendar's numbers; the
      day of the week is its single digit. */
  lemma DateWidths(cal: Calendar)
    ensures AllDigits(RenderMonth(cal)) && ParseInt(RenderMonth(cal)) == Some(cal.month as int)
    ensures cal.month < 100 ==> |RenderMonth(cal)| == 2
    ensures AllDigits(RenderDayOfMonth(cal)) && ParseInt(RenderDayOfMonth(cal)) == Some(cal.dayOfMonth as int)
    ensures cal.dayOfMonth < 100 ==> |RenderDayOfMonth(cal)| == 2
    ensures AllDigits(RenderWeekOfYear(cal)) && ParseInt(RenderWeekOfYear(cal)) == Some(cal.weekOfYear as int)
    ensures cal.weekOfYear < 100 ==> |RenderWeekOfYear(cal)| == 2
    ensures AllDigits(RenderDayOfYear(cal)) && ParseInt(RenderDayOfYear(cal)) == Some(cal.dayOfYear as int)
    ensures cal.dayOfYear < 1000 ==> |RenderDayOfYear(cal)| == 3
    ensures cal.dayOfWeek < 10 ==> RenderDayOfWeek(cal) == [DigitChar(cal.dayOfWeek)]
  {
    assert Pow10(2) == 100 && Pow10(3) == 1000;
    ZeroPaddedNat(cal.month, 2);
    ZeroPaddedNat(cal.dayOfMonth, 2);
    ZeroPaddedNat(cal.weekOfYear, 2);
    ZeroPaddedNat(cal.dayOfYear, 3);
  }
}
