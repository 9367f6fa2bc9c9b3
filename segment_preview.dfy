/** The preview tile the multi-segment editor shows for each form: its own
    per-kind rendering, which differs from the code generator's in several
    places, and the drop hint shown while a tile is dragged. */
module SegmentPreview {
  import opened Js
  import opened JsObject
  import opened Types
  import opened FormInputs
  import SequenceRule
  import Editor

  /** What a tile shows: a value, or the form written out as JSON for a type
      without its own rendering (the JSON text itself is not modelled). */
  datatype Preview = Shown(v: Value) | Stringified(form: Object)

  /** The auto-increment tile: "1" left-padded with `paddingCharactor || "0"`
      to `length`; `start` plays no part. */
  function PreviewAutoIncrement(form: Object): (r: string)
    ensures |r| >= 1 && r[|r| - 1] == '1'
  {
    PadStart("1", ToInteger(Get(form, "length")), ToStr(Or(Get(form, "paddingCharactor"), Str("0"))))
  }

  /** The day-of-year tile: "0" padded to three characters with the day's
      digits as the fill. */
  function PreviewDayOfYear(cal: SequenceRule.Calendar): (r: string)
    ensures var digits := NatToString(cal.dayOfYear);
      && |r| == 3 && r[2] == '0'
      && r[0] == digits[0] && r[1] == digits[1 % |digits|]
  {
    PadStart("0", 3, NatToString(cal.dayOfYear))
  }

  /** `renderPreview(form)`: the tile's content by the form's type; the year
      tile is always the four-digit year. */
  function RenderPreview(form: Object, cal: SequenceRule.Calendar): (r: Preview)
    ensures KindOf(Get(form, "type")).None? ==> r == Stringified(form)
    ensures KindOf(Get(form, "type")) == Some(UserInput) ==> r == Stringified(form)
    ensures KindOf(Get(form, "type")) == Some(Literal) ==> r == Shown(Get(form, "content"))
    ensures KindOf(Get(form, "type")) == Some(Year) ==> r == Shown(Str(SequenceRule.FourDigitYear(cal.year)))
    ensures KindOf(Get(form, "type")) == Some(DayOfYear) ==> r == Shown(Str(PreviewDayOfYear(cal)))
    ensures KindOf(Get(form, "type")) == Some(AutoIncrement) ==> r == Shown(Str(PreviewAutoIncrement(form)))
  {
    match KindOf(Get(form, "type"))
    case None => Stringified(form)
    case Some(k) =>
      match k
      case Literal => Shown(Get(form, "content"))
      case ParameterValue => Shown(Str(SequenceRule.RenderParameterValue(form)))
      case Year => Shown(Str(SequenceRule.FourDigitYear(cal.year)))
      case Month => Shown(Str(SequenceRule.RenderMonth(cal)))
      case DayOfWeek => Shown(Str(SequenceRule.RenderDayOfWeek(cal)))
      case DayOfMonth => Shown(Str(SequenceRule.RenderDayOfMonth(cal)))
      case DayOfYear => Shown(Str(PreviewDayOfYear(cal)))
      case WeekOfYear => Shown(Str(SequenceRule.RenderWeekOfYear(cal)))
      case AutoIncrement => Shown(Str(PreviewAutoIncrement(form)))
      case Checksum => Shown(Str(SequenceRule.RenderChecksum(form)))
      case UserInput => Stringified(form)
  }

  /** The side of the target tile on which the drop marker is drawn. */
  datatype Side = LeftEdge | RightEdge

  /** The drop marker on the tile at `index`: shown on the tile being dragged
      over, left of it when the dragged tile comes from further right, and not
      at all when a tile is over itself. */
  function DropHint(moving: Option<int>, dropping: Option<int>, index: int): (r: Option<Side>)
    ensures r.Some? <==> moving.Some? && dropping == Some(index) && moving.value != index
    ensures r == Some(LeftEdge) <==> moving.Some? && dropping == Some(index) && moving.value > index
  {
    if moving.Some? && dropping.Some? && dropping.value == index then
      if moving.value == dropping.value then None
      else if moving.value > dropping.value then Some(LeftEdge) else Some(RightEdge)
    else None
  }

  // ---------------------------------------------------------------------------
  // Lemmas

  /** The marker shows where the dragged form will land: dropped from the
      right it ends up just before the target form, from the left just after. */
  lemma DropHintMatchesMove<T>(l: seq<T>, from: nat, to: nat)
    requires from < |l| && to < |l|
    ensures DropHint(Some(from), Some(to), to) == Some(LeftEdge) ==>
              Editor.Moved(l, from, to)[to] == l[from] && Editor.Moved(l, from, to)[to + 1] == l[to]
    ensures DropHint(Some(from), Some(to), to) == Some(RightEdge) ==>
              Editor.Moved(l, from, to)[to] == l[from] && Editor.Moved(l, from, to)[to - 1] == l[to]
    ensures DropHint(Some(from), Some(to), to).None? ==> Editor.Moved(l, from, to) == l
  {
    var r := Editor.Moved(l, from, to);
    var rest := l[..from] + l[from + 1..];
    if from > to {
      assert r[to + 1] == rest[to];
    } else if from < to {
      assert r[to - 1] == rest[to - 1];
    } else {
      Editor.MovedInPlace(l, to);
    }
  }

  /** The auto-increment tile ignores `start`: editing it leaves the tile as
      it was. */
  lemma AutoIncrementPreviewIgnoresStart(form: Object, v: Value, cal: SequenceRule.Calendar)
    requires KindOf(Get(form, "type")) == Some(AutoIncrement)
    ensures RenderPreview(Edit(form, "start", v), cal) == RenderPreview(form, cal)
  {
    var edited := Edit(form, "start", v);
    EditKeeps(form, "start", v, "type");
    EditKeeps(form, "start", v, "length");
    EditKeeps(form, "start", v, "paddingCharactor");
    SameAutoIncrementPreview(edited, form);
  }

  lemma SameAutoIncrementPreview(a: Object, b: Object)
    requires Get(a, "length") == Get(b, "length") && Get(a, "paddingCharactor") == Get(b, "paddingCharactor")
    ensures PreviewAutoIncrement(a) == PreviewAutoIncrement(b)
  {
  }

  /** With a length n and a one-character padding c, the auto-increment tile
      is n - 1 copies of c followed by "1" (just "1" when n < 1). */
  lemma AutoIncrementPreviewShape(form: Object, n: int, c: char)
    requires Get(form, "length") == Num(n) && Get(form, "paddingCharactor") == Str([c])
    ensures PreviewAutoIncrement(form) == Repeat(c, if n <= 1 then 0 else n - 1) + "1"
  {
    assert ToStr(Or(Get(form, "paddingCharactor"), Str("0"))) == [c];
    assert ToInteger(Get(form, "length")) == n;
    PadStartOneChar("1", n, c);
  }

  /** The year tile has four digits whatever the form's length, while the code
      generator writes two digits for a length of 2. */
  lemma YearPreviewIgnoresLength(form: Object, cal: SequenceRule.Calendar)
    requires KindOf(Get(form, "type")) == Some(Year)
    requires 1000 <= cal.year < 10000
    ensures RenderPreview(form, cal).Shown? && RenderPreview(form, cal).v.Str?
    ensures |RenderPreview(form, cal).v.s| == 4
    ensures Get(form, "length") == Num(2) ==> |SequenceRule.RenderYear(form, cal)| == 2
  {
    FourDigitYearWidth(cal);
    if Get(form, "length") == Num(2) {
      TwoDigitYearWidth(form, cal);
    }
  }

  lemma TwoDigitYearWidth(form: Object, cal: SequenceRule.Calendar)
    requires Get(form, "length") == Num(2) && cal.year >= 10
    ensures |SequenceRule.RenderYear(form, cal)| == 2
  {
    assert LooseEqualsNumber(Get(form, "length"), 2);
    SequenceRule.YearWidth(form, cal);
  }

  lemma FourDigitYearWidth(cal: SequenceRule.Calendar)
    requires 1000 <= cal.year < 10000
    ensures |SequenceRule.FourDigitYear(cal.year)| == 4
  {
    SequenceRule.YearWidth([], cal);
    assert !LooseEqualsNumber(Get([], "length"), 2);
  }

  /** Day 45 shows as "450" on its tile, where the code generator writes "045". */
  lemma DayOfYearPreviewExample(cal: SequenceRule.Calendar)
    requires cal.dayOfYear == 45
    ensures PreviewDayOfYear(cal) == "450"
    ensures SequenceRule.RenderDayOfYear(cal) == "045"
  {
    FortyFive();
    PaddedFortyFive();
  }

  lemma FortyFive()
    ensures NatToString(45) == "45"
  {
    assert NatToString(4) == "4";
  }

  lemma PaddedFortyFive()
    ensures PadStart("0", 3, "45") == "450"
    ensures PadStart("45", 3, "0") == "045"
  {
    var fill := Padding(2, "45");
    assert |fill| == 2 && fill[0] == '4' && fill[1] == '5';
    assert fill == "45";
    var zero := Padding(1, "0");
    assert |zero| == 1 && zero[0] == '0';
    assert zero == "0";
  }
}
