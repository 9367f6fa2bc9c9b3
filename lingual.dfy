/** The `{key}` placeholder substitution used to build messages, and the
    messages themselves. The locale tables are not modelled: a message is the
    name of the `lang` entry it comes from, with the value substituted into it. */
module Lingual {
  import opened Js
  import opened JsObject

  /** A user-facing message: a `lang` entry, or a `lang` entry with `{n}` filled in,
      or text built in code. */
  datatype Message =
    | InvalidInput
    | DataIsRequired
    | ParameterNameRequired
    | ContentRequired
    | LblRequired
    /** `lang.maximumNotBeExceed` with `{n}` replaced by the bound. */
    | MaximumNotBeExceed(bound: real)
    /** `lang.maxStringLength` with `{n}` replaced by n. */
    | MaxStringLength(n: string)
    /** `lang.minStringLength` with `{n}` replaced by n. */
    | MinStringLength(n: string)
    /** `lang.numberDigits` with `{n}` replaced by n. */
    | NumberDigits(n: string)
    /** `lang.sequence_<type>`: the display name of a segment type. */
    | SequenceTypeName(typeTag: string)
    /** A message written out in code. */
    | Text(s: string)

  // ---------------------------------------------------------------------------
  // String.prototype.split and Array.prototype.join

  /** Whether sep occurs in s at position i. */
  predicate OccursAt(s: string, sep: string, i: int) {
    0 <= i && i + |sep| <= |s| && s[i..i + |sep|] == sep
  }

  /** `s.split(sep)` for a non-empty separator: s cut at every occurrence of
      sep found scanning left to right, occurrences not overlapping. */
  function Split(s: string, sep: string): (r: seq<string>)
    requires sep != []
    ensures |r| >= 1
    decreases |s|
  {
    if |s| < |sep| then [s]
    else if s[..|sep|] == sep then [""] + Split(s[|sep|..], sep)
    else
      var rest := Split(s[1..], sep);
      [[s[0]] + rest[0]] + rest[1..]
  }

  /** `parts.join(sep)`. */
  function Join(parts: seq<string>, sep: string): string
    requires |parts| >= 1
  {
    if |parts| == 1 then parts[0] else parts[0] + sep + Join(parts[1..], sep)
  }

  /** The separator `join` uses for a value: undefined means ",". */
  function JoinSeparator(v: Value): string {
    if v.Undefined? then "," else ToStr(v)
  }

  /** Independent definition: every non-overlapping occurrence of pat, scanning
      left to right, replaced by rep. */
  function ReplaceAll(s: string, pat: string, rep: string): string
    requires pat != []
    decreases |s|
  {
    if |s| < |pat| then s
    else if s[..|pat|] == pat then rep + ReplaceAll(s[|pat|..], pat, rep)
    else [s[0]] + ReplaceAll(s[1..], pat, rep)
  }

  /** The number of occurrences ReplaceAll replaces. */
  function Count(s: string, pat: string): nat
    requires pat != []
    decreases |s|
  {
    if |s| < |pat| then 0
    else if s[..|pat|] == pat then 1 + Count(s[|pat|..], pat)
    else Count(s[1..], pat)
  }

  /** The placeholder for a key. */
  function Placeholder(key: string): (r: string)
    ensures |r| == |key| + 2
  {
    "{" + key + "}"
  }

  /** One iteration of the loop: `template.split("{key}").join(data[key])`. */
  function Substitute(template: string, e: Entry): string {
    Join(Split(template, Placeholder(e.key)), JoinSeparator(e.value))
  }

  /** `formatString(template, data)`: each entry of data substituted in turn, in
      the object's key order. */
  function Formatted(template: string, data: Object): string {
    if data == [] then template
    else Substitute(Formatted(template, data[..|data| - 1]), data[|data| - 1])
  }

  /** `formatString`: the `for ... in` loop reassigning `template`. */
  method FormatString(template: string, data: Object) returns (r: string)
    ensures r == Formatted(template, data)
  {
    r := template;
    for i := 0 to |data|
      invariant r == Formatted(template, data[..i])
    {
      assert data[..i + 1][..i] == data[..i];
      r := Join(Split(r, Placeholder(data[i].key)), JoinSeparator(data[i].value));
    }
    assert data[..|data|] == data;
  }

  // ---------------------------------------------------------------------------
  // Lemmas

  /** Splitting and joining replaces every non-overlapping left-to-right
      occurrence of the separator. */
  lemma {:induction false} JoinSplitIsReplaceAll(s: string, sep: string, rep: string)
    requires sep != []
    ensures Join(Split(s, sep), rep) == ReplaceAll(s, sep, rep)
    decreases |s|
  {
    if |s| < |sep| {
    } else if s[..|sep|] == sep {
      var t := s[|sep|..];
      JoinSplitIsReplaceAll(t, sep, rep);
      assert Split(s, sep) == [""] + Split(t, sep);
      JoinCons("", Split(t, sep), rep);
      assert ReplaceAll(s, sep, rep) == rep + ReplaceAll(t, sep, rep);
    } else {
      var t := s[1..];
      JoinSplitIsReplaceAll(t, sep, rep);
      var rest := Split(t, sep);
      assert Split(s, sep) == [[s[0]] + rest[0]] + rest[1..];
      JoinWidened(s[0], rest, rep);
      assert ReplaceAll(s, sep, rep) == [s[0]] + ReplaceAll(t, sep, rep);
    }
  }

  /** Joining a piece in front of at least one more. */
  lemma JoinCons(x: string, parts: seq<string>, sep: string)
    requires |parts| >= 1
    ensures Join([x] + parts, sep) == x + sep + Join(parts, sep)
  {
    assert ([x] + parts)[1..] == parts;
  }

  /** Widening the first piece by a character widens the join by it. */
  lemma JoinWidened(c: char, parts: seq<string>, sep: string)
    requires |parts| >= 1
    ensures Join([[c] + parts[0]] + parts[1..], sep) == [c] + Join(parts, sep)
  {
    var widened := [[c] + parts[0]] + parts[1..];
    if |parts| > 1 {
      assert widened[1..] == parts[1..];
      assert Join(widened, sep) == ([c] + parts[0]) + sep + Join(parts[1..], sep);
      assert Join(parts, sep) == parts[0] + sep + Join(parts[1..], sep);
    }
  }

  /** Splitting gives one more piece than there are occurrences. */
  lemma {:induction false} SplitCount(s: string, sep: string)
    requires sep != []
    ensures |Split(s, sep)| == Count(s, sep) + 1
    decreases |s|
  {
    if |s| < |sep| {
    } else if s[..|sep|] == sep {
      SplitCount(s[|sep|..], sep);
    } else {
      SplitCount(s[1..], sep);
    }
  }

  /** Each replaced occurrence changes the length by |rep| - |pat|. */
  lemma {:induction false} ReplaceAllLength(s: string, pat: string, rep: string)
    requires pat != []
    ensures |ReplaceAll(s, pat, rep)| == |s| + Count(s, pat) * (|rep| - |pat|)
    decreases |s|
  {
    if |s| < |pat| {
    } else if s[..|pat|] == pat {
      var t := s[|pat|..];
      ReplaceAllLength(t, pat, rep);
      assert |ReplaceAll(s, pat, rep)| == |rep| + |ReplaceAll(t, pat, rep)|;
      assert Count(s, pat) == 1 + Count(t, pat);
      OneMore(Count(t, pat), |rep| - |pat|);
    } else {
      var t := s[1..];
      ReplaceAllLength(t, pat, rep);
      assert |ReplaceAll(s, pat, rep)| == 1 + |ReplaceAll(t, pat, rep)|;
      assert Count(s, pat) == Count(t, pat);
    }
  }

  lemma OneMore(c: int, d: int)
    ensures (1 + c) * d == d + c * d
  {
  }

  /** A string in which pat never occurs is left unchanged. */
  lemma {:induction false} ReplaceAllAbsent(s: string, pat: string, rep: string)
    requires pat != []
    requires forall i :: !OccursAt(s, pat, i)
    ensures ReplaceAll(s, pat, rep) == s
    ensures Count(s, pat) == 0
    decreases |s|
  {
    if |s| >= |pat| {
      assert !OccursAt(s, pat, 0);
      forall i
        ensures !OccursAt(s[1..], pat, i)
      {
        if OccursAt(s[1..], pat, i) {
          assert s[1..][i..i + |pat|] == s[i + 1..i + 1 + |pat|];
          assert OccursAt(s, pat, i + 1);
        }
      }
      ReplaceAllAbsent(s[1..], pat, rep);
    }
  }

  /** One substitution with a key occurring k times changes the template's
      length by k * (|value| - |key| - 2). */
  lemma SubstituteLength(template: string, e: Entry)
    ensures |Substitute(template, e)|
            == |template| + Count(template, Placeholder(e.key)) * (|JoinSeparator(e.value)| - |e.key| - 2)
  {
    JoinSplitIsReplaceAll(template, Placeholder(e.key), JoinSeparator(e.value));
    ReplaceAllLength(template, Placeholder(e.key), JoinSeparator(e.value));
  }

  /** A template in which no key's placeholder occurs comes back unchanged; in
      particular an empty data object changes nothing. */
  lemma {:induction false} FormattedWithoutPlaceholders(template: string, data: Object)
    requires forall j, i :: 0 <= j < |data| ==> !OccursAt(template, Placeholder(data[j].key), i)
    ensures Formatted(template, data) == template
  {
    if data != [] {
      var init := data[..|data| - 1];
      var e := data[|data| - 1];
      FormattedWithoutPlaceholders(template, init);
      JoinSplitIsReplaceAll(template, Placeholder(e.key), JoinSeparator(e.value));
      ReplaceAllAbsent(template, Placeholder(e.key), JoinSeparator(e.value));
    }
  }

  /** Formatting with the entries of a then those of b is formatting with a,
      then formatting the result with b. */
  lemma {:induction false} FormattedAppend(template: string, a: Object, b: Object)
    ensures Formatted(template, a + b) == Formatted(Formatted(template, a), b)
  {
    if b == [] {
      assert a + b == a;
    } else {
      assert (a + b)[..|a + b| - 1] == a + b[..|b| - 1];
      FormattedAppend(template, a, b[..|b| - 1]);
    }
  }

  /** Later keys see earlier substitutions: after the first entry is
      substituted, the remaining entries work on the substituted text, so a
      placeholder the first value introduces is filled by a later key. */
  lemma LaterKeysSeeEarlierSubstitutions(template: string, e: Entry, rest: Object)
    ensures Formatted(template, [e] + rest) == Formatted(Substitute(template, e), rest)
  {
    FormattedAppend(template, [e], rest);
    assert [e][..0] == [];
  }

  /** For example, substituting "{a}" by "{b}" and then "{b}" by "x" turns
      "{a}" into "x". */
  lemma ChainedSubstitutionExample()
    ensures Formatted("{a}", [Entry("a", Str("{b}")), Entry("b", Str("x"))]) == "x"
  {
    var data := [Entry("a", Str("{b}")), Entry("b", Str("x"))];
    assert data[..1] == [Entry("a", Str("{b}"))];
    assert data[..1][..0] == [];
    JoinSplitIsReplaceAll("{a}", "{a}", "{b}");
    assert ReplaceAll("{a}", "{a}", "{b}") == "{b}" + ReplaceAll("", "{a}", "{b}");
    JoinSplitIsReplaceAll("{b}", "{b}", "x");
    assert ReplaceAll("{b}", "{b}", "x") == "x" + ReplaceAll("", "{b}", "x");
  }
}
