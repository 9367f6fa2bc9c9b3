/** The segment-type select: the kinds it offers, in a fixed order, less the
    ones a caller excludes. */
module TypesDropdown {
  import opened Js
  import opened Types

  /** The position of a kind in the select's list of all kinds. */
  function Rank(t: RuleType): (r: nat)
    ensures r < |AllTypes| && AllTypes[r] == t
  {
    match t
    case Literal => 0
    case ParameterValue => 1
    case Year => 2
    case Month => 3
    case DayOfMonth => 4
    case DayOfWeek => 5
    case DayOfYear => 6
    case WeekOfYear => 7
    case AutoIncrement => 8
    case Checksum => 9
    case UserInput => 10
  }

  /** `list.filter(type => !excluded.includes(type))`. */
  function Without(list: seq<RuleType>, excluded: seq<RuleType>): (r: seq<RuleType>)
    ensures forall t :: t in r <==> t in list && t !in excluded
    ensures |r| <= |list|
  {
    if list == [] then []
    else (if list[0] in excluded then [] else [list[0]]) + Without(list[1..], excluded)
  }

  /** The options of the select: every kind except the excluded ones, absent
      `excludeTypes` counting as none. */
  function Offered(excludeTypes: Option<seq<RuleType>>): (r: seq<RuleType>)
    ensures forall t :: t in r <==> excludeTypes.None? || t !in excludeTypes.value
  {
    var excluded := if excludeTypes.Some? then excludeTypes.value else [];
    AllTypesComplete(Literal);
    assert forall t :: t in AllTypes by {
      forall t ensures t in AllTypes { AllTypesComplete(t); }
    }
    Without(AllTypes, excluded)
  }

  // ---------------------------------------------------------------------------
  // Lemmas

  /** Kinds listed in the select's order. */
  predicate Ranked(list: seq<RuleType>) {
    forall i, j :: 0 <= i < j < |list| ==> Rank(list[i]) < Rank(list[j])
  }

  /** Every kind of the list comes after x in the select's order. */
  predicate AllAfter(x: RuleType, list: seq<RuleType>) {
    forall j :: 0 <= j < |list| ==> Rank(x) < Rank(list[j])
  }

  /** Filtering keeps the order of the list it filters: every option comes
      later in the list than the one before it. */
  lemma {:induction false} WithoutKeepsOrder(list: seq<RuleType>, excluded: seq<RuleType>)
    requires Ranked(list)
    ensures Ranked(Without(list, excluded))
  {
    if list != [] {
      var rest := Without(list[1..], excluded);
      assert Ranked(list[1..]);
      WithoutKeepsOrder(list[1..], excluded);
      if list[0] in excluded {
        assert Without(list, excluded) == rest;
      } else {
        assert Without(list, excluded) == [list[0]] + rest;
        assert AllAfter(list[0], list[1..]);
        AllAfterWithout(list[0], list[1..], excluded);
        RankedCons(list[0], rest);
      }
    }
  }

  lemma AllAfterWithout(x: RuleType, list: seq<RuleType>, excluded: seq<RuleType>)
    requires AllAfter(x, list)
    ensures AllAfter(x, Without(list, excluded))
  {
    var r := Without(list, excluded);
    forall j | 0 <= j < |r|
      ensures Rank(x) < Rank(r[j])
    {
      assert r[j] in list;
    }
  }

  lemma RankedCons(x: RuleType, rest: seq<RuleType>)
    requires Ranked(rest) && AllAfter(x, rest)
    ensures Ranked([x] + rest)
  {
    var r := [x] + rest;
    forall i, j | 0 <= i < j < |r|
      ensures Rank(r[i]) < Rank(r[j])
    {
      assert r[j] == rest[j - 1];
      if i > 0 {
        assert r[i] == rest[i - 1];
      }
    }
  }

  /** Each kind's rank is its place in the list of all kinds. */
  lemma AllTypesRanked()
    ensures forall i :: 0 <= i < |AllTypes| ==> Rank(AllTypes[i]) == i
  {
  }

  /** The options follow the select's fixed order, so no kind is offered twice. */
  lemma OfferedInOrder(excludeTypes: Option<seq<RuleType>>)
    ensures Ranked(Offered(excludeTypes))
    ensures var r := Offered(excludeTypes); forall i, j :: 0 <= i < j < |r| ==> r[i] != r[j]
  {
    var excluded := if excludeTypes.Some? then excludeTypes.value else [];
    AllTypesRanked();
    WithoutKeepsOrder(AllTypes, excluded);
    assert Offered(excludeTypes) == Without(AllTypes, excluded);
  }

  /** With nothing excluded, all eleven kinds are offered in their fixed order. */
  lemma NothingExcluded()
    ensures Offered(None) == AllTypes
    ensures Offered(Some([])) == AllTypes
  {
    WithoutNothing(AllTypes);
  }

  lemma {:induction false} WithoutNothing(list: seq<RuleType>)
    ensures Without(list, []) == list
  {
    if list != [] {
      WithoutNothing(list[1..]);
    }
  }

  /** Excluding one kind of a list without repeats removes exactly one entry
      when the kind is in the list, and none otherwise. */
  lemma {:induction false} WithoutOne(list: seq<RuleType>, x: RuleType)
    requires forall i, j :: 0 <= i < j < |list| ==> list[i] != list[j]
    ensures |Without(list, [x])| == if x in list then |list| - 1 else |list|
  {
    if list != [] {
      WithoutOne(list[1..], x);
      if list[0] == x {
        assert x !in list[1..];
      }
    }
  }

  /** The forms of the multi-segment editor exclude userInput: the other ten
      kinds are offered. */
  lemma EditorOptions()
    ensures UserInput !in Offered(Some([UserInput]))
    ensures |Offered(Some([UserInput]))| == 10
  {
    AllTypesComplete(UserInput);
    WithoutOne(AllTypes, UserInput);
  }
}
