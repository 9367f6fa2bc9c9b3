/** Exact addition and subtraction through decimal.js. Operands are read after
    `num || 0`, so every falsy operand counts as 0. decimal.js accepts numbers
    and numeric strings and throws on anything else; a throw is `None` here. */
module NumberCalculator {
  import opened Js

  /** A decimal integer literal as decimal.js reads it: an optional sign, then
      one or more digits, with no surrounding white space. */
  function DecimalLiteral(s: string): (r: Option<int>)
    ensures AllDigits(s) && s != [] ==> r == Some(DigitsValue(s) as int)
  {
    var signed := s != [] && (s[0] == '-' || s[0] == '+');
    var digits := if signed then s[1..] else s;
    if digits == [] || !AllDigits(digits) then None
    else if s[0] == '-' then Some(-(DigitsValue(digits) as int))
    else Some(DigitsValue(digits))
  }

  /** The number decimal.js makes of `num || 0`; None when it throws. */
  function Operand(v: Value): (r: Option<int>)
    ensures !Truthy(v) ==> r == Some(0)
    ensures v.Num? ==> r == Some(v.n)
  {
    if !Truthy(v) then Some(0)
    else
      match v
      case Num(n) => Some(n)
      case Str(s) => DecimalLiteral(s)
      case _ => None
  }

  /** The value `decimalSum(...args)` returns: the operands added left to right
      from 0; None when one of them makes decimal.js throw. */
  function Sum(args: seq<Value>): Option<int> {
    if args == [] then Some(0) else Plus(Sum(args[..|args| - 1]), Operand(args[|args| - 1]))
  }

  /** Adding two partial results: a throw on either side is a throw. */
  function Plus(x: Option<int>, y: Option<int>): (r: Option<int>)
    ensures r.Some? <==> x.Some? && y.Some?
    ensures r.Some? ==> r.value == x.value + y.value
  {
    if x.Some? && y.Some? then Some(x.value + y.value) else None
  }

  /** `decimalSum(...args)`: the `forEach` loop reassigning `sum`. */
  method DecimalSum(args: seq<Value>) returns (sum: Option<int>)
    ensures sum == Sum(args)
  {
    var total := 0;
    var i := 0;
    while i < |args|
      invariant 0 <= i <= |args|
      invariant Sum(args[..i]) == Some(total)
    {
      SumStep(args, i);
      match Operand(args[i]) {
        case None =>
          SumAfterThrow(args, i + 1);
          return None;
        case Some(y) =>
          total := total + y;
      }
      i := i + 1;
    }
    assert args[..i] == args;
    sum := Some(total);
  }

  /** `decimalMinus(x, y)`: x - y, a falsy operand counting as 0. */
  function DecimalMinus(x: Value, y: Value): (r: Option<int>)
    ensures x.Num? && y.Num? ==> r == Some(x.n - y.n)
    ensures !Truthy(y) ==> r == Operand(x)
    ensures r.Some? <==> Operand(x).Some? && Operand(y).Some?
  {
    match (Operand(x), Operand(y))
    case (Some(a), Some(b)) => Some(a - b)
    case _ => None
  }

  // ---------------------------------------------------------------------------
  // Lemmas

  /** Summing a concatenation adds the two sums; a throw anywhere makes the whole
      sum throw. */
  lemma {:induction false} SumAppend(a: seq<Value>, b: seq<Value>)
    ensures Sum(a + b) == Plus(Sum(a), Sum(b))
  {
    if b == [] {
      assert a + b == a;
    } else {
      var init, last := b[..|b| - 1], b[|b| - 1];
      assert (a + b)[..|a + b| - 1] == a + init;
      assert (a + b)[|a + b| - 1] == last;
      SumAppend(a, init);
      PlusAssociates(Sum(a), Sum(init), Operand(last));
    }
  }

  /** The sum of one more argument. */
  lemma SumStep(args: seq<Value>, i: int)
    requires 0 <= i < |args|
    ensures Sum(args[..i + 1]) == Plus(Sum(args[..i]), Operand(args[i]))
  {
    assert args[..i + 1][..i] == args[..i];
  }

  /** Once a prefix throws, the whole sum throws. */
  lemma SumAfterThrow(args: seq<Value>, i: int)
    requires 0 <= i <= |args| && Sum(args[..i]) == None
    ensures Sum(args) == None
  {
    SumAppend(args[..i], args[i..]);
    assert args[..i] + args[i..] == args;
  }

  lemma PlusAssociates(x: Option<int>, y: Option<int>, z: Option<int>)
    ensures Plus(Plus(x, y), z) == Plus(x, Plus(y, z))
  {
  }

  /** `decimalSum(a, b)` is exactly a + b for integers. */
  lemma SumOfTwo(a: int, b: int)
    ensures Sum([Num(a), Num(b)]) == Some(a + b)
  {
    assert [Num(a), Num(b)][..1] == [Num(a)];
    assert [Num(a)][..0] == [];
    assert Sum([Num(a)]) == Some(a);
  }

  /** A null, undefined, zero or empty-string argument adds nothing, wherever it stands. */
  lemma FalsyAddsNothing(a: seq<Value>, v: Value, b: seq<Value>)
    requires !Truthy(v)
    ensures Sum(a + [v] + b) == Sum(a + b)
  {
    SumAppend(a, [v]);
    SumAppend(a + [v], b);
    SumAppend(a, b);
    assert [v][..0] == [];
  }

  /** The arithmetic total of a list of numbers, added right to left. */
  function Total(args: seq<Value>): int
    requires forall i :: 0 <= i < |args| ==> args[i].Num?
  {
    if args == [] then 0 else args[0].n + Total(args[1..])
  }

  /** A sum of numbers never throws and equals their arithmetic total. */
  lemma {:induction false} SumOfNumbers(args: seq<Value>)
    requires forall i :: 0 <= i < |args| ==> args[i].Num?
    ensures Sum(args) == Some(Total(args))
  {
    if args != [] {
      SumAppend([args[0]], args[1..]);
      assert [args[0]] + args[1..] == args;
      SumOfNumbers(args[1..]);
      assert [args[0]][..0] == [];
    }
  }
}
