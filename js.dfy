/** JavaScript values as they flow through the code-rule editor: setting values,
    form fields and validation data, together with the handful of coercions and
    lodash string helpers the editor relies on. Numbers are mathematical
    integers; NaN is kept as a value of its own. */
module Js {

  datatype Option<T> = None | Some(value: T)

  /** The result of a call that may throw. */
  datatype Outcome<T> = Returns(value: T) | Throws

  datatype Value =
    | Undefined
    | Null
    | Bool(b: bool)
    | Num(n: int)
    | NaN
    | Str(s: string)
    | Arr(items: seq<Value>)

  /** JavaScript truthiness (`if (v)`, `!v`, `v || d`). */
  predicate Truthy(v: Value) {
    match v
    case Undefined => false
    case Null => false
    case Bool(b) => b
    case Num(n) => n != 0
    case NaN => false
    case Str(s) => s != ""
    case Arr(_) => true
  }

  /** `v || d` */
  function Or(v: Value, d: Value): (r: Value)
    ensures Truthy(v) ==> r == v
    ensures !Truthy(v) ==> r == d
  {
    if Truthy(v) then v else d
  }

  /** `v == null`, i.e. lodash `isNil`. */
  predicate IsNil(v: Value) {
    v.Undefined? || v.Null?
  }

  /** lodash `isEmpty`: nil, booleans and numbers are empty; strings and arrays
      are empty when they have no element. */
  predicate IsEmpty(v: Value) {
    match v
    case Str(s) => s == ""
    case Arr(items) => items == []
    case _ => true
  }

  /** The UTF-16 code units a character takes: a character outside the Basic
      Multilingual Plane is a surrogate pair, every other character one unit. */
  function CodeUnits(c: char): nat {
    if c as int >= 0x1_0000 then 2 else 1
  }

  /** Every character of s lies in the Basic Multilingual Plane. */
  predicate InBmp(s: string) {
    forall i :: 0 <= i < |s| ==> s[i] as int < 0x1_0000
  }

  /** A string's `length`: its number of UTF-16 code units, so that a
      character outside the Basic Multilingual Plane counts twice. */
  function Utf16Length(s: string): (r: nat)
    ensures |s| <= r <= 2 * |s|
    ensures InBmp(s) ==> r == |s|
  {
    if s == [] then 0 else Utf16Length(s[..|s| - 1]) + CodeUnits(s[|s| - 1])
  }

  /** The `length` property: strings (in UTF-16 code units) and arrays have
      one, nothing else does. */
  function LengthOf(v: Value): (r: Option<int>)
    ensures v.Str? ==> r == Some(Utf16Length(v.s))
    ensures v.Arr? ==> r == Some(|v.items|)
    ensures !v.Str? && !v.Arr? ==> r.None?
  {
    match v
    case Str(s) => Some(Utf16Length(s))
    case Arr(items) => Some(|items|)
    case _ => None
  }

  // ---------------------------------------------------------------------------
  // Decimal digits

  predicate IsDigit(c: char) {
    '0' <= c <= '9'
  }

  predicate AllDigits(s: string) {
    forall i :: 0 <= i < |s| ==> IsDigit(s[i])
  }

  function DigitChar(d: nat): char
    requires d < 10
  {
    "0123456789"[d]
  }

  function DigitValue(c: char): nat
    requires IsDigit(c)
  {
    c as int - '0' as int
  }

  /** The value of a string of decimal digits, read left to right. */
  function DigitsValue(s: string): nat
    requires AllDigits(s)
  {
    if s == [] then 0 else DigitsValue(s[..|s| - 1]) * 10 + DigitValue(s[|s| - 1])
  }

  /** Decimal representation of a natural number, without leading zeros. */
  function NatToString(n: nat): (r: string)
    ensures |r| >= 1 && AllDigits(r)
    ensures |r| > 1 ==> r[0] != '0'
  {
    if n < 10 then [DigitChar(n)] else NatToString(n / 10) + [DigitChar(n % 10)]
  }

  /** `${n}` for an integer. */
  function IntToString(n: int): (r: string)
    ensures |r| >= 1
  {
    if n < 0 then "-" + NatToString(-n) else NatToString(n)
  }

  // ---------------------------------------------------------------------------
  // Conversions to string

  /** `${v}`: JavaScript's conversion of a value to a string. An array is its
      elements joined by ",", with null and undefined elements shown as "". */
  function ToStr(v: Value): string
    decreases v, 1, 0
  {
    match v
    case Undefined => "undefined"
    case Null => "null"
    case Bool(b) => if b then "true" else "false"
    case Num(n) => IntToString(n)
    case NaN => "NaN"
    case Str(s) => s
    case Arr(items) => JoinedItems(v, |items|)
  }

  /** The first k elements of the array v, joined by ",". */
  function JoinedItems(v: Value, k: nat): string
    requires v.Arr? && k <= |v.items|
    decreases v, 0, k
  {
    if k == 0 then ""
    else
      var item := v.items[k - 1];
      assert item in v.items;
      var shown := if IsNil(item) then "" else ToStr(item);
      if k == 1 then shown else JoinedItems(v, k - 1) + "," + shown
  }

  /** lodash `toString`: like `${v}` except that null and undefined give "". */
  function LodashToString(v: Value): string {
    if IsNil(v) then "" else ToStr(v)
  }

  // ---------------------------------------------------------------------------
  // Conversions to number

  /** The white space that `parseInt` and `Number` skip: ECMAScript's white
      space (tab, vertical tab, form feed, the byte order mark and every space
      separator) and its line terminators. */
  predicate IsSpace(c: char) {
    c == ' ' || c == '\t' || c == '\n' || c == '\r'
    || c as int == 0x0B || c as int == 0x0C || c as int == 0xA0 || c as int == 0xFEFF
    || c as int == 0x1680 || 0x2000 <= c as int <= 0x200A
    || c as int == 0x2028 || c as int == 0x2029 || c as int == 0x202F
    || c as int == 0x205F || c as int == 0x3000
  }

  function TrimStart(s: string): (r: string)
    ensures |r| <= |s|
    ensures r == s[|s| - |r|..]
    ensures r != [] ==> !IsSpace(r[0])
  {
    if s != [] && IsSpace(s[0]) then TrimStart(s[1..]) else s
  }

  function TrimEnd(s: string): (r: string)
    ensures |r| <= |s|
    ensures r == s[..|r|]
    ensures r != [] ==> !IsSpace(r[|r| - 1])
  {
    if s != [] && IsSpace(s[|s| - 1]) then TrimEnd(s[..|s| - 1]) else s
  }

  /** The longest prefix of s made of decimal digits. */
  function DigitPrefix(s: string): (r: string)
    ensures |r| <= |s| && r == s[..|r|] && AllDigits(r)
    ensures |r| < |s| ==> !IsDigit(s[|r|])
  {
    if s != [] && IsDigit(s[0]) then [s[0]] + DigitPrefix(s[1..]) else []
  }

  /** `parseInt(s, 10)`: skip leading white space, take an optional sign and the
      longest run of digits after it; no digit at all gives NaN (None). */
  function ParseInt(s: string): Option<int> {
    ParseSigned(TrimStart(s))
  }

  function ParseSigned(t: string): Option<int> {
    if t != [] && t[0] == '-' then
      match ParseDigits(t[1..])
      case None => None
      case Some(n) => Some(-n)
    else if t != [] && t[0] == '+' then ParseDigits(t[1..])
    else ParseDigits(t)
  }

  /** The value of the leading run of digits of u; None when u does not start with one. */
  function ParseDigits(u: string): Option<int> {
    var digits := DigitPrefix(u);
    if digits == [] then None else Some(DigitsValue(digits))
  }

  /** `parseInt(v, 10)` on any value (it is converted to a string first), as a value. */
  function ParseIntValue(v: Value): Value {
    match ParseInt(ToStr(v))
    case None => NaN
    case Some(n) => Num(n)
  }

  /** `Number(s)` for the strings the model gives a number: surrounding white
      space, then an optional sign and decimal digits; the empty string is 0.
      Every other string is NaN here (fractions, exponents and hexadecimal
      literals are not modelled). */
  function StringToNumber(s: string): Option<int> {
    TrimmedToNumber(TrimEnd(TrimStart(s)))
  }

  /** `Number` of a string already stripped of surrounding white space. */
  function TrimmedToNumber(t: string): Option<int> {
    if t == [] then Some(0)
    else if t[0] == '-' || t[0] == '+' then
      if |t| > 1 && AllDigits(t[1..]) then
        Some(if t[0] == '-' then -(DigitsValue(t[1..]) as int) else DigitsValue(t[1..]))
      else None
    else if AllDigits(t) then Some(DigitsValue(t))
    else None
  }

  /** `Number(v)`, None standing for NaN. An array converts through its string form. */
  function ToNumber(v: Value): Option<int> {
    match v
    case Undefined => None
    case Null => Some(0)
    case Bool(b) => Some(if b then 1 else 0)
    case Num(n) => Some(n)
    case NaN => None
    case Str(s) => StringToNumber(s)
    case Arr(_) => StringToNumber(ToStr(v))
  }

  /** lodash `toInteger`: NaN becomes 0. */
  function ToInteger(v: Value): int {
    match ToNumber(v)
    case Some(n) => n
    case None => 0
  }

  /** `v == k` (loose equality) against a number k: null and undefined equal no number. */
  predicate LooseEqualsNumber(v: Value, k: int) {
    !IsNil(v) && ToNumber(v) == Some(k)
  }

  /** String `<` on code units. */
  predicate StrLess(a: string, b: string) {
    if a == [] then b != []
    else if b == [] then false
    else if a[0] != b[0] then a[0] < b[0]
    else StrLess(a[1..], b[1..])
  }

  /** `a > b`: two strings compare as text, anything else as numbers (NaN compares false). */
  predicate Greater(a: Value, b: Value) {
    if a.Str? && b.Str? then StrLess(b.s, a.s)
    else
      match (ToNumber(a), ToNumber(b))
      case (Some(x), Some(y)) => x > y
      case _ => false
  }

  // ---------------------------------------------------------------------------
  // lodash string helpers

  /** lodash's padding: `chars` repeated and cut to exactly n characters; empty
      chars give no padding at all. */
  function Padding(n: nat, chars: string): (r: string)
    ensures chars == [] ==> r == []
    ensures chars != [] ==> |r| == n
    ensures forall i :: 0 <= i < |r| ==> r[i] == chars[i % |chars|]
  {
    if chars == [] || n == 0 then [] else Padding(n - 1, chars) + [chars[(n - 1) % |chars|]]
  }

  /** The `chars` argument of padStart/padEnd: undefined means a space. */
  function PadChars(v: Value): string {
    if v.Undefined? then " " else ToStr(v)
  }

  /** lodash `padStart(s, length, chars)`. */
  function PadStart(s: string, length: int, chars: string): (r: string)
    ensures |r| >= |s| && r[|r| - |s|..] == s
    ensures chars != [] ==> |r| == if length <= |s| then |s| else length
    ensures chars != [] ==> forall i :: 0 <= i < |r| - |s| ==> r[i] == chars[i % |chars|]
  {
    if length <= |s| then s else Padding(length - |s|, chars) + s
  }

  /** lodash `padEnd(s, length, chars)`. */
  function PadEnd(s: string, length: int, chars: string): (r: string)
    ensures |r| >= |s| && r[..|s|] == s
    ensures chars != [] ==> |r| == if length <= |s| then |s| else length
    ensures chars != [] ==> forall i :: |s| <= i < |r| ==> r[i] == chars[(i - |s|) % |chars|]
  {
    if length <= |s| then s else s + Padding(length - |s|, chars)
  }

  /** n copies of the character c. */
  function Repeat(c: char, n: nat): (r: string)
    ensures |r| == n && forall i :: 0 <= i < n ==> r[i] == c
  {
    if n == 0 then [] else Repeat(c, n - 1) + [c]
  }

  /** The `length` of a concatenation is the sum of the two lengths. */
  lemma {:induction false} Utf16LengthAppend(a: string, b: string)
    ensures Utf16Length(a + b) == Utf16Length(a) + Utf16Length(b)
  {
    if b == [] {
      assert a + b == a;
    } else {
      assert (a + b)[..|a + b| - 1] == a + b[..|b| - 1];
      Utf16LengthAppend(a, b[..|b| - 1]);
    }
  }

  /** n copies of one character take n times its code units. */
  lemma {:induction false} Utf16LengthRepeat(c: char, n: nat)
    ensures Utf16Length(Repeat(c, n)) == if c as int >= 0x1_0000 then n + n else n
  {
    if n > 0 {
      Utf16LengthRepeat(c, n - 1);
      assert Repeat(c, n)[..n - 1] == Repeat(c, n - 1);
    }
  }

  /** Padding at the start with one character is a run of that character. */
  lemma PadStartOneChar(s: string, length: int, c: char)
    ensures PadStart(s, length, [c]) == Repeat(c, if length <= |s| then 0 else length - |s|) + s
  {
    var r := PadStart(s, length, [c]);
    var expected := Repeat(c, if length <= |s| then 0 else length - |s|) + s;
    assert |r| == |expected|;
    forall i | 0 <= i < |r|
      ensures r[i] == expected[i]
    {
      if i < |r| - |s| {
        assert r[i] == [c][i % 1];
      } else {
        assert r[i] == r[|r| - |s|..][i - (|r| - |s|)];
      }
    }
  }

  /** Padding at the end with one character is a run of that character. */
  lemma PadEndOneChar(s: string, length: int, c: char)
    ensures PadEnd(s, length, [c]) == s + Repeat(c, if length <= |s| then 0 else length - |s|)
  {
    var r := PadEnd(s, length, [c]);
    var expected := s + Repeat(c, if length <= |s| then 0 else length - |s|);
    assert |r| == |expected|;
    forall i | 0 <= i < |r|
      ensures r[i] == expected[i]
    {
      if i >= |s| {
        assert r[i] == [c][(i - |s|) % 1];
      } else {
        assert r[i] == r[..|s|][i];
      }
    }
  }

  /** lodash `last` on a string: its last character as a string, or undefined. */
  function Last(s: string): (r: Value)
    ensures s == [] <==> r.Undefined?
    ensures s != [] ==> r == Str([s[|s| - 1]])
  {
    if s == [] then Undefined else Str([s[|s| - 1]])
  }

  function Max(a: int, b: int): int {
    if a >= b then a else b
  }

  /** 10 to the power k. */
  function Pow10(k: nat): (r: nat)
    ensures r >= 1
  {
    if k == 0 then 1 else 10 * Pow10(k - 1)
  }

  // ---------------------------------------------------------------------------
  // Lemmas

  lemma {:induction false} DigitsValueAppend(s: string, c: char)
    requires AllDigits(s) && IsDigit(c)
    ensures AllDigits(s + [c]) && DigitsValue(s + [c]) == DigitsValue(s) * 10 + DigitValue(c)
  {
    assert (s + [c])[..|s + [c]| - 1] == s;
  }

  /** Reading back the digits of n gives n. */
  lemma {:induction false} DigitsValueOfNatToString(n: nat)
    ensures DigitsValue(NatToString(n)) == n
  {
    if n >= 10 {
      DigitsValueOfNatToString(n / 10);
      DigitsValueAppend(NatToString(n / 10), DigitChar(n % 10));
    }
  }

  /** Leading zeros do not change the value of a digit string. */
  lemma {:induction false} DigitsValueLeadingZeros(k: nat, s: string)
    requires AllDigits(s)
    ensures AllDigits(Repeat('0', k) + s) && DigitsValue(Repeat('0', k) + s) == DigitsValue(s)
  {
    var z := Repeat('0', k);
    if s == [] {
      assert z + s == z;
      AllZerosValue(k);
    } else {
      var init := s[..|s| - 1];
      DigitsValueLeadingZeros(k, init);
      assert z + s == (z + init) + [s[|s| - 1]];
      DigitsValueAppend(z + init, s[|s| - 1]);
      assert s == init + [s[|s| - 1]];
      DigitsValueAppend(init, s[|s| - 1]);
    }
  }

  lemma {:induction false} AllZerosValue(k: nat)
    ensures AllDigits(Repeat('0', k)) && DigitsValue(Repeat('0', k)) == 0
  {
    if k > 0 {
      AllZerosValue(k - 1);
      DigitsValueAppend(Repeat('0', k - 1), '0');
    }
  }

  lemma {:induction false} DigitPrefixOfDigits(s: string)
    requires AllDigits(s)
    ensures DigitPrefix(s) == s
  {
    if s != [] {
      DigitPrefixOfDigits(s[1..]);
    }
  }

  /** `parseInt` of a string of digits is its decimal value. */
  lemma ParseIntOfDigits(s: string)
    requires s != [] && AllDigits(s)
    ensures ParseInt(s) == Some(DigitsValue(s))
  {
    assert !IsSpace(s[0]);
    DigitPrefixOfDigits(s);
  }

  /** `parseInt(String(n), 10) == n`: integers survive a trip through their
      string form, which is what re-reading a stringified setting relies on. */
  lemma ParseIntOfIntToString(n: int)
    ensures ParseInt(IntToString(n)) == Some(n)
  {
    if n < 0 {
      ParseIntOfNegativeString(-n, IntToString(n));
    } else {
      ParseIntOfNatString(n, IntToString(n));
    }
  }

  lemma ParseIntOfNatString(n: nat, s: string)
    requires s == IntToString(n)
    ensures ParseInt(s) == Some(n)
  {
    assert s == NatToString(n);
    DigitsValueOfNatToString(n);
    ParseIntOfDigitsValue(s, n);
  }

  lemma ParseIntOfNegativeString(k: nat, s: string)
    requires k > 0 && s == "-" + NatToString(k)
    ensures ParseInt(s) == Some(-(k as int))
  {
    DigitsValueOfNatToString(k);
    ParseIntOfNegativeDigits(NatToString(k), k);
  }

  /** `parseInt` of digits worth k is k. */
  lemma ParseIntOfDigitsValue(d: string, k: nat)
    requires d != [] && AllDigits(d) && DigitsValue(d) == k
    ensures ParseInt(d) == Some(k)
  {
    ParseIntOfDigits(d);
  }

  /** `parseInt` of a minus sign and digits worth k is -k. */
  lemma ParseIntOfNegativeDigits(d: string, k: nat)
    requires d != [] && AllDigits(d) && DigitsValue(d) == k
    ensures ParseInt("-" + d) == Some(-(k as int))
  {
    var t := "-" + d;
    assert TrimStart(t) == t by {
      assert t[0] == '-' && !IsSpace('-');
    }
    ParseDigitsOfDigits(d);
    ParseSignedNegative(t, d, k);
  }

  lemma ParseDigitsOfDigits(d: string)
    requires d != [] && AllDigits(d)
    ensures ParseDigits(d) == Some(DigitsValue(d))
  {
    DigitPrefixOfDigits(d);
  }

  lemma ParseSignedNegative(t: string, d: string, v: int)
    requires t == "-" + d
    requires ParseDigits(d) == Some(v)
    ensures ParseSigned(t) == Some(-v)
  {
    assert t != [] && t[0] == '-' && t[1..] == d;
  }

  /** parseInt of an integer-valued number is that number. */
  lemma ParseIntValueOfNum(n: int)
    ensures ParseIntValue(Num(n)) == Num(n)
  {
    ParseIntOfIntToString(n);
  }

  /** `Number(String(n)) == n`. */
  lemma ToNumberOfIntToString(n: int)
    ensures ToNumber(Str(IntToString(n))) == Some(n)
  {
    if n < 0 {
      StringToNumberOfNegativeString(-n, IntToString(n));
    } else {
      StringToNumberOfNatString(n, IntToString(n));
    }
  }

  lemma StringToNumberOfNatString(k: nat, s: string)
    requires s == NatToString(k)
    ensures StringToNumber(s) == Some(k)
  {
    DigitsValueOfNatToString(k);
    StringToNumberOfDigits(s, k);
  }

  lemma StringToNumberOfNegativeString(k: nat, s: string)
    requires k > 0 && s == "-" + NatToString(k)
    ensures StringToNumber(s) == Some(-(k as int))
  {
    DigitsValueOfNatToString(k);
    StringToNumberOfNegative(NatToString(k), k);
  }

  /** A string with no white space at either end is its own trimmed form. */
  lemma Untrimmed(s: string)
    requires s != [] && !IsSpace(s[0]) && !IsSpace(s[|s| - 1])
    ensures TrimEnd(TrimStart(s)) == s
  {
    assert TrimStart(s) == s;
    assert TrimEnd(s) == s;
  }

  lemma StringToNumberOfDigits(d: string, k: nat)
    requires d != [] && AllDigits(d) && DigitsValue(d) == k
    ensures StringToNumber(d) == Some(k)
  {
    Untrimmed(d);
    TrimmedDigits(d, k);
  }

  lemma StringToNumberOfNegative(d: string, k: nat)
    requires d != [] && AllDigits(d) && DigitsValue(d) == k
    ensures StringToNumber("-" + d) == Some(-(k as int))
  {
    var t := "-" + d;
    assert IsDigit(d[|d| - 1]) && t[|t| - 1] == d[|d| - 1];
    Untrimmed(t);
    TrimmedNegative(t, d, k);
  }

  lemma TrimmedDigits(d: string, k: nat)
    requires d != [] && AllDigits(d) && DigitsValue(d) == k
    ensures TrimmedToNumber(d) == Some(k)
  {
    assert IsDigit(d[0]);
  }

  lemma TrimmedNegative(t: string, d: string, k: nat)
    requires d != [] && AllDigits(d) && DigitsValue(d) == k && t == "-" + d
    ensures TrimmedToNumber(t) == Some(-(k as int))
  {
    assert t[1..] == d;
  }

  /** Zero padding a string of digits keeps its value: `parseInt` reads the
      padded string back as the same number. */
  lemma ZeroPaddedDigits(s: string, length: int, k: nat)
    requires s != [] && AllDigits(s) && DigitsValue(s) == k
    ensures AllDigits(PadStart(s, length, "0"))
    ensures ParseInt(PadStart(s, length, "0")) == Some(k)
  {
    var r := PadStart(s, length, "0");
    if length > |s| {
      var z := length - |s|;
      var p := Padding(z, "0");
      assert p == Repeat('0', z);
      DigitsValueLeadingZeros(z, s);
      assert r == Repeat('0', z) + s;
    }
    ParseIntOfDigits(r);
  }

  /** A number below 10^w has at most w digits. */
  lemma {:induction false} NatToStringShort(n: nat, w: nat)
    requires w >= 1 && n < Pow10(w)
    ensures |NatToString(n)| <= w
  {
    if n >= 10 {
      assert Pow10(1) == 10;
      NatToStringShort(n / 10, w - 1);
    }
  }

  /** A natural number zero-padded to width w: all digits, at least w wide,
      exactly w wide when the number fits, and read back as the number. */
  lemma ZeroPaddedWidth(n: nat, length: int)
    ensures var r := PadStart(NatToString(n), length, "0");
      && AllDigits(r)
      && ParseInt(r) == Some(n)
      && |r| == Max(length, |NatToString(n)|)
  {
    DigitsValueOfNatToString(n);
    ZeroPaddedDigits(NatToString(n), length, n);
  }

  lemma ZeroPaddedNat(n: nat, w: nat)
    requires w >= 1
    ensures var r := PadStart(NatToString(n), w, "0");
      && AllDigits(r)
      && ParseInt(r) == Some(n)
      && |r| == Max(w, |NatToString(n)|)
      && (n < Pow10(w) ==> |r| == w)
  {
    ZeroPaddedWidth(n, w);
    if n < Pow10(w) {
      NatToStringShort(n, w);
    }
  }
}
