/**
 * JSON values as the JsonPath library hands them to Java code, together with the two
 * conversions the test suite applies to them: `Object.toString()` and `Integer.valueOf(String)`.
 */
module Json {
  import opened Wrappers

  /**
   * A parsed JSON value. `Null` stands both for a JSON `null` and for the Java `null`
   * reference that a missing key or a missing node yields: JsonPath turns the one into
   * the other, so the code under model cannot tell them apart either.
   */
  datatype Value =
    | Null
    | Bool(b: bool)
    | Num(n: int)
    | Str(s: string)
    | Arr(items: seq<Value>)
    | Obj(fields: map<string, Value>)

  /** A JSON object as a Java `Map<String, Object>`. */
  type Record = map<string, Value>

  /** `map.get(key)`: the value stored under `key`, or null when the key is absent. */
  function Get(r: Record, key: string): Value {
    if key in r then r[key] else Null
  }

  /** One step of a JsonPath/GPath path: the member `key` of an object; null for anything else. */
  function Lookup(node: Value, key: string): Value {
    if node.Obj? then Get(node.fields, key) else Null
  }

  /** A dotted JsonPath path such as `Results.requisitionList`, followed key by key. */
  function NodeAt(node: Value, path: seq<string>): Value
    decreases |path|
  {
    if path == [] then node else NodeAt(Lookup(node, path[0]), path[1..])
  }

  // ---------------------------------------------------------------------------
  // Decimal text of integers, as Integer.toString / Long.toString write it
  // ---------------------------------------------------------------------------

  const MinInteger: int := -0x8000_0000
  const MaxInteger: int := 0x7fff_ffff

  /** The range of a Java `int`, which `Integer.valueOf` accepts. */
  predicate IsInteger(n: int) {
    MinInteger <= n <= MaxInteger
  }

  predicate IsDigit(c: char) {
    '0' <= c <= '9'
  }

  predicate AllDigits(s: string) {
    forall i :: 0 <= i < |s| ==> IsDigit(s[i])
  }

  function DigitChar(d: nat): (c: char)
    requires d < 10
    ensures IsDigit(c)
  {
    (('0' as int) + d) as char
  }

  function DigitValue(c: char): nat
    requires IsDigit(c)
  {
    (c as int) - ('0' as int)
  }

  /** The value of a string of decimal digits, most significant first. */
  function DigitsValue(s: string): nat
    requires AllDigits(s)
  {
    if s == [] then 0 else DigitsValue(s[..|s| - 1]) * 10 + DigitValue(s[|s| - 1])
  }

  /** The decimal digits of a natural number, without leading zeros. */
  function NatText(n: nat): (s: string)
    ensures |s| > 0 && AllDigits(s)
    decreases n
  {
    if n < 10 then [DigitChar(n)] else NatText(n / 10) + [DigitChar(n % 10)]
  }

  /** `Integer.toString(n)` (and `Long.toString(n)`): a minus sign for negatives, then the digits. */
  function IntText(n: int): string {
    if n < 0 then "-" + NatText(-n) else NatText(n)
  }

  /**
   * `Object.toString()` on what JsonPath returns. Lists and maps are rendered by their
   * brackets only: the code under model never compares or parses their text, and no
   * rendering that starts with a bracket can equal a number's text.
   */
  function Text(v: Value): (t: string)
    ensures v.Num? ==> |t| > 0 && (t[0] == '-' || IsDigit(t[0]))
    ensures v.Arr? || v.Obj? ==> |t| > 0 && (t[0] == '[' || t[0] == '{')
    ensures v.Str? ==> t == v.s
  {
    match v
    case Null => "null"
    case Bool(b) => if b then "true" else "false"
    case Num(n) => IntText(n)
    case Str(s) => s
    case Arr(_) => "[...]"
    case Obj(_) => "{...}"
  }

  /** `jsonPath().getString(key)` on the document root: null when absent, otherwise the value's text. */
  function GetString(doc: Value, key: string): (r: Option<string>)
    ensures r.None? <==> Lookup(doc, key).Null?
    ensures Lookup(doc, key).Str? ==> r == Some(Lookup(doc, key).s)
  {
    var v := Lookup(doc, key);
    if v.Null? then None else Some(Text(v))
  }

  /**
   * The first code point of each run of ten decimal digits (Unicode general category Nd) in
   * the Basic Multilingual Plane, as of Unicode 7.0, ASCII first. `Integer.valueOf` reads its
   * argument one UTF-16 unit at a time through `Character.digit(ch, 10)`, so a digit outside
   * this plane arrives as two surrogates, neither of which is a digit.
   */
  const DecimalZeros: seq<int> := [
    0x0030, 0x0660, 0x06F0, 0x07C0, 0x0966, 0x09E6, 0x0A66, 0x0AE6, 0x0B66, 0x0BE6,
    0x0C66, 0x0CE6, 0x0D66, 0x0DE6, 0x0E50, 0x0ED0, 0x0F20, 0x1040, 0x1090, 0x17E0,
    0x1810, 0x1946, 0x19D0, 0x1A80, 0x1A90, 0x1B50, 0x1BB0, 0x1C40, 0x1C50, 0xA620,
    0xA8D0, 0xA900, 0xA9D0, 0xA9F0, 0xAA50, 0xABF0, 0xFF10
  ]

  /**
   * `Character.digit(c, 10)` when the runs of ten decimal digits start at `zeros`: the value
   * of `c` within its run, `None` where Java gives -1.
   */
  function DigitFrom(c: char, zeros: seq<int>): (d: Option<nat>)
    ensures d.Some? ==> d.value < 10
    ensures |zeros| > 0 && zeros[0] == '0' as int && IsDigit(c) ==> d == Some(DigitValue(c))
  {
    if zeros == [] then None
    else if zeros[0] <= c as int < zeros[0] + 10 then Some(c as int - zeros[0])
    else DigitFrom(c, zeros[1..])
  }

  /** A digit read is the character's distance from the zero of a run. */
  lemma {:induction false} DigitInRun(c: char, zeros: seq<int>)
    ensures DigitFrom(c, zeros).Some? ==> c as int - DigitFrom(c, zeros).value in zeros
  {
    if zeros != [] && !(zeros[0] <= c as int < zeros[0] + 10) {
      DigitInRun(c, zeros[1..]);
    }
  }

  /** A character in no run is not a digit. */
  lemma {:induction false} OutsideEveryRun(c: char, zeros: seq<int>)
    requires forall k :: 0 <= k < |zeros| ==> !(zeros[k] <= c as int < zeros[k] + 10)
    ensures DigitFrom(c, zeros).None?
  {
    if zeros != [] {
      assert forall k :: 0 <= k < |zeros| - 1 ==> zeros[1..][k] == zeros[k + 1];
      OutsideEveryRun(c, zeros[1..]);
    }
  }

  /** Every character of every run is a digit. */
  lemma {:induction false} EveryRunReads(zeros: seq<int>, k: nat, c: char)
    requires k < |zeros| && zeros[k] <= c as int < zeros[k] + 10
    ensures DigitFrom(c, zeros).Some?
  {
    if k > 0 && !(zeros[0] <= c as int < zeros[0] + 10) {
      EveryRunReads(zeros[1..], k - 1, c);
    }
  }

  /** The value of a string of decimal digits, or `None` when one of them is not a digit of `zeros`. */
  function DecimalValue(s: string, zeros: seq<int>): (r: Option<nat>)
    ensures |zeros| > 0 && zeros[0] == '0' as int && AllDigits(s) ==> r == Some(DigitsValue(s))
  {
    if s == [] then Some(0)
    else
      var prefix, last := s[..|s| - 1], s[|s| - 1];
      assert AllDigits(s) ==> AllDigits(prefix) by {
        assert forall i :: 0 <= i < |prefix| ==> prefix[i] == s[i];
      }
      match (DecimalValue(prefix, zeros), DigitFrom(last, zeros))
      case (Some(v), Some(d)) => Some(v * 10 + d)
      case _ => None
  }

  /** A string has a value exactly when every one of its characters is a digit. */
  lemma {:induction false} DecimalValueDefined(s: string, zeros: seq<int>)
    ensures DecimalValue(s, zeros).Some? <==> forall i :: 0 <= i < |s| ==> DigitFrom(s[i], zeros).Some?
  {
    if s != [] {
      var prefix := s[..|s| - 1];
      DecimalValueDefined(prefix, zeros);
      assert forall i :: 0 <= i < |prefix| ==> prefix[i] == s[i];
    }
  }

  /** `Character.digit(c, 10)` accepts a decimal digit of every listed script. */
  lemma DecimalDigitOfEveryScript(k: nat, c: char)
    requires k < |DecimalZeros| && DecimalZeros[k] <= c as int < DecimalZeros[k] + 10
    ensures DigitFrom(c, DecimalZeros).Some?
  {
    EveryRunReads(DecimalZeros, k, c);
  }

  /** The text after an optional leading ASCII sign. */
  function Unsigned(s: string): (d: string)
    ensures |d| <= |s| && (|d| == |s| || s[0] == '+' || s[0] == '-')
  {
    if |s| > 0 && (s[0] == '-' || s[0] == '+') then s[1..] else s
  }

  /** The magnitude `m` with the sign the text starts with. */
  function Signed(s: string, m: nat): int {
    if |s| > 0 && s[0] == '-' then -(m as int) else m
  }

  /**
   * `Integer.valueOf(s)`: an optional ASCII sign followed by at least one decimal digit, whose
   * value fits a Java `int`; `None` where Java throws NumberFormatException.
   */
  function ParseInteger(s: string): (r: Option<int>)
    ensures r.Some? ==> IsInteger(r.value)
    ensures r.Some? ==> |Unsigned(s)| > 0 && DecimalValue(Unsigned(s), DecimalZeros).Some?
    ensures r.Some? ==> r.value == Signed(s, DecimalValue(Unsigned(s), DecimalZeros).value)
  {
    if |s| == 0 then None
    else
      var negative := s[0] == '-';
      var digits := if s[0] == '-' || s[0] == '+' then s[1..] else s;
      if |digits| == 0 then None
      else match DecimalValue(digits, DecimalZeros)
        case None => None
        case Some(m) =>
          var v: int := if negative then -(m as int) else m;
          if IsInteger(v) then Some(v) else None
  }

  // ---------------------------------------------------------------------------
  // Properties
  // ---------------------------------------------------------------------------

  /**
   * `Integer.valueOf` succeeds exactly on a sign-optional run of one or more digits whose
   * value fits a Java `int`: any other character, or no digit at all, makes it throw.
   */
  lemma ParseIntegerAccepts(s: string)
    ensures ParseInteger(s).Some? <==>
      && |Unsigned(s)| > 0
      && (forall i :: 0 <= i < |Unsigned(s)| ==> DigitFrom(Unsigned(s)[i], DecimalZeros).Some?)
      && DecimalValue(Unsigned(s), DecimalZeros).Some?
      && IsInteger(Signed(s, DecimalValue(Unsigned(s), DecimalZeros).value))
  {
    DecimalValueDefined(Unsigned(s), DecimalZeros);
  }

  /** A sign alone, or nothing, is not a number. */
  lemma SignAloneFails()
    ensures ParseInteger("") == None && ParseInteger("+") == None && ParseInteger("-") == None
  {
    assert Unsigned("+") == [] && Unsigned("-") == [];
  }

  /** Any character that is not a digit, after the optional sign, makes the parse fail. */
  lemma NonDigitFails(s: string, i: nat)
    requires i < |Unsigned(s)| && DigitFrom(Unsigned(s)[i], DecimalZeros).None?
    ensures ParseInteger(s) == None
  {
    ParseIntegerAccepts(s);
  }

  /** A trailing character that is no digit (nor a sign) makes the parse fail, whatever precedes it. */
  lemma TrailingNonDigitFails(s: string, c: char)
    requires c != '-' && c != '+' && DigitFrom(c, DecimalZeros).None?
    ensures ParseInteger(s + [c]) == None
  {
    var t := s + [c];
    assert t[|t| - 1] == c;
    UnsignedKeepsLast(t);
    NonDigitFails(t, |Unsigned(t)| - 1);
  }

  /** "12a" is not a number: a trailing letter makes the parse fail. */
  lemma TrailingLetterFails(s: string)
    ensures ParseInteger(s + "a") == None
  {
    LetterIsNoDigit();
    TrailingNonDigitFails(s, 'a');
  }

  /** Dropping the sign keeps the last character, unless that character is the sign itself. */
  lemma UnsignedKeepsLast(t: string)
    requires |t| > 0 && t[|t| - 1] != '-' && t[|t| - 1] != '+'
    ensures |Unsigned(t)| > 0 && Unsigned(t)[|Unsigned(t)| - 1] == t[|t| - 1]
  {
    if t[0] == '-' || t[0] == '+' {
      assert Unsigned(t) == t[1..];
    }
  }

  /** 'a' lies in no run of decimal digits. */
  lemma LetterIsNoDigit()
    ensures DigitFrom('a', DecimalZeros).None?
  {
    assert forall k :: 0 <= k < |DecimalZeros| ==> !(DecimalZeros[k] <= 'a' as int < DecimalZeros[k] + 10);
    OutsideEveryRun('a', DecimalZeros);
  }

  /** The digits of `n` read back as `n`. */
  lemma {:induction false} NatTextValue(n: nat)
    ensures DigitsValue(NatText(n)) == n
    decreases n
  {
    var s := NatText(n);
    if n < 10 {
      assert s[..|s| - 1] == [];
    } else {
      NatTextValue(n / 10);
      assert s[..|s| - 1] == NatText(n / 10);
    }
  }

  /**
   * `Integer.valueOf(Integer.toString(n))` gives back `n` for every Java `int`: the
   * parse never throws and never changes the value. The decimal text of an integer
   * outside that range is refused.
   */
  lemma IntegerTextRoundTrip(n: int)
    ensures ParseInteger(IntText(n)) == if IsInteger(n) then Some(n) else None
  {
    assert DecimalZeros[0] == '0' as int;
    NatTextValue(if n < 0 then -n else n);
    if n < 0 {
      assert IntText(n)[1..] == NatText(-n);
    }
  }

  /** A character in the second run, and not in the first, reads as its place in the second run. */
  lemma SecondRunDigit(c: char, zeros: seq<int>)
    requires |zeros| > 1 && !(zeros[0] <= c as int < zeros[0] + 10)
    requires zeros[1] <= c as int < zeros[1] + 10
    ensures DigitFrom(c, zeros) == Some(c as int - zeros[1])
  {
    assert zeros[1..][0] == zeros[1];
  }

  /** Two digits read as the first one's tens and the second one's units. */
  lemma TwoDigitValue(s: string, zeros: seq<int>, d0: nat, d1: nat)
    requires |s| == 2 && DigitFrom(s[0], zeros) == Some(d0) && DigitFrom(s[1], zeros) == Some(d1)
    ensures DecimalValue(s, zeros) == Some(d0 * 10 + d1)
  {
    assert s[..1][..0] == [];
    assert s[..1][0] == s[0];
    assert DecimalValue(s[..1], zeros) == Some(d0);
  }

  /** Without a sign, the whole text is the digits. */
  lemma UnsignedParse(s: string, m: nat)
    requires |s| > 0 && s[0] != '-' && s[0] != '+'
    requires DecimalValue(s, DecimalZeros) == Some(m) && IsInteger(m)
    ensures ParseInteger(s) == Some(m)
  { }

  /** Arabic-Indic digits read as their values: U+0661 U+0662 is twelve. */
  lemma ArabicIndicDigitsRead()
    ensures ParseInteger("\U{0661}\U{0662}") == Some(12)
  {
    var s := "\U{0661}\U{0662}";
    assert DecimalValue(s, DecimalZeros) == Some(12) by {
      var zeros := DecimalZeros;
      assert zeros[0] == 0x0030 && zeros[1] == 0x0660;
      SecondRunDigit(s[0], zeros);
      SecondRunDigit(s[1], zeros);
      TwoDigitValue(s, zeros, 1, 2);
    }
    UnsignedParse(s, 12);
  }

  /** The sign and digits read back from the text of any integer, in or out of `int` range. */
  function SignedValue(s: string): int
    requires |s| > 0 && (AllDigits(s) || (s[0] == '-' && AllDigits(s[1..])))
  {
    if s[0] == '-' then -(DigitsValue(s[1..]) as int) else DigitsValue(s)
  }

  /** Different integers have different decimal texts. */
  lemma IntTextInjective(m: int, n: int)
    requires IntText(m) == IntText(n)
    ensures m == n
  {
    assert SignedValue(IntText(m)) == m by {
      NatTextValue(if m < 0 then -m else m);
      if m < 0 { assert IntText(m)[1..] == NatText(-m); }
    }
    assert SignedValue(IntText(n)) == n by {
      NatTextValue(if n < 0 then -n else n);
      if n < 0 { assert IntText(n)[1..] == NatText(-n); }
    }
  }

  /** The text of a number equals the text of the integer `k` exactly when the number is `k`. */
  lemma NumberTextMatches(n: int, k: int)
    ensures Text(Num(n)) == IntText(k) <==> n == k
  {
    if Text(Num(n)) == IntText(k) {
      IntTextInjective(n, k);
    }
  }
}
