/** Character classes, ASCII lower-casing and decimal numbers: the parts of
    Go's `regexp`, `strings.ToLower` and `strconv.Atoi` that the field rules
    rely on. */
module Text {
  import opened Wrappers

  /** The two Perl classes the patterns use, in their ASCII meaning. */
  datatype CharClass = Digit | Word

  predicate IsDigit(c: char) { '0' <= c <= '9' }

  predicate InClass(k: CharClass, c: char)
  {
    match k
    case Digit => IsDigit(c)
    case Word => IsDigit(c) || 'a' <= c <= 'z' || 'A' <= c <= 'Z' || c == '_'
  }

  predicate AllIn(k: CharClass, s: string)
  {
    forall j | 0 <= j < |s| :: InClass(k, s[j])
  }

  predicate AllDigits(s: string) { AllIn(Digit, s) }

  /** End of the longest run of class-k characters that starts at i: where a
      greedy `\d+` or `\w+` started at i stops. */
  function RunEnd(k: CharClass, s: string, i: nat): (e: nat)
    requires i <= |s|
    ensures i <= e <= |s|
    ensures AllIn(k, s[i..e])
    ensures e == |s| || !InClass(k, s[e])
    decreases |s| - i
  {
    if i < |s| && InClass(k, s[i]) then
      var e := RunEnd(k, s, i + 1);
      assert forall j | 0 < j < e - i :: s[i..e][j] == s[i + 1..e][j - 1];
      e
    else i
  }

  /** A run of class-k characters that ends at a character outside the class
      (or at the end) ends exactly where RunEnd says: the greedy run is the
      only one. */
  lemma {:induction false} RunEndUnique(k: CharClass, s: string, i: nat, e: nat)
    requires i <= e <= |s|
    requires AllIn(k, s[i..e])
    requires e == |s| || !InClass(k, s[e])
    ensures RunEnd(k, s, i) == e
    decreases e - i
  {
    if i < e {
      assert s[i..e][0] == s[i];
      RunEndUnique(k, s, i + 1, e);
    }
  }

  // ----- strings.ToLower, ASCII part -----

  function LowerChar(c: char): char
  {
    if 'A' <= c <= 'Z' then (c as int - 'A' as int + 'a' as int) as char else c
  }

  predicate HasNoUpper(s: string)
  {
    forall j | 0 <= j < |s| :: !('A' <= s[j] <= 'Z')
  }

  /** Lower-cases each ASCII letter and keeps every other character. */
  function ToLower(s: string): (r: string)
    ensures |r| == |s|
    ensures forall j | 0 <= j < |s| :: r[j] == LowerChar(s[j])
    ensures HasNoUpper(r)
  {
    if s == [] then [] else [LowerChar(s[0])] + ToLower(s[1..])
  }

  /** Lower-casing twice is lower-casing once. */
  lemma ToLowerIdempotent(s: string)
    ensures ToLower(ToLower(s)) == ToLower(s)
  {
  }

  // ----- decimal numbers -----

  function DigitValue(c: char): nat
    requires IsDigit(c)
  {
    c as int - '0' as int
  }

  /** The number a string of decimal digits denotes. */
  function DigitsValue(s: string): nat
    requires AllDigits(s)
    decreases |s|
  {
    if s == [] then 0 else DigitsValue(s[..|s| - 1]) * 10 + DigitValue(s[|s| - 1])
  }

  function Pow10(n: nat): nat
  {
    if n == 0 then 1 else 10 * Pow10(n - 1)
  }

  /** An n-digit string denotes less than 10^n, and at least 10^(n-1) when
      it does not start with a zero. */
  lemma {:induction false} DigitsValueBounds(s: string)
    requires 0 < |s| && AllDigits(s)
    ensures DigitsValue(s) < Pow10(|s|)
    ensures s[0] != '0' ==> Pow10(|s| - 1) <= DigitsValue(s)
    decreases |s|
  {
    var init := s[..|s| - 1];
    if |s| == 1 {
      assert init == [];
    } else {
      DigitsValueBounds(init);
      assert init[0] == s[0];
      assert DigitsValue(s) == DigitsValue(init) * 10 + DigitValue(s[|s| - 1]);
    }
  }

  function DigitChar(d: nat): (c: char)
    requires d < 10
    ensures IsDigit(c) && DigitValue(c) == d
  {
    ('0' as int + d) as char
  }

  /** Decimal rendering without leading zeros, as strconv.Itoa gives it. */
  function Decimal(n: nat): (r: string)
    ensures 0 < |r|
    ensures AllDigits(r)
    ensures DigitsValue(r) == n
    ensures |r| > 1 ==> r[0] != '0'
    decreases n
  {
    if n < 10 then [DigitChar(n)]
    else
      var r := Decimal(n / 10) + [DigitChar(n % 10)];
      assert r[..|r| - 1] == Decimal(n / 10);
      r
  }

  const MaxInt: int := 0x7fff_ffff_ffff_ffff
  const MinInt: int := -0x8000_0000_0000_0000

  /** strconv.Atoi with Go's 64-bit int: an optional sign, then one or more
      decimal digits; a value outside the int range is an error. */
  function Atoi(s: string): (r: Option<int>)
    ensures r.Some? ==> MinInt <= r.value <= MaxInt
  {
    if s == [] then None
    else
      var signed := s[0] == '-' || s[0] == '+';
      var body := if signed then s[1..] else s;
      if body == [] || !AllDigits(body) then None
      else
        var v: int := if s[0] == '-' then 0 - DigitsValue(body) as int else DigitsValue(body);
        if MinInt <= v <= MaxInt then Some(v) else None
  }

  /** On a plain digit string, Atoi succeeds exactly when the value fits an
      int, and then yields that value. */
  lemma AtoiDigits(s: string)
    requires 0 < |s| && AllDigits(s)
    ensures Atoi(s).Some? <==> DigitsValue(s) <= MaxInt
    ensures Atoi(s).Some? ==> Atoi(s).value == DigitsValue(s)
  {
    assert IsDigit(s[0]);
  }

}
