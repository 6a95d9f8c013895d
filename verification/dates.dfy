/** Calendar dates and Go's `time.Parse` for the one layout the core uses,
    "January 2, 2006": a full month name (ASCII case ignored), a space, a
    one- or two-digit day, ", ", a four-digit year, and nothing after it. A
    space in the layout matches any run of spaces in the value, as in Go. */
module Dates {
  import opened Wrappers
  import opened Text

  /** A date at midnight UTC, which is all `time.Parse` produces here. */
  datatype Date = Date(year: int, month: int, day: int)

  /** The zero `time.Time`: January 1 of year 1. */
  const ZeroDate: Date := Date(1, 1, 1)

  const MonthNames: seq<string> :=
    ["January", "February", "March", "April", "May", "June",
     "July", "August", "September", "October", "November", "December"]

  predicate IsLeap(y: int)
  {
    y % 4 == 0 && (y % 100 != 0 || y % 400 == 0)
  }

  function DaysIn(m: int, y: int): int
    requires 1 <= m <= 12
  {
    if m == 2 then (if IsLeap(y) then 29 else 28)
    else if m == 4 || m == 6 || m == 9 || m == 11 then 30
    else 31
  }

  predicate ValidDate(d: Date)
  {
    1 <= d.month <= 12 && 1 <= d.day <= DaysIn(d.month, d.year)
  }

  /** s begins with name, ASCII case ignored. */
  predicate StartsWithFold(s: string, name: string)
  {
    |name| <= |s| && forall j | 0 <= j < |name| :: LowerChar(s[j]) == LowerChar(name[j])
  }

  /** The name of month m, ignoring ASCII case, begins s. */
  predicate IsMonthPrefix(s: string, m: int)
    requires 1 <= m <= 12
  {
    StartsWithFold(s, MonthNames[m - 1])
  }

  function LookupMonth(s: string, m: int): (r: Option<int>)
    requires 1 <= m <= 13
    ensures r.Some? ==> m <= r.value <= 12 && IsMonthPrefix(s, r.value)
    ensures r.Some? ==> forall k | m <= k < r.value :: !IsMonthPrefix(s, k)
    ensures r.None? ==> forall k | m <= k <= 12 :: !IsMonthPrefix(s, k)
    decreases 13 - m
  {
    if m == 13 then None
    else if IsMonthPrefix(s, m) then Some(m)
    else LookupMonth(s, m + 1)
  }

  /** Drops the leading spaces. */
  function CutSpace(s: string): (r: string)
    ensures |r| <= |s| && r == s[|s| - |r|..]
    ensures r == [] || r[0] != ' '
    ensures forall j | 0 <= j < |s| - |r| :: s[j] == ' '
    decreases |s|
  {
    if s != [] && s[0] == ' ' then CutSpace(s[1..]) else s
  }

  lemma SuffixOfSuffix(value: string, v: string, r: Option<string>)
    requires |v| <= |value| && v == value[|value| - |v|..]
    requires r.Some? ==> |r.value| <= |v| && r.value == v[|v| - |r.value|..]
    ensures r.Some? ==> |r.value| <= |value| && r.value == value[|value| - |r.value|..]
  {
  }

  /** Matches the literal layout text prefix at the front of value and
      returns the rest; a space in prefix matches a run of spaces in value. */
  function Skip(value: string, prefix: string): (r: Option<string>)
    ensures r.Some? ==> |r.value| <= |value| && r.value == value[|value| - |r.value|..]
    ensures prefix == [] ==> r == Some(value)
    decreases |prefix|
  {
    if prefix == [] then Some(value)
    else if prefix[0] == ' ' then
      if |value| > 0 && value[0] != ' ' then None
      else
        var v := CutSpace(value);
        var r := Skip(v, CutSpace(prefix));
        SuffixOfSuffix(value, v, r);
        r
    else if |value| == 0 || value[0] != prefix[0] then None
    else
      var r := Skip(value[1..], prefix[1..]);
      SuffixOfSuffix(value, value[1..], r);
      r
  }

  /** A one- or two-digit number at the front of s (a non-fixed-width day):
      its value and how many characters it took. */
  function GetNum(s: string): (r: Option<(nat, nat)>)
    ensures r.None? <==> s == [] || !IsDigit(s[0])
    ensures r.Some? ==> 1 <= r.value.1 <= 2 && r.value.1 <= |s| && AllDigits(s[..r.value.1])
                        && r.value.0 == DigitsValue(s[..r.value.1])
    ensures r.Some? && r.value.1 == 1 ==> |s| == 1 || !IsDigit(s[1])
  {
    if |s| == 0 || !IsDigit(s[0]) then None
    else if |s| == 1 || !IsDigit(s[1]) then
      assert s[..1][..0] == [];
      Some((DigitValue(s[0]), 1))
    else
      assert s[..2][..1] == s[..1] && s[..1][..0] == [];
      assert DigitsValue(s[..1]) == DigitValue(s[0]);
      assert DigitsValue(s[..2]) == DigitsValue(s[..1]) * 10 + DigitValue(s[1]);
      Some((DigitValue(s[0]) * 10 + DigitValue(s[1]), 2))
  }

  /** `time.Parse("January 2, 2006", s)`, reduced to its date. */
  function ParseDate(s: string): (r: Option<Date>)
    ensures r.Some? ==> ValidDate(r.value)
  {
    match LookupMonth(s, 1)
    case None => None
    case Some(m) =>
      match Skip(s[|MonthNames[m - 1]|..], " ")
      case None => None
      case Some(v) => ParseDayYear(m, v)
  }

  /** The layout after the month name: day, ", ", year, end of input; then
      the day must exist in that month of that year. */
  function ParseDayYear(m: int, v: string): (r: Option<Date>)
    requires 1 <= m <= 12
    ensures r.Some? ==> ValidDate(r.value) && r.value.month == m
  {
    match GetNum(v)
    case None => None
    case Some((day, n)) =>
      match Skip(v[n..], ", ")
      case None => None
      case Some(w) =>
        if |w| != 4 || !AllDigits(w) then None
        else
          var year := DigitsValue(w);
          if 1 <= day <= DaysIn(m, year) then Some(Date(year, m, day)) else None
  }

  // ----- the layout written out, and the round trip -----

  /** Four digits, with leading zeros, for a year in 0..9999. */
  function Year4(y: nat): (r: string)
    requires y <= 9999
    ensures |r| == 4 && AllDigits(r) && DigitsValue(r) == y
  {
    var a := y / 10;
    var b := a / 10;
    var c := b / 10;
    var r1 := [DigitChar(c)];
    var r2 := r1 + [DigitChar(b % 10)];
    var r3 := r2 + [DigitChar(a % 10)];
    var r := r3 + [DigitChar(y % 10)];
    assert r1[..0] == [] && r2[..1] == r1 && r3[..2] == r2 && r[..3] == r3;
    assert DigitsValue(r1) == c;
    assert DigitsValue(r2) == b;
    assert DigitsValue(r3) == a;
    r
  }

  /** `d.Format("January 2, 2006")` for a date whose year has four digits. */
  function FormatDate(d: Date): string
    requires ValidDate(d) && 0 <= d.year <= 9999
  {
    MonthNames[d.month - 1] + " " + Decimal(d.day) + ", " + Year4(d.year)
  }

  /** The first three letters of a string, lower-cased. */
  function Key(x: string): string
    requires 3 <= |x|
  {
    [LowerChar(x[0]), LowerChar(x[1]), LowerChar(x[2])]
  }

  /** The month whose name starts with the given lower-cased letters. */
  function MonthOfKey(k: string): int
  {
    if k == "jan" then 1 else if k == "feb" then 2 else if k == "mar" then 3
    else if k == "apr" then 4 else if k == "may" then 5 else if k == "jun" then 6
    else if k == "jul" then 7 else if k == "aug" then 8 else if k == "sep" then 9
    else if k == "oct" then 10 else if k == "nov" then 11 else if k == "dec" then 12
    else 0
  }

  /** The first three letters of each month name, case ignored, identify it. */
  lemma MonthKey(m: int)
    requires 1 <= m <= 12
    ensures 3 <= |MonthNames[m - 1]| && MonthOfKey(Key(MonthNames[m - 1])) == m
  {
    if m == 1 { } else if m == 2 { } else if m == 3 { } else if m == 4 { }
    else if m == 5 { } else if m == 6 { } else if m == 7 { } else if m == 8 { }
    else if m == 9 { } else if m == 10 { } else if m == 11 { } else { }
  }

  /** What a month name at the front of s fixes: the lower-cased first
      three letters of s. */
  lemma MonthPrefixKey(s: string, m: int)
    requires 1 <= m <= 12 && IsMonthPrefix(s, m)
    ensures 3 <= |s| && Key(s) == Key(MonthNames[m - 1])
  {
    MonthKey(m);
  }

  /** At most one month name begins any string. */
  lemma MonthPrefixUnique(s: string, k: int, m: int)
    requires 1 <= k <= 12 && 1 <= m <= 12
    requires IsMonthPrefix(s, k) && IsMonthPrefix(s, m)
    ensures k == m
  {
    MonthPrefixKey(s, k);
    MonthPrefixKey(s, m);
    MonthKey(k);
    MonthKey(m);
  }

  /** A string that starts with month m's name is looked up as month m. */
  lemma LookupMonthOfName(m: int, rest: string)
    requires 1 <= m <= 12
    ensures LookupMonth(MonthNames[m - 1] + rest, 1) == Some(m)
  {
    var s := MonthNames[m - 1] + rest;
    var name := MonthNames[m - 1];
    assert s[..|name|] == name;
    assert IsMonthPrefix(s, m);
    var r := LookupMonth(s, 1);
    if r.Some? {
      MonthPrefixUnique(s, r.value, m);
    }
  }

  /** A space in the layout consumes the one space before a non-space. */
  lemma SkipOneSpace(x: string)
    requires x != [] && x[0] != ' '
    ensures Skip(" " + x, " ") == Some(x)
  {
    var v := " " + x;
    assert v[0] == ' ' && v[1..] == x;
    assert CutSpace(x) == x;
    assert CutSpace(v) == x;
    assert " "[1..] == [];
    assert CutSpace(" ") == [];
  }

  lemma SkipCommaSpace(x: string)
    requires x != [] && x[0] != ' '
    ensures Skip(", " + x, ", ") == Some(x)
  {
    assert (", " + x)[1..] == " " + x;
    assert ", "[1..] == " ";
    SkipOneSpace(x);
  }

  /** GetNum reads a day written by Decimal, when a non-digit follows it. */
  lemma GetNumDecimal(day: nat, rest: string)
    requires 1 <= day <= 31
    requires rest != [] && !IsDigit(rest[0])
    ensures GetNum(Decimal(day) + rest) == Some((day, |Decimal(day)|))
  {
    var t := Decimal(day);
    DigitsValueBounds(t);
    var v := t + rest;
    if |t| == 1 {
      assert v[1] == rest[0];
    } else {
      assert t[..1][..0] == [];
      assert v[2] == rest[0];
    }
  }

  /** The day-and-year part of the layout reads back what FormatDate wrote. */
  lemma ParseDayYearOfFormat(d: Date)
    requires ValidDate(d) && 0 <= d.year <= 9999
    ensures ParseDayYear(d.month, Decimal(d.day) + ", " + Year4(d.year)) == Some(d)
  {
    var day := Decimal(d.day);
    var year := Year4(d.year);
    GetNumDecimal(d.day, ", " + year);
    assert |day| <= 2;
    ShortDayOfCapture(d.month, day, year);
  }

  /** ParseDate is the month lookup, then one layout space, then the day
      and year. */
  lemma ParseDateSteps(s: string, m: int, v: string)
    requires 1 <= m <= 12 && LookupMonth(s, 1) == Some(m)
    requires Skip(s[|MonthNames[m - 1]|..], " ") == Some(v)
    ensures ParseDate(s) == ParseDayYear(m, v)
  {
  }

  /** FormatDate is the month name, a space, and the day-and-year part. */
  lemma FormatDateParts(d: Date)
    requires ValidDate(d) && 0 <= d.year <= 9999
    ensures FormatDate(d) == MonthNames[d.month - 1] + (" " + (Decimal(d.day) + ", " + Year4(d.year)))
  {
  }

  /** A month name, one space and a day-and-year part that reads as d parse
      as d. */
  lemma ParseDateOfParts(m: int, name: string, tail: string, d: Date)
    requires 1 <= m <= 12 && name == MonthNames[m - 1]
    requires LookupMonth(name + (" " + tail), 1) == Some(m)
    requires tail != [] && tail[0] != ' '
    requires ParseDayYear(m, tail) == Some(d)
    ensures ParseDate(name + (" " + tail)) == Some(d)
  {
    var s := name + (" " + tail);
    assert s[|name|..] == " " + tail;
    SkipOneSpace(tail);
    ParseDateSteps(s, m, tail);
  }

  /** Parsing what FormatDate writes gives the date back. */
  lemma ParseFormatDate(d: Date)
    requires ValidDate(d) && 0 <= d.year <= 9999
    ensures ParseDate(FormatDate(d)) == Some(d)
  {
    var name := MonthNames[d.month - 1];
    var day := Decimal(d.day);
    var tail := day + ", " + Year4(d.year);
    FormatDateParts(d);
    LookupMonthOfName(d.month, " " + tail);
    assert tail[0] == day[0];
    ParseDayYearOfFormat(d);
    ParseDateOfParts(d.month, name, tail, d);
  }

  // ----- what the birth-date pattern captures -----

  /** No month name contains a space. */
  lemma MonthNameNoSpace(m: int, j: nat)
    requires 1 <= m <= 12 && j < |MonthNames[m - 1]|
    ensures MonthNames[m - 1][j] != ' '
  {
    if m == 1 { } else if m == 2 { } else if m == 3 { } else if m == 4 { }
    else if m == 5 { } else if m == 6 { } else if m == 7 { } else if m == 8 { }
    else if m == 9 { } else if m == 10 { } else if m == 11 { } else { }
  }

  /** A month name begins w followed by a space exactly when it begins w. */
  lemma MonthPrefixBeforeSpace(w: string, rest: string, k: int)
    requires 1 <= k <= 12 && rest != [] && rest[0] == ' '
    ensures IsMonthPrefix(w + rest, k) <==> IsMonthPrefix(w, k)
  {
    var name := MonthNames[k - 1];
    var s := w + rest;
    if |name| <= |w| {
      assert forall j | 0 <= j < |name| :: s[j] == w[j];
    } else {
      MonthNameNoSpace(k, |w|);
      assert s[|w|] == ' ';
    }
  }

  /** The month lookup of a word followed by a space depends on the word
      alone. */
  lemma {:induction false} LookupMonthBeforeSpace(w: string, rest: string, m: int)
    requires 1 <= m <= 13 && rest != [] && rest[0] == ' '
    ensures LookupMonth(w + rest, m) == LookupMonth(w, m)
    decreases 13 - m
  {
    if m < 13 {
      MonthPrefixBeforeSpace(w, rest, m);
      LookupMonthBeforeSpace(w, rest, m + 1);
    }
  }

  /** The day and year the pattern captures: a run of digits, ", " and four
      digits. They read as a date exactly when the day has at most two
      digits and exists in that month of that year; leading zeros are
      allowed. */
  lemma ParseDayYearOfCapture(m: int, ds: string, ys: string)
    requires 1 <= m <= 12
    requires 0 < |ds| && AllDigits(ds) && |ys| == 4 && AllDigits(ys)
    ensures ParseDayYear(m, ds + ", " + ys) ==
              if |ds| <= 2 && 1 <= DigitsValue(ds) <= DaysIn(m, DigitsValue(ys))
              then Some(Date(DigitsValue(ys), m, DigitsValue(ds)))
              else None
  {
    if |ds| <= 2 {
      ShortDayOfCapture(m, ds, ys);
    } else {
      LongDayOfCapture(m, ds, ys);
    }
  }

  /** A day of one or two digits, then ", " and the year. */
  lemma ShortDayOfCapture(m: int, ds: string, ys: string)
    requires 1 <= m <= 12
    requires 0 < |ds| <= 2 && AllDigits(ds) && |ys| == 4 && AllDigits(ys)
    ensures ParseDayYear(m, ds + ", " + ys) ==
              if 1 <= DigitsValue(ds) <= DaysIn(m, DigitsValue(ys))
              then Some(Date(DigitsValue(ys), m, DigitsValue(ds)))
              else None
  {
    var v := ds + ", " + ys;
    var n := |ds|;
    assert IsDigit(ys[0]);
    assert v[n..] == ", " + ys;
    SkipCommaSpace(ys);
    GetNumOfDay(ds, ", " + ys);
    assert v == ds + (", " + ys);
    ParseDayYearSteps(m, v, DigitsValue(ds), n, ys);
  }

  /** GetNum reads a one- or two-digit run that a non-digit follows. */
  lemma GetNumOfDay(ds: string, rest: string)
    requires 0 < |ds| <= 2 && AllDigits(ds)
    requires rest != [] && !IsDigit(rest[0])
    ensures GetNum(ds + rest) == Some((DigitsValue(ds), |ds|))
  {
    var v := ds + rest;
    assert v[0] == ds[0];
    if |ds| == 1 {
      assert v[1] == rest[0];
      assert ds[..0] == [];
    } else {
      assert v[1] == ds[1] && v[2] == rest[0];
      assert ds[..1][..0] == [];
    }
  }

  /** A day of three or more digits leaves a digit where ", " must be. */
  lemma LongDayOfCapture(m: int, ds: string, ys: string)
    requires 1 <= m <= 12
    requires 2 < |ds| && AllDigits(ds) && |ys| == 4 && AllDigits(ys)
    ensures ParseDayYear(m, ds + ", " + ys) == None
  {
    var v := ds + ", " + ys;
    assert v[0] == ds[0] && v[1] == ds[1];
    assert v[2..][0] == ds[2];
  }

  /** ParseDayYear is GetNum, then ", ", then the year. */
  lemma ParseDayYearSteps(m: int, v: string, day: nat, n: nat, w: string)
    requires 1 <= m <= 12 && GetNum(v) == Some((day, n)) && n <= |v|
    requires Skip(v[n..], ", ") == Some(w) && |w| == 4 && AllDigits(w)
    ensures ParseDayYear(m, v) ==
              if 1 <= day <= DaysIn(m, DigitsValue(w)) then Some(Date(DigitsValue(w), m, day)) else None
  {
  }

  /** The text the birth-date pattern captures: a word, a space, a run of
      digits, ", " and four digits. It reads as a date exactly when the word
      is a whole month name in any ASCII case and the day and year are as
      ParseDayYearOfCapture says. */
  lemma ParseDateOfCapture(w: string, ds: string, ys: string)
    requires AllIn(Word, w)
    requires 0 < |ds| && AllDigits(ds) && |ys| == 4 && AllDigits(ys)
    ensures var r := LookupMonth(w, 1);
            ParseDate(w + " " + ds + ", " + ys) ==
              if r.Some? && |w| == |MonthNames[r.value - 1]| && |ds| <= 2
                 && 1 <= DigitsValue(ds) <= DaysIn(r.value, DigitsValue(ys))
              then Some(Date(DigitsValue(ys), r.value, DigitsValue(ds)))
              else None
  {
    var tail := ds + ", " + ys;
    var s := w + (" " + tail);
    assert w + " " + ds + ", " + ys == s;
    LookupMonthBeforeSpace(w, " " + tail, 1);
    var r := LookupMonth(w, 1);
    if r.Some? {
      var m := r.value;
      if |w| == |MonthNames[m - 1]| {
        WholeMonthWord(w, m, ds, ys);
        ParseDayYearOfCapture(m, ds, ys);
      } else {
        assert s[|MonthNames[m - 1]|] == w[|MonthNames[m - 1]|];
        ParseDateNoSpaceAfterName(s, m);
      }
    }
  }

  /** A whole month name, a space, and a day-and-year part. */
  lemma WholeMonthWord(w: string, m: int, ds: string, ys: string)
    requires 1 <= m <= 12 && |w| == |MonthNames[m - 1]|
    requires 0 < |ds| && AllDigits(ds) && |ys| == 4 && AllDigits(ys)
    requires LookupMonth(w + (" " + (ds + ", " + ys)), 1) == Some(m)
    ensures ParseDate(w + (" " + (ds + ", " + ys))) == ParseDayYear(m, ds + ", " + ys)
  {
    var tail := ds + ", " + ys;
    var s := w + (" " + tail);
    assert s[|w|..] == " " + tail;
    assert tail[0] == ds[0];
    SkipOneSpace(tail);
    ParseDateSteps(s, m, tail);
  }

  /** A month name that a character other than a space follows does not
      parse: the layout wants a space there. */
  lemma ParseDateNoSpaceAfterName(s: string, m: int)
    requires 1 <= m <= 12 && LookupMonth(s, 1) == Some(m)
    requires |MonthNames[m - 1]| < |s| && s[|MonthNames[m - 1]|] != ' '
    ensures ParseDate(s) == None
  {
    var x := s[|MonthNames[m - 1]|..];
    assert x[0] == s[|MonthNames[m - 1]|];
    SkipSpaceNeedsSpace(x);
    ParseDateSkipFails(s, m);
  }

  /** When the layout space after the month name does not match, there is
      no date. */
  lemma ParseDateSkipFails(s: string, m: int)
    requires 1 <= m <= 12 && LookupMonth(s, 1) == Some(m)
    requires Skip(s[|MonthNames[m - 1]|..], " ") == None
    ensures ParseDate(s) == None
  {
  }

  /** A layout space needs a space in the value, unless the value ends. */
  lemma SkipSpaceNeedsSpace(x: string)
    requires x != [] && x[0] != ' '
    ensures Skip(x, " ") == None
  {
  }

  /** Month names in another case and a zero-padded day are read as Go
      reads them. */
  lemma ParseDateUpperCaseExample(w: string, ds: string, ys: string)
    requires w == "JANUARY" && ds == "02" && ys == "2006"
    ensures ParseDate(w + " " + ds + ", " + ys) == Some(Date(2006, 1, 2))
  {
    assert IsMonthPrefix(w, 1);
    assert LookupMonth(w, 1) == Some(1);
    assert ds[..1] == "0" && "0"[..0] == [];
    assert DigitsValue(ds) == 2;
    assert ys[..3] == "200" && "200"[..2] == "20" && "20"[..1] == "2" && "2"[..0] == [];
    assert DigitsValue("2") == 2;
    assert DigitsValue("20") == 20;
    assert DigitsValue("200") == 200;
    assert DigitsValue(ys) == 2006;
    ParseDateOfCapture(w, ds, ys);
  }
}
