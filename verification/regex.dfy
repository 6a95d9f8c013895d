/** Leftmost matching of the three fixed patterns the field rules compile.
    Each pattern is a sequence of literals and greedy runs of digits or word
    characters; `ShapeAt` says declaratively what a match starting at a given
    position looks like, `MatchAt` computes it the way a greedy matcher does,
    and `Find` scans the start positions from left to right. */
module Regex {
  import opened Wrappers
  import opened Text

  datatype Pattern =
    | BirthDate     // one capture: a word, a space, digits, ", ", four digits; then " (", digits, " years)"
    | HeightWeight  // two captures: digits, then " cm ", digits, then " kg"
    | FirstBasho    // one capture: four digits, '.', two digits; then anything

  /** The number of capture groups of each pattern. */
  function GroupCount(p: Pattern): nat
  {
    match p
    case BirthDate => 1
    case HeightWeight => 2
    case FirstBasho => 1
  }

  predicate LitAt(s: string, i: nat, lit: string)
  {
    i + |lit| <= |s| && s[i..i + |lit|] == lit
  }

  /** A match of p starts at i; ends holds the end of each of its greedy runs
      (none for FirstBasho, the digit runs for HeightWeight, and the word, day
      and age runs for BirthDate). */
  predicate ShapeAt(p: Pattern, s: string, i: nat, ends: seq<nat>)
  {
    match p
    case FirstBasho =>
      && ends == []
      && i + 7 <= |s| && AllDigits(s[i..i + 4]) && s[i + 4] == '.' && AllDigits(s[i + 5..i + 7])
    case HeightWeight =>
      && |ends| == 2
      && i < ends[0] <= |s| && AllDigits(s[i..ends[0]]) && LitAt(s, ends[0], " cm ")
      && ends[0] + 4 < ends[1] <= |s| && AllDigits(s[ends[0] + 4..ends[1]]) && LitAt(s, ends[1], " kg")
    case BirthDate =>
      && |ends| == 3
      && i < ends[0] <= |s| && AllIn(Word, s[i..ends[0]]) && LitAt(s, ends[0], " ")
      && ends[0] + 1 < ends[1] <= |s| && AllDigits(s[ends[0] + 1..ends[1]]) && LitAt(s, ends[1], ", ")
      && ends[1] + 6 <= |s| && AllDigits(s[ends[1] + 2..ends[1] + 6]) && LitAt(s, ends[1] + 6, " (")
      && ends[1] + 8 < ends[2] <= |s| && AllDigits(s[ends[1] + 8..ends[2]]) && LitAt(s, ends[2], " years)")
  }

  /** "DDDD.DD": four digits, a dot and two digits. */
  predicate IsBashoText(t: string)
  {
    |t| == 7 && AllDigits(t[..4]) && t[4] == '.' && AllDigits(t[5..])
  }

  /** The texts of the capture groups of a match, in order. */
  function Captures(p: Pattern, s: string, i: nat, ends: seq<nat>): (groups: seq<string>)
    requires ShapeAt(p, s, i, ends)
    ensures |groups| == GroupCount(p)
    ensures p == FirstBasho ==> IsBashoText(groups[0])
  {
    match p
    case FirstBasho =>
      var g := s[i..i + 7];
      assert g[..4] == s[i..i + 4] && g[5..] == s[i + 5..i + 7];
      [g]
    case HeightWeight => [s[i..ends[0]], s[ends[0] + 4..ends[1]]]
    case BirthDate => [s[i..ends[1] + 6]]
  }

  /** Greedy matching of p at position i. */
  function MatchAt(p: Pattern, s: string, i: nat): Option<seq<nat>>
    requires i <= |s|
  {
    match p
    case FirstBasho =>
      if i + 7 <= |s| && AllDigits(s[i..i + 4]) && s[i + 4] == '.' && AllDigits(s[i + 5..i + 7])
      then Some([]) else None
    case HeightWeight =>
      var a := RunEnd(Digit, s, i);
      if a == i || !LitAt(s, a, " cm ") then None
      else
        var b := RunEnd(Digit, s, a + 4);
        if b == a + 4 || !LitAt(s, b, " kg") then None else Some([a, b])
    case BirthDate =>
      var a := RunEnd(Word, s, i);
      if a == i || !LitAt(s, a, " ") then None
      else
        var b := RunEnd(Digit, s, a + 1);
        if b == a + 1 || !LitAt(s, b, ", ") || b + 6 > |s| || !AllDigits(s[b + 2..b + 6]) || !LitAt(s, b + 6, " (")
        then None
        else
          var d := RunEnd(Digit, s, b + 8);
          if d == b + 8 || !LitAt(s, d, " years)") then None else Some([a, b, d])
  }

  /** What the greedy matcher returns is a match. */
  lemma MatchAtSound(p: Pattern, s: string, i: nat)
    requires i <= |s| && MatchAt(p, s, i).Some?
    ensures ShapeAt(p, s, i, MatchAt(p, s, i).value)
  {
    match p
    case FirstBasho =>
    case HeightWeight =>
      var a := RunEnd(Digit, s, i);
      var b := RunEnd(Digit, s, a + 4);
      assert MatchAt(p, s, i).value == [a, b];
    case BirthDate =>
      var a := RunEnd(Word, s, i);
      var b := RunEnd(Digit, s, a + 1);
      var d := RunEnd(Digit, s, b + 8);
      assert MatchAt(p, s, i).value == [a, b, d];
  }

  /** Every match at i is the one the greedy matcher returns: matches at a
      given start are unique, so leftmost-first and leftmost agree. */
  lemma MatchAtComplete(p: Pattern, s: string, i: nat, ends: seq<nat>)
    requires i <= |s| && ShapeAt(p, s, i, ends)
    ensures MatchAt(p, s, i) == Some(ends)
  {
    match p
    case FirstBasho =>
    case HeightWeight => HeightWeightGreedy(s, i, ends);
    case BirthDate => BirthDateGreedy(s, i, ends);
  }

  /** A run of class k that a literal starting outside k follows ends
      where the literal starts. */
  lemma RunStopsAtLit(k: CharClass, s: string, i: nat, e: nat, lit: string)
    requires i <= e && LitAt(s, e, lit) && AllIn(k, s[i..e]) && lit != [] && !InClass(k, lit[0])
    ensures RunEnd(k, s, i) == e
  {
    assert s[e] == s[e..e + |lit|][0];
    RunEndUnique(k, s, i, e);
  }

  lemma HeightWeightGreedy(s: string, i: nat, ends: seq<nat>)
    requires i <= |s| && ShapeAt(HeightWeight, s, i, ends)
    ensures MatchAt(HeightWeight, s, i) == Some(ends)
  {
    RunStopsAtLit(Digit, s, i, ends[0], " cm ");
    RunStopsAtLit(Digit, s, ends[0] + 4, ends[1], " kg");
    assert ends == [ends[0], ends[1]];
  }

  lemma BirthDateGreedy(s: string, i: nat, ends: seq<nat>)
    requires i <= |s| && ShapeAt(BirthDate, s, i, ends)
    ensures MatchAt(BirthDate, s, i) == Some(ends)
  {
    var a, b, d := ends[0], ends[1], ends[2];
    RunStopsAtLit(Word, s, i, a, " ");
    RunStopsAtLit(Digit, s, a + 1, b, ", ");
    RunStopsAtLit(Digit, s, b + 8, d, " years)");
    assert ends == [a, b, d];
  }

  lemma NoShapeAt(p: Pattern, s: string, i: nat)
    requires i <= |s| && MatchAt(p, s, i).None?
    ensures forall ends :: !ShapeAt(p, s, i, ends)
  {
    forall ends | ShapeAt(p, s, i, ends)
      ensures false
    {
      MatchAtComplete(p, s, i, ends);
    }
  }

  /** The leftmost match of p at or after position from. */
  function Find(p: Pattern, s: string, from: nat): (m: Option<(nat, seq<nat>)>)
    ensures m.Some? ==> from <= m.value.0 && ShapeAt(p, s, m.value.0, m.value.1)
    ensures m.Some? ==> forall j, ends | from <= j < m.value.0 :: !ShapeAt(p, s, j, ends)
    ensures m.None? ==> forall j, ends | from <= j :: !ShapeAt(p, s, j, ends)
    decreases |s| + 1 - from
  {
    if from > |s| then None
    else
      match MatchAt(p, s, from)
      case Some(ends) =>
        MatchAtSound(p, s, from);
        Some((from, ends))
      case None =>
        NoShapeAt(p, s, from);
        Find(p, s, from + 1)
  }

  /** Go's FindStringSubmatch without the whole-match entry: the capture
      groups of the leftmost match, or None when the pattern occurs nowhere. */
  function FindStringSubmatch(p: Pattern, s: string): (r: Option<seq<string>>)
    ensures r.Some? ==> |r.value| == GroupCount(p)
    ensures r.Some? && p == FirstBasho ==> IsBashoText(r.value[0])
  {
    match Find(p, s, 0)
    case None => None
    case Some((i, ends)) => Some(Captures(p, s, i, ends))
  }

  /** There are no groups exactly when the pattern occurs nowhere. */
  lemma NoMatchIffNoShape(p: Pattern, s: string)
    ensures FindStringSubmatch(p, s).None? <==> forall j, ends :: !ShapeAt(p, s, j, ends)
  {
  }

  /** The groups FindStringSubmatch returns are those of the leftmost match,
      whatever way that match is found. */
  lemma LeftmostCaptures(p: Pattern, s: string, i: nat, ends: seq<nat>)
    requires ShapeAt(p, s, i, ends)
    requires forall j, e | 0 <= j < i :: !ShapeAt(p, s, j, e)
    ensures FindStringSubmatch(p, s) == Some(Captures(p, s, i, ends))
  {
    var m := Find(p, s, 0);
    assert m.Some?;
    var i', ends' := m.value.0, m.value.1;
    assert i' == i;
    MatchAtComplete(p, s, i, ends);
    MatchAtComplete(p, s, i, ends');
  }
}
