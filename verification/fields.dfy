/** The per-key rules of the row switch: what each recognised key does
    to the record, as a pure function of the record, the key and the value
    text. */
module Fields {
  import opened Wrappers
  import opened Errors
  import opened Text
  import opened Dates
  import opened Regex

  /** The contents of a Rikishi record. */
  datatype Profile = Profile(
    sumoDbId: int,
    highestRank: string,
    realName: string,
    birthDate: Date,
    origin: string,
    height: int,
    weight: int,
    university: string,
    heya: string,
    shikona: string,
    firstBasho: string)

  /** A zero-valued record, as `var r Rikishi` declares it. */
  const EmptyProfile: Profile := Profile(0, "", "", ZeroDate, "", 0, 0, "", "", "", "")

  const PlainLabels: set<string> := {"Real Name", "Shusshin", "University", "Heya", "Shikona"}

  const KnownLabels: set<string> :=
    PlainLabels + {"Highest Rank", "Birth Date", "Height and Weight", "Hatsu Dohyo"}

  /** Birth Date: the date captured by the leftmost birth-date match, read
      with the "January 2, 2006" layout; the age in parentheses is dropped. */
  function BirthDateOf(v: string): (r: Result<Date, Error>)
    ensures r.Success? ==> ValidDate(r.value)
    ensures r.Failure? ==> r.error == BirthDateMismatch || r.error == DateParse
  {
    match FindStringSubmatch(BirthDate, v)
    case None => Failure(BirthDateMismatch)
    case Some(groups) =>
      match ParseDate(groups[0])
      case None => Failure(DateParse)
      case Some(d) => Success(d)
  }

  /** Height and Weight: both numbers of the leftmost "<digits> cm <digits> kg". */
  function HeightWeightOf(v: string): (r: Result<(int, int), Error>)
    ensures r.Success? ==> 0 <= r.value.0 <= MaxInt && 0 <= r.value.1 <= MaxInt
    ensures r.Failure? ==> r.error == HeightWeightMismatch || r.error == NumberParse
  {
    match FindStringSubmatch(HeightWeight, v)
    case None => Failure(HeightWeightMismatch)
    case Some(groups) =>
      match Atoi(groups[0])
      case None => Failure(NumberParse)
      case Some(h) =>
        match Atoi(groups[1])
        case None => Failure(NumberParse)
        case Some(w) => Success((h, w))
  }

  /** Hatsu Dohyo: the leftmost "DDDD.DD" anywhere in the value. */
  function FirstBashoOf(v: string): (r: Result<string, Error>)
    ensures r.Success? ==> IsBashoText(r.value)
    ensures r.Failure? ==> r.error == FirstBashoMismatch
  {
    match FindStringSubmatch(FirstBasho, v)
    case None => Failure(FirstBashoMismatch)
    case Some(groups) => Success(groups[0])
  }

  /** What one recognised row writes into the record. */
  datatype Update =
    | NoOp
    | SetHighestRank(rank: string)
    | SetRealName(realName: string)
    | SetBirthDate(date: Date)
    | SetOrigin(origin: string)
    | SetHeightWeight(height: int, weight: int)
    | SetUniversity(university: string)
    | SetHeya(heya: string)
    | SetShikona(shikona: string)
    | SetFirstBasho(basho: string)

  /** The label whose case of the switch produces an update. */
  function LabelOf(u: Update): string
    requires !u.NoOp?
  {
    match u
    case SetHighestRank(_) => "Highest Rank"
    case SetRealName(_) => "Real Name"
    case SetBirthDate(_) => "Birth Date"
    case SetOrigin(_) => "Shusshin"
    case SetHeightWeight(_, _) => "Height and Weight"
    case SetUniversity(_) => "University"
    case SetHeya(_) => "Heya"
    case SetShikona(_) => "Shikona"
    case SetFirstBasho(_) => "Hatsu Dohyo"
  }

  /** The case of the switch for one row, as an update or the error the row
      fails with. `slug` stands for slug.Make, whose definition is not part
      of this model. */
  function Extract(key: string, value: string, slug: string -> string): (r: Result<Update, Error>)
    ensures r.Failure? ==> key == "Birth Date" || key == "Height and Weight" || key == "Hatsu Dohyo"
  {
    match key
    case "Highest Rank" => Success(SetHighestRank(slug(value)))
    case "Real Name" => Success(SetRealName(ToLower(value)))
    case "Birth Date" =>
      (match BirthDateOf(value)
       case Failure(e) => Failure(e)
       case Success(d) => Success(SetBirthDate(d)))
    case "Shusshin" => Success(SetOrigin(ToLower(value)))
    case "Height and Weight" =>
      (match HeightWeightOf(value)
       case Failure(e) => Failure(e)
       case Success(hw) => Success(SetHeightWeight(hw.0, hw.1)))
    case "University" => Success(SetUniversity(ToLower(value)))
    case "Heya" => Success(SetHeya(ToLower(value)))
    case "Shikona" => Success(SetShikona(ToLower(value)))
    case "Hatsu Dohyo" =>
      (match FirstBashoOf(value)
       case Failure(e) => Failure(e)
       case Success(b) => Success(SetFirstBasho(b)))
    case _ => Success(NoOp)
  }

  /** An update comes from the case of its own label, and a row changes
      nothing exactly when its label is not one the switch knows. */
  lemma ExtractLabel(key: string, value: string, slug: string -> string)
    ensures Extract(key, value, slug).Success? && !Extract(key, value, slug).value.NoOp? ==>
              LabelOf(Extract(key, value, slug).value) == key
  {
  }

  lemma ExtractNoOp(key: string, value: string, slug: string -> string)
    ensures Extract(key, value, slug) == Success(NoOp) <==> key !in KnownLabels
  {
  }

  /** The field assignments of one update. */
  function Apply(p: Profile, u: Update): Profile
  {
    match u
    case NoOp => p
    case SetHighestRank(s) => p.(highestRank := s)
    case SetRealName(s) => p.(realName := s)
    case SetBirthDate(d) => p.(birthDate := d)
    case SetOrigin(s) => p.(origin := s)
    case SetHeightWeight(h, w) => p.(height := h, weight := w)
    case SetUniversity(s) => p.(university := s)
    case SetHeya(s) => p.(heya := s)
    case SetShikona(s) => p.(shikona := s)
    case SetFirstBasho(s) => p.(firstBasho := s)
  }

  /** One row applied to the record: the row's error, or the updated record. */
  function ApplyField(p: Profile, key: string, value: string, slug: string -> string): Result<Profile, Error>
  {
    match Extract(key, value, slug)
    case Failure(e) => Failure(e)
    case Success(u) => Success(Apply(p, u))
  }

  // ----- what each rule does -----

  /** A key the switch does not know leaves the record as it is. */
  lemma UnknownLabelIsNoOp(p: Profile, key: string, value: string, slug: string -> string)
    requires key !in KnownLabels
    ensures ApplyField(p, key, value, slug) == Success(p)
  {
  }

  /** The plain labels never fail and store the lower-cased value, even an
      empty one: the personal ones here, the stable's and school's below. */
  lemma PersonalFieldsStoreLowerCase(p: Profile, value: string, slug: string -> string)
    ensures ApplyField(p, "Real Name", value, slug) == Success(p.(realName := ToLower(value)))
    ensures ApplyField(p, "Shusshin", value, slug) == Success(p.(origin := ToLower(value)))
    ensures ApplyField(p, "Shikona", value, slug) == Success(p.(shikona := ToLower(value)))
  {
  }

  lemma AffiliationFieldsStoreLowerCase(p: Profile, value: string, slug: string -> string)
    ensures ApplyField(p, "University", value, slug) == Success(p.(university := ToLower(value)))
    ensures ApplyField(p, "Heya", value, slug) == Success(p.(heya := ToLower(value)))
  {
  }

  /** Highest Rank never fails and stores the slug of the value. */
  lemma HighestRankIsSlug(p: Profile, value: string, slug: string -> string)
    ensures ApplyField(p, "Highest Rank", value, slug) == Success(p.(highestRank := slug(value)))
  {
  }

  /** Birth Date fails with BirthDateMismatch exactly when the shape occurs
      nowhere in the value; otherwise the leftmost match's date text decides,
      and a date that is stored is a real calendar date. */
  lemma BirthDateRule(v: string, i: nat, ends: seq<nat>)
    requires ShapeAt(BirthDate, v, i, ends)
    requires forall j, e | 0 <= j < i :: !ShapeAt(BirthDate, v, j, e)
    ensures BirthDateOf(v) == match ParseDate(v[i..ends[1] + 6])
                              case None => Failure(DateParse)
                              case Some(d) => Success(d)
    ensures BirthDateOf(v).Success? ==> ValidDate(BirthDateOf(v).value)
  {
    LeftmostCaptures(BirthDate, v, i, ends);
  }

  /** The birth-date capture in parts: the word, a space, the day digits,
      ", " and the four year digits. */
  lemma BirthDateCaptureParts(v: string, i: nat, ends: seq<nat>)
    requires ShapeAt(BirthDate, v, i, ends)
    ensures v[i..ends[1] + 6] == v[i..ends[0]] + " " + v[ends[0] + 1..ends[1]] + ", " + v[ends[1] + 2..ends[1] + 6]
  {
    var a, b := ends[0], ends[1];
    assert v[a] == v[a..a + 1][0];
    assert v[b..b + 2] == ", ";
    assert v[i..b + 6] == v[i..a] + v[a..a + 1] + v[a + 1..b] + v[b..b + 2] + v[b + 2..b + 6];
  }

  /** Which date a Birth Date value yields: the leftmost match's word must
      be a whole month name in any ASCII case, its day one or two digits
      (leading zero allowed) that exist in that month of that year;
      otherwise the row fails with DateParse. */
  lemma BirthDateValue(v: string, i: nat, ends: seq<nat>)
    requires ShapeAt(BirthDate, v, i, ends)
    requires forall j, e | 0 <= j < i :: !ShapeAt(BirthDate, v, j, e)
    ensures var w, ds, ys := v[i..ends[0]], v[ends[0] + 1..ends[1]], v[ends[1] + 2..ends[1] + 6];
            var m := LookupMonth(w, 1);
            BirthDateOf(v) ==
              if m.Some? && |w| == |MonthNames[m.value - 1]| && |ds| <= 2
                 && 1 <= DigitsValue(ds) <= DaysIn(m.value, DigitsValue(ys))
              then Success(Date(DigitsValue(ys), m.value, DigitsValue(ds)))
              else Failure(DateParse)
  {
    var w, ds, ys := v[i..ends[0]], v[ends[0] + 1..ends[1]], v[ends[1] + 2..ends[1] + 6];
    BirthDateRule(v, i, ends);
    BirthDateCaptureParts(v, i, ends);
    ParseDateOfCapture(w, ds, ys);
  }

  lemma BirthDateMissing(v: string)
    ensures BirthDateOf(v) == Failure(BirthDateMismatch) <==> forall j, e :: !ShapeAt(BirthDate, v, j, e)
  {
    NoMatchIffNoShape(BirthDate, v);
  }

  /** Height and Weight take both numbers from the leftmost match; they fail
      with NumberParse only when a number does not fit a 64-bit int. */
  lemma HeightWeightRule(v: string, i: nat, ends: seq<nat>)
    requires ShapeAt(HeightWeight, v, i, ends)
    requires forall j, e | 0 <= j < i :: !ShapeAt(HeightWeight, v, j, e)
    ensures var h, w := DigitsValue(v[i..ends[0]]), DigitsValue(v[ends[0] + 4..ends[1]]);
            HeightWeightOf(v) == if h <= MaxInt && w <= MaxInt then Success((h, w)) else Failure(NumberParse)
  {
    LeftmostCaptures(HeightWeight, v, i, ends);
    AtoiDigits(v[i..ends[0]]);
    AtoiDigits(v[ends[0] + 4..ends[1]]);
  }

  /** The Height and Weight row stores both numbers its rule yields, or
      fails with the rule's error. */
  lemma HeightWeightField(p: Profile, v: string, slug: string -> string)
    ensures ApplyField(p, "Height and Weight", v, slug)
         == if HeightWeightOf(v).Success?
            then Success(p.(height := HeightWeightOf(v).value.0, weight := HeightWeightOf(v).value.1))
            else Failure(HeightWeightOf(v).error)
  {
  }

  lemma HeightWeightMissing(v: string)
    ensures HeightWeightOf(v) == Failure(HeightWeightMismatch) <==> forall j, e :: !ShapeAt(HeightWeight, v, j, e)
  {
    NoMatchIffNoShape(HeightWeight, v);
  }

  /** Height and Weight is all or nothing: on success both are set from the
      same match and nothing else changes; on failure there is no record. */
  lemma HeightWeightAllOrNothing(p: Profile, v: string, slug: string -> string)
    ensures ApplyField(p, "Height and Weight", v, slug).Success? <==> HeightWeightOf(v).Success?
    ensures ApplyField(p, "Height and Weight", v, slug).Success? ==>
              var q := ApplyField(p, "Height and Weight", v, slug).value;
              (q.height, q.weight) == HeightWeightOf(v).value && q.(height := p.height, weight := p.weight) == p
  {
    HeightWeightField(p, v, slug);
  }

  /** Hatsu Dohyo stores the leftmost "DDDD.DD", wherever it stands. */
  lemma FirstBashoRule(v: string, i: nat)
    requires ShapeAt(FirstBasho, v, i, [])
    requires forall j, e | 0 <= j < i :: !ShapeAt(FirstBasho, v, j, e)
    ensures FirstBashoOf(v) == Success(v[i..i + 7])
  {
    LeftmostCaptures(FirstBasho, v, i, []);
  }

  lemma FirstBashoMissing(v: string)
    ensures FirstBashoOf(v) == Failure(FirstBashoMismatch) <==> forall j, e :: !ShapeAt(FirstBasho, v, j, e)
  {
    NoMatchIffNoShape(FirstBasho, v);
  }

  // ----- how rules combine -----

  /** Whether a row fails, and with what error, depends on its label and
      value only, never on the record built so far. */
  lemma FailureIgnoresRecord(p: Profile, q: Profile, key: string, value: string, slug: string -> string)
    ensures ApplyField(p, key, value, slug).Failure? <==> ApplyField(q, key, value, slug).Failure?
    ensures ApplyField(p, key, value, slug).Failure? ==>
              ApplyField(p, key, value, slug).error == ApplyField(q, key, value, slug).error
  {
  }

  /** A repeated label overwrites: the later value wins. */
  lemma RepeatedLabelLastWins(p: Profile, key: string, v1: string, v2: string, slug: string -> string)
    requires ApplyField(p, key, v1, slug).Success?
    ensures ApplyField(ApplyField(p, key, v1, slug).value, key, v2, slug) == ApplyField(p, key, v2, slug)
  {
    var e1, e2 := Extract(key, v1, slug), Extract(key, v2, slug);
    if e2.Success? {
      ExtractLabel(key, v1, slug);
      ExtractLabel(key, v2, slug);
      ExtractNoOp(key, v1, slug);
      ExtractNoOp(key, v2, slug);
      SameLabelOverwrites(p, e1.value, e2.value);
    }
  }

  /** A second update for the same label overwrites everything the first
      one wrote. */
  lemma SameLabelOverwrites(p: Profile, u1: Update, u2: Update)
    requires (u1.NoOp? && u2.NoOp?) || (!u1.NoOp? && !u2.NoOp? && LabelOf(u1) == LabelOf(u2))
    ensures Apply(Apply(p, u1), u2) == Apply(p, u2)
  {
  }

  /** Updates coming from different labels write disjoint fields. */
  lemma UpdatesCommute(p: Profile, u1: Update, u2: Update)
    requires u1.NoOp? || u2.NoOp? || LabelOf(u1) != LabelOf(u2)
    ensures Apply(Apply(p, u1), u2) == Apply(Apply(p, u2), u1)
  {
    match u1
    case NoOp =>
    case SetHighestRank(_) =>
    case SetRealName(_) =>
    case SetBirthDate(_) =>
    case SetOrigin(_) =>
    case SetHeightWeight(_, _) =>
    case SetUniversity(_) =>
    case SetHeya(_) =>
    case SetShikona(_) =>
    case SetFirstBasho(_) =>
  }

  /** Rows with different labels can be applied in either order. */
  lemma DistinctLabelsCommute(p: Profile, k1: string, v1: string, k2: string, v2: string, slug: string -> string)
    requires k1 != k2
    requires ApplyField(p, k1, v1, slug).Success? && ApplyField(p, k2, v2, slug).Success?
    ensures ApplyField(ApplyField(p, k1, v1, slug).value, k2, v2, slug)
         == ApplyField(ApplyField(p, k2, v2, slug).value, k1, v1, slug)
  {
    ExtractLabel(k1, v1, slug);
    ExtractLabel(k2, v2, slug);
    UpdatesCommute(p, Extract(k1, v1, slug).value, Extract(k2, v2, slug).value);
  }

  // ----- the worked values of the field formats -----

  lemma BirthDateExampleShape(v: string)
    requires v == "January 2, 2006 (23 years)"
    ensures ShapeAt(BirthDate, v, 0, [7, 9, 19])
  {
    assert v[0..7] == "January";
    assert AllIn(Word, v[0..7]);
    assert LitAt(v, 7, " ");
    assert v[8..9] == "2";
    assert LitAt(v, 9, ", ");
    assert v[11..15] == "2006";
    assert LitAt(v, 15, " (");
    assert v[17..19] == "23";
    assert LitAt(v, 19, " years)");
  }

  lemma ParseDateExample(t: string)
    requires t == "January 2, 2006"
    ensures ParseDate(t) == Some(Date(2006, 1, 2))
  {
    assert Decimal(2) == "2";
    assert Year4(2006) == "2006";
    assert FormatDate(Date(2006, 1, 2)) == t;
    ParseFormatDate(Date(2006, 1, 2));
  }

  lemma BirthDateExampleCapture(v: string)
    requires v == "January 2, 2006 (23 years)"
    ensures v[0..15] == "January 2, 2006"
  {
  }

  /** "January 2, 2006 (23 years)" is stored as 2006-01-02. */
  lemma BirthDateExample(v: string)
    requires v == "January 2, 2006 (23 years)"
    ensures BirthDateOf(v) == Success(Date(2006, 1, 2))
  {
    var t := v[0..15];
    BirthDateExampleCapture(v);
    ParseDateExample(t);
    BirthDateExampleShape(v);
    BirthDateRule(v, 0, [7, 9, 19]);
  }

  lemma HeightWeightExampleShape()
    ensures ShapeAt(HeightWeight, "180 cm 120 kg", 0, [3, 10])
  {
    var v := "180 cm 120 kg";
    assert v[0..3] == "180" && v[3..7] == " cm " && v[7..10] == "120" && v[10..13] == " kg";
  }

  lemma DigitsValueExample()
    ensures DigitsValue("180") == 180 && DigitsValue("120") == 120
  {
    assert "180"[..2] == "18" && "18"[..1] == "1" && "1"[..0] == [];
    assert "120"[..2] == "12" && "12"[..1] == "1";
  }

  lemma HeightWeightExampleCaptures(v: string)
    requires v == "180 cm 120 kg"
    ensures v[0..3] == "180" && v[7..10] == "120"
  {
  }

  /** "180 cm 120 kg" sets height 180 and weight 120. */
  lemma HeightWeightExample(v: string)
    requires v == "180 cm 120 kg"
    ensures HeightWeightOf(v) == Success((180, 120))
  {
    HeightWeightExampleCaptures(v);
    DigitsValueExample();
    assert DigitsValue(v[0..3]) == 180 && DigitsValue(v[7..10]) == 120;
    HeightWeightExampleShape();
    assert ShapeAt(HeightWeight, v, 0, [3, 10]);
    HeightWeightRule(v, 0, [3, 10]);
  }

  /** Every Height and Weight match has a space after its first number. */
  lemma HeightWeightHasSpace(u: string, j: nat, e: seq<nat>)
    requires ShapeAt(HeightWeight, u, j, e)
    ensures e[0] < |u| && u[e[0]] == ' '
  {
    assert u[e[0]] == u[e[0]..e[0] + 4][0];
  }

  /** A value without a space has no Height and Weight match. */
  lemma NoSpaceNoHeightWeight(u: string)
    requires forall k | 0 <= k < |u| :: u[k] != ' '
    ensures HeightWeightOf(u) == Failure(HeightWeightMismatch)
  {
    forall j, e | ShapeAt(HeightWeight, u, j, e)
      ensures false
    {
      HeightWeightHasSpace(u, j, e);
    }
    HeightWeightMissing(u);
  }

  /** Without the spaces there is no match: "180cm120kg" is an error. */
  lemma HeightWeightNoSpaces(u: string)
    requires u == "180cm120kg"
    ensures HeightWeightOf(u) == Failure(HeightWeightMismatch)
  {
    NoSpaceNoHeightWeight(u);
  }

  /** "2012.01 (Hatsu)" gives "2012.01", and so does "Hatsu 2012.01": the
      pattern need not stand at the front. */
  lemma FirstBashoExample(v: string, u: string)
    requires v == "2012.01 (Hatsu)" && u == "Hatsu 2012.01"
    ensures FirstBashoOf(v) == Success("2012.01")
    ensures FirstBashoOf(u) == Success("2012.01")
  {
    assert v[0..4] == "2012" && v[5..7] == "01" && v[0..7] == "2012.01";
    FirstBashoRule(v, 0);
    forall j, e | 0 <= j < 6
      ensures !ShapeAt(FirstBasho, u, j, e)
    {
      assert u[j..j + 4][0] == u[j] && u[j..j + 4][1] == u[j + 1] && u[j + 4] == u[j + 4];
    }
    assert u[6..10] == "2012" && u[11..13] == "01" && u[6..13] == "2012.01";
    FirstBashoRule(u, 6);
  }
}
