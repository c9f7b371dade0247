/** The receipt-text extractors of the OCR service: given the text recognised on a receipt,
    guess the merchant, the total, the date and the priced items. Recognition itself is not
    part of this model; the current time (`new Date()`) is the parameter `now`. */
module Receipt {
  import opened Text
  import opened Dates
  import NaturalLanguage

  // ---------------------------------------------------------------------------------------
  // Merchant

  const UnknownMerchant: string := "未知商家"

  /** How many non-blank lines are searched for the merchant. */
  const MerchantLines: nat := 5

  predicate NotBlank(line: string) {
    Trim(line) != []
  }

  /** The lines whose trimmed form is not empty, in order: `filter(line => line.trim().length > 0)`. */
  function NonBlank(lines: seq<string>): (r: seq<string>)
    ensures |r| <= |lines|
    ensures forall k :: 0 <= k < |r| ==> Trim(r[k]) != []
    ensures forall l :: l in r ==> l in lines
    ensures forall l :: l in lines && Trim(l) != [] ==> l in r
  {
    Filter(lines, NotBlank)
  }

  /** Filtering a concatenation filters each part and keeps their order. */
  lemma NonBlankAppend(a: seq<string>, b: seq<string>)
    ensures NonBlank(a + b) == NonBlank(a) + NonBlank(b)
  {
    FilterAppend(a, b, NotBlank);
  }

  /** A single line is kept exactly when it is not blank. */
  lemma NonBlankSingle(line: string)
    ensures NonBlank([line]) == if Trim(line) != [] then [line] else []
  {
    assert [line][1..] == [];
  }

  /** A trimmed line that may be the merchant's name: longer than two characters, not
      starting with a digit, and mentioning neither `$`, `元` nor `總計`. */
  predicate MerchantLike(line: string) {
    |line| > 2 && !IsDigit(line[0]) &&
    !Contains(line, "$") && !Contains(line, "元") && !Contains(line, "總計")
  }

  /** A line whose trimmed form looks like a merchant's name. */
  predicate LikelyLine(line: string) {
    MerchantLike(Trim(line))
  }

  /** The first five non-blank lines of the text. */
  function HeadLines(text: string): (r: seq<string>)
    ensures |r| <= MerchantLines
  {
    var lines := NonBlank(SplitLines(text));
    if |lines| <= MerchantLines then lines else lines[..MerchantLines]
  }

  /** `extractMerchant`: a merchant-like line among the first five non-blank ones, or the
      placeholder name. */
  function ExtractMerchant(text: string): (r: string)
    ensures r == UnknownMerchant || MerchantLike(r)
    ensures r == UnknownMerchant || exists k :: 0 <= k < |HeadLines(text)| && r == Trim(HeadLines(text)[k])
  {
    var head := HeadLines(text);
    match FirstWhere(head, LikelyLine)
    case Some(k) => Trim(head[k])
    case None => UnknownMerchant
  }

  /** The first merchant-like line among the first five is the one taken. */
  lemma MerchantIsFirstLikelyLine(text: string, k: nat)
    requires k < |HeadLines(text)| && LikelyLine(HeadLines(text)[k])
    requires forall j :: 0 <= j < k ==> !LikelyLine(HeadLines(text)[j])
    ensures ExtractMerchant(text) == Trim(HeadLines(text)[k])
  {
    FirstWhereIs(HeadLines(text), LikelyLine, k);
  }

  /** Without a merchant-like line among the first five, the name is the placeholder, whatever
      the later lines hold. */
  lemma NoLikelyLineMeansUnknown(text: string)
    requires forall j :: 0 <= j < |HeadLines(text)| ==> !LikelyLine(HeadLines(text)[j])
    ensures ExtractMerchant(text) == UnknownMerchant
  {
    var r := FirstWhere(HeadLines(text), LikelyLine);
  }

  // ---------------------------------------------------------------------------------------
  // Total

  /** The total patterns of `extractTotal`, all under the `i` flag: a label followed by a
      colon (full-width or not), spaces and the number; or the number followed by spaces and
      a unit. */
  datatype TotalPattern = Labelled(heading: string) | NumberUnit(unit: string)

  const TotalPatterns: seq<TotalPattern> :=
    [Labelled("總計"), Labelled("合計"), Labelled("total"), Labelled("小計"),
     NumberUnit("元"), NumberUnit("NTD")]

  /** `heading[：:]\s*(\d+(?:\.\d+)?)` at the start of s, the heading compared case-insensitively. */
  function LabelledAt(s: string, heading: string): (r: Option<real>)
    ensures r.Some? ==> StartsWithFolded(s, heading) && r.value >= 0.0
  {
    if StartsWithFolded(s, heading) && |heading| < |s| && NaturalLanguage.IsOneOf(s[|heading|], "：:") then
      var k := |heading| + 1 + LeadingRun(s[|heading| + 1..], IsSpace);
      match ScanNumeral(s[k..])
      case None => None
      case Some(n) => Some(n.value)
    else None
  }

  function TotalAt(p: TotalPattern, s: string): (r: Option<real>)
    ensures r.Some? ==> r.value >= 0.0
  {
    match p
    case Labelled(heading) => LabelledAt(s, heading)
    case NumberUnit(unit) =>
      (match NumberThenWord(s, [unit]) case Some(m) => Some(m.0) case None => None)
  }

  function TotalMatcher(p: TotalPattern): string -> Option<real> {
    s => TotalAt(p, s)
  }

  /** `text.match(pattern)`: the number captured at the leftmost position where p matches. */
  function PatternTotal(p: TotalPattern, text: string): (r: Option<real>)
    ensures r.Some? ==> r.value >= 0.0
    ensures r.Some? ==> exists i :: 0 <= i <= |text| && TotalAt(p, text[i..]) == r &&
                                    forall j :: 0 <= j < i ==> TotalAt(p, text[j..]).None?
    ensures r.None? ==> forall i :: 0 <= i <= |text| ==> TotalAt(p, text[i..]).None?
  {
    match FindFirst(text, TotalMatcher(p), 0)
    case Some(m) => Some(m.1)
    case None => None
  }

  /** Whether pattern p matches anywhere in the text. */
  function TotalFound(text: string): TotalPattern -> bool {
    p => PatternTotal(p, text).Some?
  }

  /** `text.match(/\d+(?:\.\d+)?/g)`: every numeral, scanning left to right, each match
      starting where the previous one ended. */
  function AllNumerals(s: string): (r: seq<real>)
    ensures forall k :: 0 <= k < |r| ==> r[k] >= 0.0
    ensures r == [] <==> forall i :: 0 <= i < |s| ==> !IsDigit(s[i])
    decreases |s|
  {
    if s == [] then []
    else match ScanNumeral(s)
      case Some(n) => [n.value] + AllNumerals(s[n.length..])
      case None =>
        var rest := AllNumerals(s[1..]);
        assert forall i :: 1 <= i < |s| ==> s[i] == s[1..][i - 1];
        rest
  }

  /** The numeral `\d+(?:\.\d+)?` read at position i of s, if one starts there. */
  function NumeralAt(s: string, i: nat): Option<real> {
    if i < |s| then
      match ScanNumeral(s[i..])
      case Some(n) => Some(n.value)
      case None => None
    else None
  }

  /** Every numeral collected is the one read at some position of the text. */
  lemma {:induction false} NumeralComesFromText(s: string, k: nat)
    requires k < |AllNumerals(s)|
    ensures exists i :: NumeralAt(s, i) == Some(AllNumerals(s)[k])
    decreases |s|
  {
    if s == [] {
      assert false;
    } else if ScanNumeral(s).Some? {
      var n := ScanNumeral(s).value;
      NumeralsStepAtDigit(s);
      if k == 0 {
        assert s[0..] == s;
        assert NumeralAt(s, 0) == Some(AllNumerals(s)[0]);
      } else {
        var t := s[n.length..];
        NumeralComesFromText(t, k - 1);
        var i': nat :| NumeralAt(t, i') == Some(AllNumerals(t)[k - 1]);
        NumeralAtShift(s, n.length, i');
      }
    } else {
      var t := s[1..];
      NumeralsStepAtNonDigit(s);
      NumeralComesFromText(t, k);
      var i': nat :| NumeralAt(t, i') == Some(AllNumerals(t)[k]);
      NumeralAtShift(s, 1, i');
    }
  }

  lemma NumeralsStepAtDigit(s: string)
    requires ScanNumeral(s).Some?
    ensures AllNumerals(s) == [ScanNumeral(s).value.value] + AllNumerals(s[ScanNumeral(s).value.length..])
  {
  }

  lemma NumeralsStepAtNonDigit(s: string)
    requires s != [] && ScanNumeral(s).None?
    ensures AllNumerals(s) == AllNumerals(s[1..])
  {
  }

  lemma NumeralAtShift(s: string, d: nat, i: nat)
    requires d <= |s|
    ensures NumeralAt(s[d..], i) == NumeralAt(s, d + i)
  {
    if i < |s[d..]| {
      assert s[d..][i..] == s[d + i..];
    }
  }

  /** The first numeral collected is the one read at the first digit of the text. */
  lemma {:induction false} FirstNumeralAtFirstDigit(s: string, i: nat)
    requires i < |s| && IsDigit(s[i])
    requires forall j :: 0 <= j < i ==> !IsDigit(s[j])
    ensures AllNumerals(s) != [] && AllNumerals(s)[0] == ScanNumeral(s[i..]).value.value
    decreases i
  {
    if i == 0 {
      assert s[0..] == s;
    } else {
      var t := s[1..];
      assert t[i - 1..] == s[i..];
      assert forall j :: 0 <= j < i - 1 ==> t[j] == s[j + 1];
      FirstNumeralAtFirstDigit(t, i - 1);
    }
  }

  /** `Math.max(...xs)`. */
  function MaxOf(xs: seq<real>): (m: real)
    requires xs != []
    ensures m in xs
    ensures forall k :: 0 <= k < |xs| ==> xs[k] <= m
  {
    if |xs| == 1 then xs[0]
    else
      var m := MaxOf(xs[1..]);
      assert forall k :: 1 <= k < |xs| ==> xs[k] == xs[1..][k - 1];
      if xs[0] >= m then xs[0] else m
  }

  /** `extractTotal`: the number of the first pattern with a match; failing that, the largest
      numeral on the receipt; failing that, 0. */
  function ExtractTotal(text: string): (r: real)
    ensures r >= 0.0
  {
    match FirstWhere(TotalPatterns, TotalFound(text))
    case Some(k) => PatternTotal(TotalPatterns[k], text).value
    case None =>
      var numbers := AllNumerals(text);
      if numbers == [] then 0.0 else MaxOf(numbers)
  }

  /** The patterns are tried in order: the first one with a match anywhere decides, even when a
      later pattern matches earlier in the text. */
  lemma TotalFromFirstMatchingPattern(text: string, k: nat, v: real)
    requires k < |TotalPatterns| && PatternTotal(TotalPatterns[k], text) == Some(v)
    requires forall j :: 0 <= j < k ==> PatternTotal(TotalPatterns[j], text).None?
    ensures ExtractTotal(text) == v
  {
    FirstWhereIs(TotalPatterns, TotalFound(text), k);
  }

  /** Without a labelled or unit match, the total is the largest numeral in the text, and 0 for
      a text with no digit. */
  lemma TotalFallsBackToLargestNumeral(text: string)
    requires forall j :: 0 <= j < |TotalPatterns| ==> PatternTotal(TotalPatterns[j], text).None?
    ensures AllNumerals(text) != [] ==> ExtractTotal(text) in AllNumerals(text)
    ensures forall k :: 0 <= k < |AllNumerals(text)| ==> AllNumerals(text)[k] <= ExtractTotal(text)
    ensures (forall i :: 0 <= i < |text| ==> !IsDigit(text[i])) ==> ExtractTotal(text) == 0.0
  {
    var r := FirstWhere(TotalPatterns, TotalFound(text));
  }

  // ---------------------------------------------------------------------------------------
  // Date

  /** The captures of a date pattern, as `parseInt` reads them: the first, the second and,
      for the patterns with three groups, the third. */
  datatype Captures = Captures(first: nat, second: nat, third: Option<nat>)

  /** The date patterns of `extractDate`, in order: `yyyy[年-]m[月-]d[日]?`, `m[月-]d[日]?`,
      `m/d/yyyy` and `m/d`. */
  datatype DatePattern = YearDashed | MonthDashed | SlashWithYear | Slash

  const DatePatterns: seq<DatePattern> := [YearDashed, MonthDashed, SlashWithYear, Slash]

  /** `(\d{1,2})\/(\d{1,2})\/(\d{4})` at the start of s. */
  function SlashWithYearAt(s: string): (r: Option<Captures>)
    ensures r.Some? ==> r.value.third.Some? && s != [] && IsDigit(s[0])
  {
    var (month, ml) := OneOrTwoDigits(s);
    if ml > 0 && ml < |s| && s[ml] == '/' then
      var (day, dl) := OneOrTwoDigits(s[ml + 1..]);
      var k := ml + 1 + dl;
      if dl > 0 && k + 4 < |s| && s[k] == '/' && AllDigits(s[k + 1..k + 5]) then
        Some(Captures(month, day, Some(DigitsValue(s[k + 1..k + 5]))))
      else None
    else None
  }

  /** Where pattern p matches at the start of s, its captures in group order. */
  function CapturesAt(p: DatePattern, s: string): (r: Option<Captures>)
    ensures r.Some? ==> s != [] && IsDigit(s[0])
    ensures r.Some? ==> (r.value.third.Some? <==> p == YearDashed || p == SlashWithYear)
  {
    match p
    case YearDashed =>
      (match NaturalLanguage.YearMonthDayAt(s)
       case Some(f) => Some(Captures(f.year.value, f.month, Some(f.day)))
       case None => None)
    case MonthDashed =>
      (match NaturalLanguage.MonthDayAt(s)
       case Some(f) => Some(Captures(f.month, f.day, None))
       case None => None)
    case SlashWithYear => SlashWithYearAt(s)
    case Slash =>
      (match NaturalLanguage.SlashMonthDayAt(s)
       case Some(f) => Some(Captures(f.month, f.day, None))
       case None => None)
  }

  function DateMatcher(p: DatePattern): string -> Option<Captures> {
    s => CapturesAt(p, s)
  }

  /** Whether pattern p matches anywhere in the text. */
  function DateFound(text: string): DatePattern -> bool {
    p => FindFirst(text, DateMatcher(p), 0).Some?
  }

  /** `new Date(year, first - 1, second)` at midnight, the year being the third capture when
      the pattern has one and the current year otherwise. */
  function DateOf(c: Captures, now: Moment): Moment {
    Moment(MakeDate(CaptureYear(c, now), MonthIndex(c), c.second), 0)
  }

  /** `month - 1`: the first capture as a month index. */
  function MonthIndex(c: Captures): int {
    c.first - 1
  }

  /** The third capture when the pattern has one, otherwise `new Date().getFullYear()`. */
  function CaptureYear(c: Captures, now: Moment): int {
    if c.third.Some? then c.third.value else now.date.year
  }

  /** `extractDate`: the date of the captures of the first pattern with a match, taken at its
      leftmost match; with no match, the current time. The first capture is read as the month
      whatever the pattern, so for `yyyy-mm-dd` the year becomes the month and the day the
      year. */
  function ExtractDate(text: string, now: Moment): (r: Moment)
    ensures ValidMoment(now) ==> ValidMoment(r)
  {
    match FirstWhere(DatePatterns, DateFound(text))
    case None => now
    case Some(k) => DateOf(FindFirst(text, DateMatcher(DatePatterns[k]), 0).value.1, now)
  }

  /** The patterns are tried in order: the first one with a match anywhere supplies the
      captures, taken at its leftmost match. */
  lemma DateFromFirstMatchingPattern(text: string, now: Moment, k: nat, i: nat, c: Captures)
    requires k < |DatePatterns| && FindFirst(text, DateMatcher(DatePatterns[k]), 0) == Some((i, c))
    requires forall j :: 0 <= j < k ==> FindFirst(text, DateMatcher(DatePatterns[j]), 0).None?
    ensures ExtractDate(text, now) == DateOf(c, now)
  {
    FirstWhereIs(DatePatterns, DateFound(text), k);
  }

  /** When no pattern matches anywhere in the text, the date is the current moment. */
  lemma NoPatternMeansNow(text: string, now: Moment)
    requires forall k :: 0 <= k < |DatePatterns| ==> FindFirst(text, DateMatcher(DatePatterns[k]), 0).None?
    ensures ExtractDate(text, now) == now
  {
    var r := FirstWhere(DatePatterns, DateFound(text));
  }

  /** A text without a digit has no date in it, so the current time is kept. */
  lemma NoDigitMeansNow(text: string, now: Moment)
    requires forall i :: 0 <= i < |text| ==> !IsDigit(text[i])
    ensures ExtractDate(text, now) == now
  {
    var r := FirstWhere(DatePatterns, DateFound(text));
  }

  /** An ISO-style `yyyy-mm-dd` (or `yyyy年m月d日`) date is read with its parts rotated: the day
      gives the year (two digits, so 1900 onwards), the four-digit year gives the month,
      rolling over into later years, and the month gives the day. */
  lemma YearDashedIsRotated(text: string, now: Moment, i: nat, y: nat, mo: nat, d: nat)
    requires FindFirst(text, DateMatcher(YearDashed), 0) == Some((i, Captures(y, mo, Some(d))))
    requires 1 <= mo <= 12
    ensures ExtractDate(text, now).date == CivilDate(FullYear(d) + (y - 1) / 12, (y - 1) % 12, mo)
    ensures ExtractDate(text, now).ms == 0
  {
    DateFromFirstMatchingPattern(text, now, 0, i, Captures(y, mo, Some(d)));
    RotatedDate(y, mo, d, now);
  }

  /** `new Date(d, y - 1, mo)` for a day number mo that no month overflows. */
  lemma RotatedDate(y: nat, mo: nat, d: nat, now: Moment)
    requires 1 <= mo <= 12
    ensures DateOf(Captures(y, mo, Some(d)), now) == Moment(CivilDate(FullYear(d) + (y - 1) / 12, (y - 1) % 12, mo), 0)
  {
    var c := Captures(y, mo, Some(d));
    var mi := MonthIndex(c);
    assert CaptureYear(c, now) == d;
    MakeDateEarlyDay(d, mi, mo);
  }

  /** The pattern `yyyy[年-]m[月-]d` at the start of "2024-03-15". */
  lemma IsoDateCaptures()
    ensures CapturesAt(YearDashed, "2024-03-15") == Some(Captures(2024, 3, Some(15)))
  {
    var s := "2024-03-15";
    assert AllDigits(s[..4]) && s[4] == '-' && s[7] == '-';
    assert DigitsValue(s[..4]) == 2024 by {
      assert s[..4] == "2024";
      assert "2024"[..3] == "202" && "202"[..2] == "20" && "20"[..1] == "2";
    }
    assert OneOrTwoDigits(s[5..]) == (3, 2) by {
      assert s[5..][0] == '0' && s[5..][1] == '3' && s[5..][..2] == "03";
      assert DigitsValue("03") == 3 by { assert "03"[..1] == "0" && "0"[..0] == ""; }
    }
    assert OneOrTwoDigits(s[8..]) == (15, 2) by {
      assert s[8..][0] == '1' && s[8..][1] == '5' && s[8..][..2] == "15";
      assert DigitsValue("15") == 15 by { assert "15"[..1] == "1" && "1"[..0] == ""; }
    }
  }

  /** The dashed date "2024-03-15" comes out as the 3rd of August 2083. */
  lemma IsoDateExample(now: Moment)
    ensures ExtractDate("2024-03-15", now).date == CivilDate(2083, 7, 3)
  {
    IsoDateCaptures();
    var s := "2024-03-15";
    assert s[0..] == s;
    assert FindFirst(s, DateMatcher(YearDashed), 0) == Some((0, Captures(2024, 3, Some(15))));
    YearDashedIsRotated(s, now, 0, 2024, 3, 15);
    assert FullYear(15) + (2024 - 1) / 12 == 2083 && (2024 - 1) % 12 == 7;
  }

  /** Without `月` and `-` neither dashed pattern can match anywhere. */
  lemma NoDashedMatch(text: string)
    requires forall j :: 0 <= j < |text| ==> text[j] != '月' && text[j] != '-'
    ensures forall j :: 0 <= j < 2 ==> FindFirst(text, DateMatcher(DatePatterns[j]), 0).None?
  {
    var year, month := DateMatcher(YearDashed), DateMatcher(MonthDashed);
    forall j | 0 <= j <= |text|
      ensures year(text[j..]).None? && month(text[j..]).None?
    {
      var s := text[j..];
      assert forall k :: 0 <= k < |s| ==> s[k] != '月' && s[k] != '-';
      NoDashedMatchAt(s);
    }
    assert FindFirst(text, year, 0).None?;
    assert FindFirst(text, month, 0).None?;
    assert DatePatterns[0] == YearDashed && DatePatterns[1] == MonthDashed;
  }

  lemma NoDashedMatchAt(s: string)
    requires forall k :: 0 <= k < |s| ==> s[k] != '月' && s[k] != '-'
    ensures NaturalLanguage.YearMonthDayAt(s).None? && NaturalLanguage.MonthDayAt(s).None?
  {
  }

  /** A `m/d/yyyy` date naming a real day is read as that day, at midnight, provided no
      earlier pattern can match (no `月` and no `-` in the text). */
  lemma SlashDateWithYear(text: string, now: Moment, i: nat, mo: nat, d: nat, y: nat)
    requires forall j :: 0 <= j < |text| ==> text[j] != '月' && text[j] != '-'
    requires FindFirst(text, DateMatcher(SlashWithYear), 0) == Some((i, Captures(mo, d, Some(y))))
    requires 1 <= mo <= 12 && y == FullYear(y) && Valid(CivilDate(y, mo - 1, d))
    ensures ExtractDate(text, now) == Moment(CivilDate(y, mo - 1, d), 0)
  {
    var c := Captures(mo, d, Some(y));
    NoDashedMatch(text);
    assert DatePatterns[2] == SlashWithYear;
    DateFromFirstMatchingPattern(text, now, 2, i, c);
    DateInRange(mo, d, y, now);
  }

  /** Captures naming a real day of a four-digit year give that very day. */
  lemma DateInRange(mo: nat, d: nat, y: nat, now: Moment)
    requires y == FullYear(y) && Valid(CivilDate(y, mo - 1, d))
    ensures DateOf(Captures(mo, d, Some(y)), now) == Moment(CivilDate(y, mo - 1, d), 0)
  {
    var c := Captures(mo, d, Some(y));
    var mi := MonthIndex(c);
    assert CaptureYear(c, now) == y;
    MakeDateInRange(y, mi, d);
  }

  // ---------------------------------------------------------------------------------------
  // Items

  /** A priced line of the receipt. */
  datatype Item = Item(name: string, price: real)

  /** `(\d+(?:\.\d+)?)\s*元?` at the start of s: the number and the match length. */
  function PriceAt(s: string): (r: Option<(real, nat)>)
    ensures r.Some? <==> s != [] && IsDigit(s[0])
    ensures r.Some? ==> 0 < r.value.1 <= |s| && r.value.0 == ScanNumeral(s).value.value
  {
    match ScanNumeral(s)
    case None => None
    case Some(n) =>
      var k := n.length + LeadingRun(s[n.length..], IsSpace);
      Some((n.value, if k < |s| && s[k] == '元' then k + 1 else k))
  }

  function PriceMatcher(): string -> Option<(real, nat)> {
    s => PriceAt(s)
  }

  /** The item of one line: the first numeral (with trailing spaces and `元`) is the price,
      the rest of the line, trimmed, the name; kept when both are meaningful. */
  function ItemOf(line: string): (r: Option<Item>)
    ensures r.Some? ==> r.value.name != [] && r.value.price > 0.0
  {
    match FindFirst(line, PriceMatcher(), 0)
    case None => None
    case Some(hit) => ItemAround(line, hit.0, hit.1.0, hit.1.1)
  }

  /** The item for a price match of length len at position i of the line. */
  function ItemAround(line: string, i: nat, price: real, len: nat): (r: Option<Item>)
    requires i + len <= |line|
    ensures r.Some? ==> r.value.name != [] && r.value.price > 0.0
  {
    var name := Trim(line[..i] + line[i + len..]);
    if name != [] && price > 0.0 then Some(Item(name, price)) else None
  }

  /** The price is the numeral starting at the line's first digit, the name what is left of
      the line once that price match is cut out, trimmed; the item exists exactly when that
      name is not empty and the price positive. A line without a digit gives no item. */
  lemma ItemAtFirstDigit(line: string, i: nat)
    requires i < |line| && IsDigit(line[i]) && forall j :: 0 <= j < i ==> !IsDigit(line[j])
    ensures ItemOf(line).Some? ==> ItemOf(line).value.price == ScanNumeral(line[i..]).value.value
    ensures var m := PriceAt(line[i..]).value;
      var name := Trim(line[..i] + line[i + m.1..]);
      ItemOf(line) == if name != [] && m.0 > 0.0 then Some(Item(name, m.0)) else None
  {
    PriceMatchAtFirstDigit(line, i);
    var m := PriceAt(line[i..]).value;
    assert ItemOf(line) == ItemAround(line, i, m.0, m.1);
  }

  /** The leftmost price match starts at the first digit. */
  lemma PriceMatchAtFirstDigit(line: string, i: nat)
    requires i < |line| && IsDigit(line[i]) && forall j :: 0 <= j < i ==> !IsDigit(line[j])
    ensures PriceAt(line[i..]).Some?
    ensures FindFirst(line, PriceMatcher(), 0) == Some((i, PriceAt(line[i..]).value))
  {
    var p := PriceMatcher();
    assert line[i..][0] == line[i];
    assert p(line[i..]) == PriceAt(line[i..]);
    forall k | 0 <= k < i
      ensures p(line[k..]).None?
    {
      assert line[k..][0] == line[k];
    }
    var m := FindFirst(line, p, 0);
    assert m.value.0 == i;
  }

  lemma NoDigitNoItem(line: string)
    requires forall j :: 0 <= j < |line| ==> !IsDigit(line[j])
    ensures ItemOf(line).None?
  {
    var m := FindFirst(line, PriceMatcher(), 0);
  }

  /** The items of the lines, in line order, at most one per line. */
  function ItemsOf(lines: seq<string>): (r: seq<Item>)
    ensures |r| <= |lines|
    ensures forall k :: 0 <= k < |r| ==> r[k].name != [] && r[k].price > 0.0
  {
    var r := Collect(lines, ItemOf);
    assert forall k :: 0 <= k < |r| ==> exists j :: 0 <= j < |lines| && ItemOf(lines[j]) == Some(r[k]);
    r
  }

  /** Items of consecutive blocks of lines come out one block after the other. */
  lemma ItemsOfAppend(a: seq<string>, b: seq<string>)
    ensures ItemsOf(a + b) == ItemsOf(a) + ItemsOf(b)
  {
    CollectAppend(a, b, ItemOf);
  }

  /** A single line gives its item, if it has one. */
  lemma ItemsOfSingle(line: string)
    ensures ItemsOf([line]) == if ItemOf(line).Some? then [ItemOf(line).value] else []
  {
    assert [line][..0] == [];
  }

  /** `extractItems`: one pass over the lines, collecting each line's item. */
  method ExtractItems(text: string) returns (items: seq<Item>)
    ensures items == ItemsOf(SplitLines(text))
  {
    var lines := SplitLines(text);
    items := [];
    for i := 0 to |lines|
      invariant items == Collect(lines[..i], ItemOf)
    {
      var item := ItemOf(lines[i]);
      CollectStep(lines, i, ItemOf);
      if item.Some? {
        items := items + [item.value];
      }
    }
    assert lines[..|lines|] == lines;
  }
}
