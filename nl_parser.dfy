/** The natural-language expense parser (`NaturalLanguageParser`): a free-text utterance is
    turned into an optional amount, currency, description, category, account hint and date,
    with an additive confidence score kept here in integer tenths (0.3 is 3). The clock is a
    parameter (`now`), and every fixed regular expression is a hand-coded matcher from Text. */
module NaturalLanguage {
  import opened Text
  import opened Dates

  /** One row of a first-match-wins keyword table: a name and its keywords. */
  datatype Entry = Entry(name: string, keywords: seq<string>)

  const CategoryTable: seq<Entry> := [
    Entry("餐飲", ["吃", "餐廳", "食物", "午餐", "晚餐", "早餐", "咖啡", "飲料", "便當", "小吃", "火鍋", "燒烤", "日式", "中式", "西式"]),
    Entry("交通", ["車", "油", "停車", "捷運", "公車", "計程車", "uber", "grab", "機車", "汽車", "加油", "車票", "高鐵", "台鐵"]),
    Entry("購物", ["買", "購物", "衣服", "鞋子", "包包", "化妝品", "3C", "家電", "超市", "百貨", "網購", "amazon", "蝦皮"]),
    Entry("娛樂", ["電影", "遊戲", "娛樂", "唱歌", "KTV", "酒吧", "夜店", "遊樂園", "展覽", "演唱會", "音樂會"]),
    Entry("醫療", ["醫院", "藥", "看醫生", "健保", "診所", "牙醫", "眼科", "皮膚科", "掛號", "藥局"]),
    Entry("教育", ["書", "課程", "學費", "補習", "家教", "線上課程", "證照", "考試", "文具", "教材"]),
    Entry("生活", ["水電", "瓦斯", "網路", "手機", "房租", "管理費", "清潔", "洗衣", "理髮", "美容"]),
    Entry("其他", ["其他", "雜項", "未分類"])
  ]

  const CurrencyTable: seq<Entry> := [
    Entry("TWD", ["元", "塊", "台幣", "NTD", "新台幣"]),
    Entry("USD", ["美金", "美元", "USD", "dollar"]),
    Entry("EUR", ["歐元", "EUR", "euro"]),
    Entry("JPY", ["日圓", "日幣", "JPY", "yen"])
  ]

  const AccountTable: seq<Entry> := [
    Entry("現金", ["現金", "錢包", "零錢"]),
    Entry("信用卡", ["信用卡", "卡", "visa", "mastercard"]),
    Entry("銀行", ["銀行", "帳戶", "戶頭", "轉帳"]),
    Entry("電子錢包", ["電子錢包", "line pay", "街口", "apple pay", "google pay"])
  ]

  const DefaultCategory: string := "其他"
  const HomeCurrency: string := "TWD"

  /** `keywords.some(keyword => lowerText.includes(keyword.toLowerCase()))`. */
  function AnyKeyword(lowerText: string, keywords: seq<string>): (b: bool)
    ensures b <==> exists i :: 0 <= i < |keywords| && Contains(lowerText, Lower(keywords[i]))
  {
    if keywords == [] then false
    else Contains(lowerText, Lower(keywords[0])) || AnyKeyword(lowerText, keywords[1..])
  }

  predicate Hit(lowerText: string, e: Entry) {
    AnyKeyword(lowerText, e.keywords)
  }

  /** Index of the first row, in table order, with a keyword in the text. */
  function FirstHit(table: seq<Entry>, lowerText: string): (r: Option<nat>)
    ensures r.Some? ==> r.value < |table| && Hit(lowerText, table[r.value])
    ensures r.Some? ==> forall j :: 0 <= j < r.value ==> !Hit(lowerText, table[j])
    ensures r.None? ==> forall j :: 0 <= j < |table| ==> !Hit(lowerText, table[j])
  {
    if table == [] then None
    else if Hit(lowerText, table[0]) then Some(0)
    else match FirstHit(table[1..], lowerText)
      case None => None
      case Some(k) => Some(k + 1)
  }

  /** The loop over `Object.entries(table)` with early return. */
  function Classify(table: seq<Entry>, text: string, fallback: string): string {
    match FirstHit(table, Lower(text))
    case Some(j) => table[j].name
    case None => fallback
  }

  /** First match wins: `Classify` gives the name of the first row, in table order, with a
      keyword in the lower-cased text, and the fallback exactly when no row has one. */
  lemma ClassifyFirstMatch(table: seq<Entry>, text: string, fallback: string)
    ensures (exists j :: 0 <= j < |table| && Hit(Lower(text), table[j])) ==>
      exists j :: (0 <= j < |table| && Classify(table, text, fallback) == table[j].name && Hit(Lower(text), table[j]) &&
        forall i :: 0 <= i < j ==> !Hit(Lower(text), table[i]))
    ensures (forall j :: 0 <= j < |table| ==> !Hit(Lower(text), table[j])) ==> Classify(table, text, fallback) == fallback
  {
    var r := FirstHit(table, Lower(text));
    if r.Some? {
      var j := r.value;
      assert Classify(table, text, fallback) == table[j].name;
    }
  }

  predicate NonEmptyLabels(table: seq<Entry>) {
    forall j :: 0 <= j < |table| ==> table[j].name != ""
  }

  /** `extractCategory`: never empty; the catch-all when no keyword matches. */
  function ExtractCategory(text: string): (r: string)
    ensures r != ""
    ensures r == DefaultCategory || exists j :: 0 <= j < |CategoryTable| && r == CategoryTable[j].name
  {
    assert NonEmptyLabels(CategoryTable);
    Classify(CategoryTable, text, DefaultCategory)
  }

  /** `extractAccount`: '' exactly when no account keyword occurs. */
  function ExtractAccount(text: string): string {
    Classify(AccountTable, text, "")
  }

  /** No account hint is given exactly when no account keyword occurs. */
  lemma AccountEmptyIff(text: string)
    ensures ExtractAccount(text) == "" <==> forall j :: 0 <= j < |AccountTable| ==> !Hit(Lower(text), AccountTable[j])
  {
    assert NonEmptyLabels(AccountTable);
    var r := FirstHit(AccountTable, Lower(text));
  }

  /** Any mention of an e-wallet ("電子錢包") also contains the cash keyword "錢包", and the cash
      row comes first, so such a text is always booked to cash. */
  lemma EWalletCountsAsCash(text: string)
    requires Contains(text, "電子錢包")
    ensures ExtractAccount(text) == "現金"
  {
    ContainsInner(text, "電子錢包", "錢包", 2);
    ContainsLower(text, "錢包");
    assert Lower("錢包") == "錢包";
    assert Hit(Lower(text), AccountTable[0]) by {
      assert AccountTable[0].keywords[1] == "錢包";
    }
    assert FirstHit(AccountTable, Lower(text)) == Some(0);
  }

  /** The currency scan of `extractAmount`: the whole text against the TWD, USD, EUR and JPY
      keyword lists in that order; TWD when none occurs. */
  function DetectCurrency(text: string): (r: string)
    ensures r in ["TWD", "USD", "EUR", "JPY"]
  {
    Classify(CurrencyTable, text, HomeCurrency)
  }

  /** A substring of an occurrence is an occurrence. */
  lemma ContainsInner(s: string, p: string, q: string, k: nat)
    requires Contains(s, p) && k + |q| <= |p| && p[k..k + |q|] == q
    ensures Contains(s, q)
  {
    var i :| 0 <= i <= |s| && StartsWith(s[i..], p);
    assert s[i + k..][..|q|] == p[k..k + |q|];
  }

  /** Lower-casing both sides keeps an occurrence. */
  lemma ContainsLower(s: string, p: string)
    requires Contains(s, p)
    ensures Contains(Lower(s), Lower(p))
  {
    var i :| 0 <= i <= |s| && StartsWith(s[i..], p);
    assert Lower(s)[i..][..|p|] == Lower(p);
  }

  /** Any text with '元' in it, '美元' included, is priced in TWD: '元' is a TWD keyword and the
      TWD list is scanned first. */
  lemma YuanMeansTwd(text: string)
    requires Contains(text, "元")
    ensures DetectCurrency(text) == HomeCurrency
  {
    ContainsLower(text, "元");
    assert Lower("元") == "元";
    assert Hit(Lower(text), CurrencyTable[0]) by {
      assert CurrencyTable[0].keywords[0] == "元";
    }
    assert FirstHit(CurrencyTable, Lower(text)) == Some(0);
  }

  lemma DollarInChineseMeansTwd(text: string)
    requires Contains(text, "美元")
    ensures DetectCurrency(text) == HomeCurrency
  {
    ContainsInner(text, "美元", "元", 1);
    YuanMeansTwd(text);
  }

  /** The amount patterns of `extractAmount`, in priority order. */
  datatype AmountPattern = NumberUnit(units: seq<string>) | VerbNumber(verb: string)

  const AmountPatterns: seq<AmountPattern> := [
    NumberUnit(["元", "塊", "台幣", "NTD"]),
    NumberUnit(["美金", "美元", "USD"]),
    NumberUnit(["歐元", "EUR"]),
    NumberUnit(["日圓", "日幣", "JPY"]),
    NumberUnit(["錢", "花費", "支出"]),
    VerbNumber("花了"),
    VerbNumber("付了"),
    VerbNumber("用了")
  ]

  /** The captured number when pattern p matches at the start of s. */
  function AmountAt(p: AmountPattern, s: string): Option<real> {
    match p
    case NumberUnit(units) =>
      (match NumberThenWord(s, units) case Some(m) => Some(m.0) case None => None)
    case VerbNumber(verb) =>
      (match WordThenNumber(s, verb) case Some(m) => Some(m.0) case None => None)
  }

  function AmountMatcher(p: AmountPattern): string -> Option<real> {
    s => AmountAt(p, s)
  }

  /** `text.match(pattern)`: the number captured at the leftmost position where p matches. */
  function PatternAmount(p: AmountPattern, text: string): (r: Option<real>)
    ensures r.Some? ==> exists i :: 0 <= i <= |text| && AmountAt(p, text[i..]) == r &&
                                    forall j :: 0 <= j < i ==> AmountAt(p, text[j..]).None?
    ensures r.None? ==> forall i :: 0 <= i <= |text| ==> AmountAt(p, text[i..]).None?
  {
    match FindFirst(text, AmountMatcher(p), 0)
    case Some(m) => Some(m.1)
    case None => None
  }

  /** Whether pattern p matches anywhere in the text. */
  function AmountFound(text: string): AmountPattern -> bool {
    p => PatternAmount(p, text).Some?
  }

  /** `extractAmount`: the number from the first pattern that matches (0 included), and the
      currency from the separate keyword scan of the whole text; None for `{}`. */
  function ExtractAmount(text: string): (r: Option<(real, string)>)
    ensures r.Some? ==> r.value.0 >= 0.0 && r.value.1 == DetectCurrency(text)
  {
    match FirstWhere(AmountPatterns, AmountFound(text))
    case Some(k) =>
      NonNegativeAmount(AmountPatterns[k], text);
      Some((PatternAmount(AmountPatterns[k], text).value, DetectCurrency(text)))
    case None => None
  }

  /** The amount is the number of the first pattern, in priority order, that matches anywhere;
      there is none exactly when no pattern matches. */
  lemma ExtractAmountFirstPattern(text: string)
    ensures ExtractAmount(text).Some? ==> exists k :: (0 <= k < |AmountPatterns| &&
      PatternAmount(AmountPatterns[k], text) == Some(ExtractAmount(text).value.0) &&
      forall j :: 0 <= j < k ==> PatternAmount(AmountPatterns[j], text).None?)
    ensures ExtractAmount(text).None? <==> forall k :: 0 <= k < |AmountPatterns| ==> PatternAmount(AmountPatterns[k], text).None?
  {
    var r := FirstWhere(AmountPatterns, AmountFound(text));
    if r.Some? {
      var k := r.value;
      assert AmountFound(text)(AmountPatterns[k]);
      assert ExtractAmount(text) == Some((PatternAmount(AmountPatterns[k], text).value, DetectCurrency(text)));
      assert forall j :: 0 <= j < k ==> !AmountFound(text)(AmountPatterns[j]);
    } else {
      assert ExtractAmount(text).None?;
      assert forall j :: 0 <= j < |AmountPatterns| ==> !AmountFound(text)(AmountPatterns[j]);
    }
  }

  lemma NonNegativeAmount(p: AmountPattern, text: string)
    ensures PatternAmount(p, text).Some? ==> PatternAmount(p, text).value >= 0.0
  {
    if PatternAmount(p, text).Some? {
      var i :| 0 <= i <= |text| && AmountAt(p, text[i..]) == PatternAmount(p, text);
    }
  }

  /** Units removed from the description (the amount patterns' unit words, joined). */
  const DescriptionUnits: seq<string> :=
    ["元", "塊", "台幣", "NTD", "美金", "美元", "USD", "歐元", "EUR", "日圓", "日幣", "JPY", "錢", "花費", "支出"]

  const Verbs: seq<string> := ["花了", "買了", "付了", "用了", "支出", "花費"]

  /** Length of `\d+(?:\.\d+)?\s*(?:元|…|支出)` (flag i) at the start of s; 0 for no match. */
  function AmountTokenLength(s: string): nat {
    match NumberThenWord(s, DescriptionUnits)
    case Some(m) => m.1
    case None => 0
  }

  /** Length of `(花了|買了|付了|用了|支出|花費)\s*` at the start of s; 0 for no match. */
  function VerbLength(s: string): nat {
    match FirstWordAt(s, Verbs)
    case Some(k) => |Verbs[k]| + LeadingRun(s[|Verbs[k]|..], IsSpace)
    case None => 0
  }

  /** Length of `\s+` at the start of s. */
  function SpaceRunLength(s: string): nat {
    LeadingRun(s, IsSpace)
  }

  /** The replace chain of `extractDescription`, before the fallback to the original text. */
  function StripDescription(text: string): string {
    Trim(ReplaceAll(ReplaceAll(ReplaceAll(text, AmountTokenLength, ""), VerbLength, ""), SpaceRunLength, " "))
  }

  /** `extractDescription`: the stripped text, or the text itself when nothing is left. */
  function ExtractDescription(text: string): (r: string)
    ensures r == "" <==> text == ""
    ensures r == text || (Trim(r) == r && NoDoubleSpace(r))
    ensures StripDescription(text) == "" ==> r == text
  {
    var d := StripDescription(text);
    if d == "" then text
    else
      CollapsedHasNoDoubleSpace(ReplaceAll(ReplaceAll(text, AmountTokenLength, ""), VerbLength, ""));
      TrimIdempotent(ReplaceAll(ReplaceAll(ReplaceAll(text, AmountTokenLength, ""), VerbLength, ""), SpaceRunLength, " "));
      d
  }

  predicate NoDoubleSpace(s: string) {
    forall i :: 0 <= i < |s| - 1 ==> !(IsSpace(s[i]) && IsSpace(s[i + 1]))
  }

  /** After `replace(/\s+/g, ' ')` no two whitespace characters are adjacent, and trimming
      keeps that. */
  lemma {:induction false} CollapsedHasNoDoubleSpace(s: string)
    ensures NoDoubleSpace(ReplaceAll(s, SpaceRunLength, " "))
    ensures NoDoubleSpace(Trim(ReplaceAll(s, SpaceRunLength, " ")))
    decreases |s|
  {
    var c := ReplaceAll(s, SpaceRunLength, " ");
    if s != [] {
      var n := SpaceRunLength(s);
      if 0 < n <= |s| {
        CollapsedHasNoDoubleSpace(s[n..]);
        var rest := ReplaceAll(s[n..], SpaceRunLength, " ");
        assert c == " " + rest;
        if rest != [] {
          StartNotSpaceAfterRun(s, n);
        }
      } else {
        CollapsedHasNoDoubleSpace(s[1..]);
        assert c == [s[0]] + ReplaceAll(s[1..], SpaceRunLength, " ");
      }
    }
    TrimKeepsNoDoubleSpace(c);
  }

  /** What follows a maximal whitespace run does not start with whitespace once collapsed. */
  lemma StartNotSpaceAfterRun(s: string, n: nat)
    requires 0 < n <= |s| && n == SpaceRunLength(s)
    requires ReplaceAll(s[n..], SpaceRunLength, " ") != []
    ensures !IsSpace(ReplaceAll(s[n..], SpaceRunLength, " ")[0])
  {
    var t := s[n..];
    assert t != [];
    assert !IsSpace(t[0]);
    assert SpaceRunLength(t) == 0;
  }

  lemma TrimKeepsNoDoubleSpace(s: string)
    requires NoDoubleSpace(s)
    ensures NoDoubleSpace(Trim(s))
  {
    var a := LeadingRun(s, IsSpace);
    if a < |s| {
      var b := |s| - TrailingRun(s[a..], IsSpace);
      assert Trim(s) == s[a..b];
      forall i | 0 <= i < |s[a..b]| - 1
        ensures !(IsSpace(s[a..b][i]) && IsSpace(s[a..b][i + 1]))
      {
        assert s[a..b][i] == s[a + i] && s[a..b][i + 1] == s[a + i + 1];
      }
    }
  }

  /** Trimming twice trims no more than trimming once. */
  lemma TrimIdempotent(s: string)
    ensures Trim(Trim(s)) == Trim(s)
  {
    var t := Trim(s);
    if t == [] {
      assert Trim(t) == [];
    }
  }

  /** No digit, no whitespace and no verb initial (花, 買, 付, 用, 支). */
  predicate Clean(text: string) {
    forall i :: 0 <= i < |text| ==> !IsDigit(text[i]) && !IsSpace(text[i]) && text[i] !in "花買付用支"
  }

  /** Clean text has nothing to strip: its description is the text itself. */
  lemma CleanTextIsItsOwnDescription(text: string)
    requires Clean(text)
    ensures ExtractDescription(text) == text
  {
    CleanSurvives(text);
  }

  /** None of the three replacements and not the trim changes clean text. */
  lemma {:induction false} CleanSurvives(text: string)
    requires Clean(text)
    ensures ReplaceAll(text, AmountTokenLength, "") == text
    ensures ReplaceAll(text, VerbLength, "") == text
    ensures ReplaceAll(text, SpaceRunLength, " ") == text
    ensures text != [] ==> Trim(text) == text
  {
    forall i | 0 <= i < |text|
      ensures AmountTokenLength(text[i..]) == 0
    {
      assert text[i..][0] == text[i];
    }
    ReplaceAllNoMatch(text, AmountTokenLength, "");
    forall i | 0 <= i < |text|
      ensures VerbLength(text[i..]) == 0
    {
      NoVerbAt(text[i..]);
    }
    ReplaceAllNoMatch(text, VerbLength, "");
    forall i | 0 <= i < |text|
      ensures SpaceRunLength(text[i..]) == 0
    {
      assert text[i..][0] == text[i];
    }
    ReplaceAllNoMatch(text, SpaceRunLength, " ");
    if text != [] {
      assert Trim(text) == text;
    }
  }

  lemma CleanConcat(a: string, b: string)
    requires Clean(a) && Clean(b)
    ensures Clean(a + b)
  {
    forall i | 0 <= i < |a + b|
      ensures !IsDigit((a + b)[i]) && !IsSpace((a + b)[i]) && (a + b)[i] !in "花買付用支"
    {
      if i < |a| {
        assert (a + b)[i] == a[i];
      } else {
        assert (a + b)[i] == b[i - |a|];
      }
    }
  }

  /** A unit word's first letter, case-folded, decides its length; no unit starts with a digit,
      a dot or whitespace. */
  lemma UnitsByFirstLetter()
    ensures forall i :: 0 <= i < |DescriptionUnits| ==>
      (DescriptionUnits[i] != [] && !IsDigit(DescriptionUnits[i][0]) &&
       !IsSpace(DescriptionUnits[i][0]) && DescriptionUnits[i][0] != '.')
    ensures forall i, j :: (0 <= i < |DescriptionUnits| && 0 <= j < |DescriptionUnits| &&
                            LowerChar(DescriptionUnits[i][0]) == LowerChar(DescriptionUnits[j][0])) ==>
      |DescriptionUnits[i]| == |DescriptionUnits[j]|
  {
  }

  lemma UnitStart(u: string)
    requires u in DescriptionUnits
    ensures u != [] && !IsDigit(u[0]) && !IsSpace(u[0]) && u[0] != '.'
  {
    UnitsByFirstLetter();
  }

  /** The numeral read before a unit word is the whole digit string. */
  lemma NumeralBeforeUnit(d: string, u: string, b: string)
    requires d != [] && AllDigits(d) && u in DescriptionUnits
    ensures ScanNumeral(d + u + b).Some? && ScanNumeral(d + u + b).value.length == |d|
  {
    UnitStart(u);
    var s := d + u + b;
    assert s[|d|] == u[0];
    assert forall k :: 0 <= k < |d| ==> s[k] == d[k];
    LeadingRunIs(s, IsDigit, |d|);
  }

  /** The unit alternation, tried on a text that starts with a unit word, matches a word of the
      same length. */
  lemma UnitMatchLength(u: string, b: string)
    requires u in DescriptionUnits
    ensures FirstWordAt(u + b, DescriptionUnits).Some?
    ensures |DescriptionUnits[FirstWordAt(u + b, DescriptionUnits).value]| == |u|
  {
    UnitsByFirstLetter();
    var s := u + b;
    assert s[..|u|] == u;
    assert StartsWithFolded(s, u);
    var f := FirstWordAt(s, DescriptionUnits);
    var w := DescriptionUnits[f.value];
    assert Lower(s[..|w|])[0] == LowerChar(u[0]);
    assert Lower(w)[0] == LowerChar(w[0]);
  }

  /** A digit string followed by a unit word is an amount token covering exactly both. */
  lemma AmountTokenAt(d: string, u: string, b: string)
    requires d != [] && AllDigits(d) && u in DescriptionUnits
    ensures AmountTokenLength(d + u + b) == |d| + |u|
  {
    UnitStart(u);
    var s := d + u + b;
    NumeralBeforeUnit(d, u, b);
    assert s[|d|..] == u + b;
    LeadingRunIs(u + b, IsSpace, 0);
    UnitMatchLength(u, b);
    var k := FirstWordAt(u + b, DescriptionUnits).value;
    NumberThenWordAt(s, DescriptionUnits, |d|, k);
  }

  /** When the amount and verb replacements leave clean, non-empty text, that text is the
      description. */
  lemma CleanAfterVerbs(s: string, c: string)
    requires Clean(c) && c != ""
    requires ReplaceAll(ReplaceAll(s, AmountTokenLength, ""), VerbLength, "") == c
    ensures ExtractDescription(s) == c
  {
    CleanSurvives(c);
    assert StripDescription(s) == c;
  }

  /** Stripping removes a number with its unit from between two clean pieces of text. */
  lemma StripsAmountToken(a: string, d: string, u: string, b: string)
    requires Clean(a) && Clean(b) && a + b != ""
    requires d != [] && AllDigits(d) && u in DescriptionUnits
    ensures ExtractDescription(a + d + u + b) == a + b
  {
    var t := d + u + b;
    var s := a + t;
    assert a + d + u + b == s;
    forall i | 0 <= i < |a|
      ensures AmountTokenLength(s[i..]) == 0
    {
      assert s[i..][0] == a[i];
    }
    ReplaceAllSkip(a, t, AmountTokenLength, "");
    AmountTokenAt(d, u, b);
    assert t[|d| + |u|..] == b;
    CleanSurvives(b);
    assert ReplaceAll(t, AmountTokenLength, "") == b;
    CleanConcat(a, b);
    CleanSurvives(a + b);
    CleanAfterVerbs(s, a + b);
  }

  /** Every verb is two characters long, neither of them a digit. */
  lemma VerbsShape()
    ensures forall k :: 0 <= k < |Verbs| ==> |Verbs[k]| == 2 && !IsDigit(Verbs[k][0]) && !IsDigit(Verbs[k][1])
  {
  }

  /** A verb followed by text that does not start with whitespace is stripped exactly. */
  lemma VerbAt(v: string, b: string)
    requires v in Verbs && (b == [] || !IsSpace(b[0]))
    ensures VerbLength(v + b) == |v|
  {
    VerbsShape();
    var s := v + b;
    assert s[..|v|] == v;
    assert StartsWithFolded(s, v);
    assert s[|v|..] == b;
  }

  /** Stripping removes a verb from between two clean pieces of text. */
  lemma StripsVerb(a: string, v: string, b: string)
    requires Clean(a) && Clean(b) && a + b != ""
    requires v in Verbs
    ensures ExtractDescription(a + v + b) == a + b
  {
    VerbsShape();
    var t := v + b;
    var s := a + t;
    assert a + v + b == s;
    forall i | 0 <= i < |s|
      ensures !IsDigit(s[i])
    {
      if i < |a| {
        assert s[i] == a[i];
      } else if i < |a| + |v| {
        assert s[i] == v[i - |a|];
      } else {
        assert s[i] == b[i - |a| - |v|];
      }
    }
    NoDigitNoAmountToken(s);
    forall i | 0 <= i < |a|
      ensures VerbLength(s[i..]) == 0
    {
      assert s[i..][0] == a[i];
      NoVerbAt(s[i..]);
    }
    ReplaceAllSkip(a, t, VerbLength, "");
    VerbAt(v, b);
    assert t[|v|..] == b;
    CleanSurvives(b);
    assert ReplaceAll(t, VerbLength, "") == b;
    CleanConcat(a, b);
    CleanAfterVerbs(s, a + b);
  }

  lemma NoDigitNoAmountToken(s: string)
    requires forall i :: 0 <= i < |s| ==> !IsDigit(s[i])
    ensures ReplaceAll(s, AmountTokenLength, "") == s
  {
    forall i | 0 <= i < |s|
      ensures AmountTokenLength(s[i..]) == 0
    {
      assert s[i..][0] == s[i];
    }
    ReplaceAllNoMatch(s, AmountTokenLength, "");
  }

  lemma NoVerbAt(s: string)
    requires s != [] && s[0] !in "花買付用支"
    ensures VerbLength(s) == 0
  {
    forall k | 0 <= k < |Verbs|
      ensures !StartsWithFolded(s, Verbs[k])
    {
      if |Verbs[k]| <= |s| {
        assert Lower(s[..|Verbs[k]|])[0] == LowerChar(s[0]);
        assert Lower(Verbs[k])[0] == Verbs[k][0];
        assert Verbs[k][0] in "花買付用支";
      }
    }
  }

  /** The weekday words, Monday to Sunday twice; index i stands for `getDay()` value i % 7,
      so 週一 resolves to the Sunday of the current week (as the source computes it). */
  const WeekdayWords: seq<string> :=
    ["週一", "週二", "週三", "週四", "週五", "週六", "週日", "星期一", "星期二", "星期三", "星期四", "星期五", "星期六", "星期日"]

  function FirstContained(text: string, words: seq<string>): (r: Option<nat>)
    ensures r.Some? ==> r.value < |words| && Contains(text, words[r.value])
    ensures r.Some? ==> forall j :: 0 <= j < r.value ==> !Contains(text, words[j])
    ensures r.None? ==> forall j :: 0 <= j < |words| ==> !Contains(text, words[j])
  {
    if words == [] then None
    else if Contains(text, words[0]) then Some(0)
    else match FirstContained(text, words[1..])
      case None => None
      case Some(k) => Some(k + 1)
  }

  /** Captures of a numeric date pattern: the year when the pattern has one, month and day. */
  datatype DateFields = DateFields(year: Option<nat>, month: nat, day: nat)

  predicate IsOneOf(c: char, cs: string) {
    c in cs
  }

  /** `(\d{4})[年-](\d{1,2})[月-](\d{1,2})[日]?` at the start of s. */
  function YearMonthDayAt(s: string): (r: Option<DateFields>)
    ensures r.Some? ==> r.value.year.Some? && s != [] && IsDigit(s[0])
  {
    if |s| >= 5 && AllDigits(s[..4]) && IsOneOf(s[4], "年-") then
      var (month, ml) := OneOrTwoDigits(s[5..]);
      if ml > 0 && 5 + ml < |s| && IsOneOf(s[5 + ml], "月-") then
        var (day, dl) := OneOrTwoDigits(s[6 + ml..]);
        if dl > 0 then Some(DateFields(Some(DigitsValue(s[..4])), month, day)) else None
      else None
    else None
  }

  /** `(\d{1,2})[月-](\d{1,2})[日]?` at the start of s. */
  function MonthDayAt(s: string): (r: Option<DateFields>)
    ensures r.Some? ==> r.value.year.None? && s != [] && IsDigit(s[0])
  {
    var (month, ml) := OneOrTwoDigits(s);
    if ml > 0 && ml < |s| && IsOneOf(s[ml], "月-") then
      var (day, dl) := OneOrTwoDigits(s[ml + 1..]);
      if dl > 0 then Some(DateFields(None, month, day)) else None
    else None
  }

  /** `(\d{1,2})\/(\d{1,2})` at the start of s. */
  function SlashMonthDayAt(s: string): (r: Option<DateFields>)
    ensures r.Some? ==> r.value.year.None? && s != [] && IsDigit(s[0])
  {
    var (month, ml) := OneOrTwoDigits(s);
    if ml > 0 && ml < |s| && s[ml] == '/' then
      var (day, dl) := OneOrTwoDigits(s[ml + 1..]);
      if dl > 0 then Some(DateFields(None, month, day)) else None
    else None
  }

  /** The numeric date patterns in order; the first with a match anywhere supplies the fields. */
  function NumericDate(text: string): (r: Option<DateFields>)
    ensures r.Some? && r.value.year.Some? ==> FindFirst(text, YearMonthDayAt, 0).Some?
  {
    match FindFirst(text, YearMonthDayAt, 0)
    case Some(m) => Some(m.1)
    case None =>
      match FindFirst(text, MonthDayAt, 0)
      case Some(m) => Some(m.1)
      case None =>
        match FindFirst(text, SlashMonthDayAt, 0)
        case Some(m) => Some(m.1)
        case None => None
  }

  predicate HasToday(text: string) { Contains(text, "今天") || Contains(text, "今日") }
  predicate HasYesterday(text: string) { Contains(text, "昨天") || Contains(text, "昨日") }
  predicate HasTomorrow(text: string) { Contains(text, "明天") || Contains(text, "明日") }

  /** The day of the current week (Sunday to Saturday, as `getDay()` numbers them) whose
      `getDay()` is wd, keeping the day of `today` otherwise: `setDate(getDate() + (wd - getDay()))`. */
  function DayOfThisWeek(today: CivilDate, wd: int): (r: CivilDate)
    requires Valid(today) && 0 <= wd < 7
    ensures Valid(r) && Weekday(r) == wd
    ensures DayNumber(r) - Weekday(r) == DayNumber(today) - Weekday(today)
    ensures -6 <= DayNumber(r) - DayNumber(today) <= 6
  {
    ShiftToWeekday(today, wd);
    AddDays(today, wd - Weekday(today))
  }

  /** Midnight of `new Date(year, month - 1, day)` for numeric captures, the year defaulting to
      that of `today`. */
  function NumericMoment(f: DateFields, today: CivilDate): (r: Moment)
    ensures ValidMoment(r) && r.ms == 0
  {
    var year := if f.year.Some? then f.year.value else today.year;
    Moment(MakeDate(year, f.month - 1, f.day), 0)
  }

  /** Captures naming a real day of the current year give that very day. */
  lemma NumericMomentInRange(f: DateFields, today: CivilDate)
    requires f.year.None? && today.year == FullYear(today.year)
    requires 1 <= f.month <= 12 && Valid(CivilDate(today.year, f.month - 1, f.day))
    ensures NumericMoment(f, today) == Moment(CivilDate(today.year, f.month - 1, f.day), 0)
  {
    assert NumericMoment(f, today) == Moment(MakeDate(today.year, f.month - 1, f.day), 0);
    MakeDateInRange(today.year, f.month - 1, f.day);
  }

  /** A month or day past its range rolls over: `2/30` in a common year is the 2nd of March. */
  lemma NumericMomentRollsOver(today: CivilDate)
    requires today.year == FullYear(today.year) && !IsLeapYear(today.year)
    ensures NumericMoment(DateFields(None, 2, 30), today).date == CivilDate(today.year, 2, 2)
  {
    var r := NumericMoment(DateFields(None, 2, 30), today).date;
    assert 1 / 12 == 0 && 1 % 12 == 1;
    assert DayNumber(r) == DayNumber(CivilDate(today.year, 1, 1)) + 29;
    MonthStep(today.year, 1);
    DayNumberInjective(r, CivilDate(today.year, 2, 2));
  }

  /** `extractDate`: today, yesterday, tomorrow (keeping the time of day of `now`), a weekday of
      the current week, or a numeric date at midnight whose out-of-range month or day rolls over;
      None when nothing matches. */
  function ExtractDate(text: string, now: Moment): (r: Option<Moment>)
    requires ValidMoment(now)
    ensures HasToday(text) ==> r == Some(now)
    ensures r.Some? ==> ValidMoment(r.value)
    ensures r.None? <==> (!HasToday(text) && !HasYesterday(text) && !HasTomorrow(text) &&
      FirstContained(text, WeekdayWords).None? && NumericDate(text).None?)
  {
    if HasToday(text) then Some(now)
    else if HasYesterday(text) then Some(Moment(AddDays(now.date, -1), now.ms))
    else if HasTomorrow(text) then Some(Moment(AddDays(now.date, 1), now.ms))
    else match FirstContained(text, WeekdayWords)
      case Some(i) => Some(Moment(DayOfThisWeek(now.date, i % 7), now.ms))
      case None =>
        match NumericDate(text)
        case Some(f) => Some(NumericMoment(f, now.date))
        case None => None
  }

  /** Relative day words resolve to the day before or after `now`, at the same time of day. */
  lemma RelativeDays(text: string, now: Moment)
    requires ValidMoment(now) && !HasToday(text)
    ensures HasYesterday(text) ==> (ExtractDate(text, now).Some? &&
      DayNumber(ExtractDate(text, now).value.date) == DayNumber(now.date) - 1 && ExtractDate(text, now).value.ms == now.ms)
    ensures !HasYesterday(text) && HasTomorrow(text) ==> (ExtractDate(text, now).Some? &&
      DayNumber(ExtractDate(text, now).value.date) == DayNumber(now.date) + 1 && ExtractDate(text, now).value.ms == now.ms)
  {
  }

  /** A weekday word at list index i gives the day of the current week whose `getDay()` is
      i % 7, at the time of day of `now`; so 週一 gives the Sunday. */
  lemma WeekdayWordResolution(text: string, now: Moment)
    requires ValidMoment(now) && !HasToday(text) && !HasYesterday(text) && !HasTomorrow(text)
    requires FirstContained(text, WeekdayWords).Some?
    ensures ExtractDate(text, now).Some? && ExtractDate(text, now).value.ms == now.ms
    ensures Weekday(ExtractDate(text, now).value.date) == FirstContained(text, WeekdayWords).value % 7
    ensures -6 <= DayNumber(ExtractDate(text, now).value.date) - DayNumber(now.date) <= 6
  {
  }

  /** Without relative or weekday words, a numeric date gives midnight of that day. */
  lemma NumericDateResolution(text: string, now: Moment)
    requires ValidMoment(now) && !HasToday(text) && !HasYesterday(text) && !HasTomorrow(text)
    requires FirstContained(text, WeekdayWords).None? && NumericDate(text).Some?
    ensures ExtractDate(text, now) == Some(NumericMoment(NumericDate(text).value, now.date))
    ensures ExtractDate(text, now).value.ms == 0
  {
  }

  /** The structured result of `parse`. */
  datatype ParsedExpense = ParsedExpense(
    amount: Option<real>,
    currency: Option<string>,
    description: Option<string>,
    category: Option<string>,
    account: Option<string>,
    date: Option<Moment>,
    confidence: int)

  /** The confidence weights, in tenths, of the fields present. */
  function Weights(p: ParsedExpense): (w: int)
    ensures 0 <= w <= 10
  {
    (if p.amount.Some? then 3 else 0) + (if p.description.Some? then 2 else 0) +
    (if p.category.Some? then 2 else 0) + (if p.account.Some? then 1 else 0) +
    (if p.date.Some? then 2 else 0)
  }

  /** An empty utterance yields no amount, no account and no date; only the catch-all category
      is set, so `parse("")` has confidence 0.2. */
  lemma EmptyUtterance(now: Moment)
    requires ValidMoment(now)
    ensures ExtractAmount("").None?
    ensures ExtractAccount("") == ""
    ensures ExtractDate("", now).None?
  {
    EmptyHasNoAmount();
    EmptyHasNoAccount();
    EmptyHasNoDate(now);
  }

  lemma EmptyHasNoAmount()
    ensures ExtractAmount("").None?
  {
    forall k | 0 <= k < |AmountPatterns|
      ensures PatternAmount(AmountPatterns[k], "").None?
    {
      assert AmountAt(AmountPatterns[k], "").None?;
    }
    assert forall j :: 0 <= j < |AmountPatterns| ==> !AmountFound("")(AmountPatterns[j]);
    var r := FirstWhere(AmountPatterns, AmountFound(""));
  }

  lemma EmptyHasNoAccount()
    ensures ExtractAccount("") == ""
  {
    assert Lower("") == "";
    forall j | 0 <= j < |AccountTable|
      ensures !Hit("", AccountTable[j])
    {
      NothingInEmpty(AccountTable[j].keywords);
    }
    AccountEmptyIff("");
  }

  /** No non-empty keyword occurs in the empty text. */
  lemma NothingInEmpty(keywords: seq<string>)
    requires forall k :: 0 <= k < |keywords| ==> keywords[k] != ""
    ensures !AnyKeyword("", keywords)
  {
    forall k | 0 <= k < |keywords|
      ensures !Contains("", Lower(keywords[k]))
    {
      assert |Lower(keywords[k])| > 0;
    }
  }

  lemma EmptyHasNoDate(now: Moment)
    requires ValidMoment(now)
    ensures ExtractDate("", now).None?
  {
    assert !Contains("", "今天") && !Contains("", "今日");
    assert !Contains("", "昨天") && !Contains("", "昨日");
    assert !Contains("", "明天") && !Contains("", "明日");
    forall j | 0 <= j < |WeekdayWords|
      ensures !Contains("", WeekdayWords[j])
    {
      assert |WeekdayWords[j]| > 0;
    }
    var w := FirstContained("", WeekdayWords);
    assert ""[0..] == "";
    assert YearMonthDayAt("").None? && MonthDayAt("").None? && SlashMonthDayAt("").None?;
  }

  /** `parse`: runs the five extractors on the same text and adds each field's weight when the
      field is set. The amount and its currency are set together, and only for a non-zero
      amount. */
  method Parse(text: string, now: Moment) returns (result: ParsedExpense)
    requires ValidMoment(now)
    ensures result.amount.Some? <==> ExtractAmount(text).Some? && ExtractAmount(text).value.0 != 0.0
    ensures result.amount.Some? ==> (result.amount.value > 0.0 &&
      result.amount.value == ExtractAmount(text).value.0 && result.currency == Some(DetectCurrency(text)))
    ensures result.amount.None? ==> result.currency.None?
    ensures result.description.Some? <==> text != ""
    ensures result.description.Some? ==> result.description.value == ExtractDescription(text)
    ensures result.category == Some(ExtractCategory(text))
    ensures result.account.Some? <==> ExtractAccount(text) != ""
    ensures result.account.Some? ==> result.account.value == ExtractAccount(text)
    ensures result.date == ExtractDate(text, now)
    ensures result.confidence == Weights(result)
    ensures 2 <= result.confidence <= 10
    ensures text != "" ==> result.confidence >= 4
    ensures text == "" ==> result.confidence == 2
  {
    var amount: Option<real> := None;
    var currency: Option<string> := None;
    var descriptionField: Option<string> := None;
    var categoryField: Option<string> := None;
    var accountField: Option<string> := None;
    var dateField: Option<Moment> := None;
    var confidence := 0;

    var amountResult := ExtractAmount(text);
    if amountResult.Some? && amountResult.value.0 != 0.0 {
      amount, currency := Some(amountResult.value.0), Some(amountResult.value.1);
      confidence := confidence + 3;
    }
    assert confidence == (if amount.Some? then 3 else 0);

    var description := ExtractDescription(text);
    assert description != "" <==> text != "";
    if description != "" {
      descriptionField := Some(description);
      confidence := confidence + 2;
    }
    assert confidence == (if amount.Some? then 3 else 0) + (if descriptionField.Some? then 2 else 0);

    var category := ExtractCategory(text);
    if category != "" {
      categoryField := Some(category);
      confidence := confidence + 2;
    }
    assert categoryField.Some?;

    var account := ExtractAccount(text);
    if account != "" {
      accountField := Some(account);
      confidence := confidence + 1;
    }
    assert confidence == (if amount.Some? then 3 else 0) + (if descriptionField.Some? then 2 else 0) + 2 +
      (if accountField.Some? then 1 else 0);

    var date := ExtractDate(text, now);
    if date.Some? {
      dateField := date;
      confidence := confidence + 2;
    }

    result := ParsedExpense(amount, currency, descriptionField, categoryField, accountField, dateField, confidence);
    if text == "" {
      EmptyUtterance(now);
      assert amount.None? && accountField.None? && dateField.None?;
    }
  }

  /** Labels of the rows with a keyword in the text, in table order. */
  function HitLabels(table: seq<Entry>, lowerText: string): seq<string> {
    if table == [] then [] else
      HitLabels(table[..|table| - 1], lowerText) +
      (if Hit(lowerText, table[|table| - 1]) then [table[|table| - 1].name] else [])
  }

  predicate DistinctLabels(table: seq<Entry>) {
    forall i, j :: 0 <= i < j < |table| ==> table[i].name != table[j].name
  }

  predicate NoDuplicates(s: seq<string>) {
    forall i, j :: 0 <= i < j < |s| ==> s[i] != s[j]
  }

  /** The hit labels are labels of the table, without repetition when the labels are distinct. */
  lemma {:induction false} HitLabelsDistinct(table: seq<Entry>, lowerText: string)
    requires DistinctLabels(table)
    ensures forall x :: x in HitLabels(table, lowerText) ==>
      exists j :: 0 <= j < |table| && table[j].name == x && Hit(lowerText, table[j])
    ensures NoDuplicates(HitLabels(table, lowerText))
    decreases |table|
  {
    if table != [] {
      var init := table[..|table| - 1];
      assert DistinctLabels(init);
      HitLabelsDistinct(init, lowerText);
      var last := table[|table| - 1];
      forall x | x in HitLabels(init, lowerText)
        ensures x != last.name
        ensures exists j :: 0 <= j < |table| && table[j].name == x && Hit(lowerText, table[j])
      {
        var j :| 0 <= j < |init| && init[j].name == x && Hit(lowerText, init[j]);
        assert table[j] == init[j];
      }
      var h := HitLabels(init, lowerText);
      if Hit(lowerText, last) {
        assert HitLabels(table, lowerText) == h + [last.name];
        forall i, j | 0 <= i < j < |h| + 1
          ensures (h + [last.name])[i] != (h + [last.name])[j]
        {
          if j == |h| {
            assert h[i] in h;
          }
        }
      } else {
        assert HitLabels(table, lowerText) == h;
      }
    }
  }

  /** The first hit name is the row `FirstHit` finds. */
  lemma {:induction false} HitLabelsHead(table: seq<Entry>, lowerText: string)
    ensures HitLabels(table, lowerText) == [] <==> FirstHit(table, lowerText).None?
    ensures HitLabels(table, lowerText) != [] ==>
      HitLabels(table, lowerText)[0] == table[FirstHit(table, lowerText).value].name
    decreases |table|
  {
    if table != [] {
      var init := table[..|table| - 1];
      HitLabelsHead(init, lowerText);
      if FirstHit(init, lowerText).Some? {
        var k := FirstHit(init, lowerText).value;
        assert init[k] == table[k];
        forall j | 0 <= j < k ensures !Hit(lowerText, table[j]) {
          assert init[j] == table[j];
        }
        assert FirstHit(table, lowerText) == Some(k) by {
          FirstHitUnique(table, lowerText, k);
        }
      } else {
        forall j | 0 <= j < |table| - 1 ensures !Hit(lowerText, table[j]) {
          assert init[j] == table[j];
        }
      }
    }
  }

  /** A row with a hit and no hit before it is the one `FirstHit` finds. */
  lemma FirstHitUnique(table: seq<Entry>, lowerText: string, k: nat)
    requires k < |table| && Hit(lowerText, table[k])
    requires forall j :: 0 <= j < k ==> !Hit(lowerText, table[j])
    ensures FirstHit(table, lowerText) == Some(k)
  {
    var r := FirstHit(table, lowerText);
  }

  lemma HitLabelsStep(table: seq<Entry>, i: nat, lowerText: string)
    requires i < |table|
    ensures HitLabels(table[..i + 1], lowerText) ==
      HitLabels(table[..i], lowerText) + (if Hit(lowerText, table[i]) then [table[i].name] else [])
  {
    assert table[..i + 1][..i] == table[..i] && table[..i + 1][i] == table[i];
  }

  /** `suggestCategories`: every category with a keyword hit, in declared order, or the
      catch-all alone. Its first suggestion is the category `extractCategory` picks. */
  method SuggestCategories(description: string) returns (suggestions: seq<string>)
    ensures var h := HitLabels(CategoryTable, Lower(description));
      suggestions == if h == [] then [DefaultCategory] else h
    ensures suggestions != []
    ensures suggestions[0] == ExtractCategory(description)
    ensures NoDuplicates(suggestions)
    ensures forall c :: c in suggestions ==> exists j :: 0 <= j < |CategoryTable| && CategoryTable[j].name == c
    ensures forall j :: 0 <= j < |CategoryTable| && Hit(Lower(description), CategoryTable[j]) ==> CategoryTable[j].name in suggestions
  {
    suggestions := [];
    var lowerDesc := Lower(description);
    for i := 0 to |CategoryTable|
      invariant suggestions == HitLabels(CategoryTable[..i], lowerDesc)
    {
      var row := CategoryTable[i];
      HitLabelsStep(CategoryTable, i, lowerDesc);
      if AnyKeyword(lowerDesc, row.keywords) {
        suggestions := suggestions + [row.name];
      }
    }
    assert CategoryTable[..|CategoryTable|] == CategoryTable;
    CategoryLabelsDistinct();
    HitLabelsSpec(CategoryTable, description, DefaultCategory);
    if suggestions == [] {
      suggestions := [DefaultCategory];
    }
  }

  /** The hit names keep table order: of two hit names, the earlier one names the earlier row. */
  lemma {:induction false} HitLabelsOrdered(table: seq<Entry>, lowerText: string)
    requires DistinctLabels(table)
    ensures forall p, q, i, j ::
      (0 <= p < q < |HitLabels(table, lowerText)| && 0 <= i < |table| && 0 <= j < |table| &&
       table[i].name == HitLabels(table, lowerText)[p] && table[j].name == HitLabels(table, lowerText)[q])
      ==> i < j
    decreases |table|
  {
    if table != [] {
      var n := |table| - 1;
      var init := table[..n];
      assert DistinctLabels(init);
      HitLabelsOrdered(init, lowerText);
      HitLabelsDistinct(init, lowerText);
      var h0 := HitLabels(init, lowerText);
      var h := HitLabels(table, lowerText);
      assert h == h0 + (if Hit(lowerText, table[n]) then [table[n].name] else []);
      forall p, q, i, j | 0 <= p < q < |h| && 0 <= i < |table| && 0 <= j < |table| &&
        table[i].name == h[p] && table[j].name == h[q]
        ensures i < j
      {
        assert h[p] == h0[p] && h0[p] in h0;
        var i0 :| 0 <= i0 < |init| && init[i0].name == h0[p] && Hit(lowerText, init[i0]);
        assert table[i0] == init[i0];
        assert i == i0;
        if q < |h0| {
          assert h[q] == h0[q] && h0[q] in h0;
          var j0 :| 0 <= j0 < |init| && init[j0].name == h0[q] && Hit(lowerText, init[j0]);
          assert table[j0] == init[j0];
          assert j == j0;
          assert init[i].name == h0[p] && init[j].name == h0[q];
          assert 0 <= p < q < |h0| && 0 <= i < |init| && 0 <= j < |init|;
        } else {
          assert h[q] == table[n].name;
          assert j == n;
          assert i < n;
        }
      }
    }
  }

  /** The category names are pairwise different. */
  lemma CategoryLabelsDistinct()
    ensures DistinctLabels(CategoryTable)
  {
  }

  /** What the hit names of a table with distinct names are: names of the table, without
      repetition, every row with a hit, starting with the one `Classify` picks. */
  lemma HitLabelsSpec(table: seq<Entry>, text: string, fallback: string)
    requires DistinctLabels(table)
    ensures var h := HitLabels(table, Lower(text));
      (h == [] ==> Classify(table, text, fallback) == fallback) &&
      (h != [] ==> h[0] == Classify(table, text, fallback)) &&
      NoDuplicates(h) &&
      (forall x :: x in h ==> exists j :: 0 <= j < |table| && table[j].name == x && Hit(Lower(text), table[j])) &&
      (forall j :: 0 <= j < |table| && Hit(Lower(text), table[j]) ==> table[j].name in h) &&
      (forall p, q, i, j ::
        (0 <= p < q < |h| && 0 <= i < |table| && 0 <= j < |table| &&
         table[i].name == h[p] && table[j].name == h[q])
        ==> i < j)
  {
    HitLabelsDistinct(table, Lower(text));
    HitLabelsOrdered(table, Lower(text));
    HitLabelsHead(table, Lower(text));
    HitLabelsComplete(table, Lower(text));
  }

  lemma {:induction false} HitLabelsComplete(table: seq<Entry>, lowerText: string)
    ensures forall j :: 0 <= j < |table| && Hit(lowerText, table[j]) ==> table[j].name in HitLabels(table, lowerText)
    decreases |table|
  {
    if table != [] {
      var init := table[..|table| - 1];
      HitLabelsComplete(init, lowerText);
      forall j | 0 <= j < |table| - 1 && Hit(lowerText, table[j])
        ensures table[j].name in HitLabels(table, lowerText)
      {
        assert init[j] == table[j];
      }
    }
  }

  const AmountError: string := "金額必須大於 0"
  const DescriptionError: string := "描述不能為空"
  const ConfidenceError: string := "解析信心度過低，請檢查輸入"

  /** `validate`: appends, in this order, the amount, description and confidence errors that
      apply; the result is valid exactly when none was added. */
  method Validate(parsed: ParsedExpense) returns (isValid: bool, errors: seq<string>)
    ensures (AmountError in errors) <==> parsed.amount.None? || parsed.amount.value <= 0.0
    ensures (DescriptionError in errors) <==> parsed.description.None? || Trim(parsed.description.value) == ""
    ensures (ConfidenceError in errors) <==> parsed.confidence < 5
    ensures |errors| <= 3 && NoDuplicates(errors)
    ensures forall i, j :: 0 <= i < j < |errors| ==> ErrorRank(errors[i]) < ErrorRank(errors[j])
    ensures forall e :: e in errors ==> e == AmountError || e == DescriptionError || e == ConfidenceError
    ensures isValid <==> errors == []
    ensures isValid <==>
      (parsed.amount.Some? && parsed.amount.value > 0.0 &&
       parsed.description.Some? && Trim(parsed.description.value) != "" && parsed.confidence >= 5)
  {
    ErrorMessagesDistinct();
    errors := [];
    if parsed.amount.None? || parsed.amount.value <= 0.0 {
      errors := errors + [AmountError];
    }
    if parsed.description.None? || |Trim(parsed.description.value)| == 0 {
      errors := errors + [DescriptionError];
    }
    if parsed.confidence < 5 {
      errors := errors + [ConfidenceError];
    }
    isValid := |errors| == 0;
  }

  /** The three messages differ and rank in the order of the checks. */
  lemma ErrorMessagesDistinct()
    ensures AmountError != DescriptionError && AmountError != ConfidenceError && DescriptionError != ConfidenceError
    ensures ErrorRank(AmountError) == 0 && ErrorRank(DescriptionError) == 1 && ErrorRank(ConfidenceError) == 2
  {
  }

  /** Position of an error message in the fixed order of the checks. */
  function ErrorRank(e: string): int {
    if e == AmountError then 0 else if e == DescriptionError then 1 else 2
  }
}
