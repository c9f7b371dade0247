# Smart expense tracker: parser, store, dashboard, receipt and calendar logic in Dafny

This project models the computational core of the smart expense tracker, a personal-finance web
application:

- **The expense-utterance parser** (`NaturalLanguageParser`). It turns a free-text phrase such as
  "午餐吃拉麵 180元 現金" into an optional amount with its currency, a description, a category, an
  account hint and a date, and adds up a confidence score. It also offers `suggestCategories` and
  `validate`.
- **The expense store.** This is the `expenseReducer` over the three id-keyed lists (records,
  accounts, categories) and its `initialState`.
- **The dashboard figures** from `getDashboardStats`: the month window, the expense and income
  totals, the remaining budget, the per-category totals sorted and cut to five, and the account
  balances.
- **The receipt-text extractors** of the OCR service: merchant, total, date and line items.
- **The month view of the calendar page**: the 42-cell grid and the per-day record filter.

Modules, one per file:

| file | module | content |
|---|---|---|
| `text.dfy` | `Text` | the string primitives the source uses: `toLowerCase`, `includes`, `trim`, `split('\n')`, the numeral `\d+(\.\d+)?`, leftmost match, global replace |
| `dates.dfy` | `Dates` | calendar days as (year, month index, day), day numbers since 1970-01-01, `getDay`, `setDate` arithmetic, the rolling-over `new Date(y, m, d)` |
| `nl_parser.dfy` | `NaturalLanguage` | the keyword tables and every operation of the parser |
| `expense_store.dfy` | `ExpenseStore` | entities, initial state, reducer |
| `dashboard.dfy` | `Dashboard` | `getDashboardStats` |
| `receipt.dfy` | `Receipt` | `extractMerchant`, `extractTotal`, `extractDate`, `extractItems` |
| `month_grid.dfy` | `MonthGrid` | `getExpensesForDate`, `generateCalendarDays` |

Conventions:

- The current time (`new Date()`) is a parameter `now` or `today`.
- A JavaScript `Date` is a `Moment`: a local calendar day plus the milliseconds since midnight.
- Amounts are exact `real`s.
- Confidence is counted in integer tenths (3, 2, 2, 1, 2). The threshold 0.5 of `validate` is
  therefore 5.
- Every fixed regular expression is a small hand-written scanner over `seq<char>`. Under greedy
  matching, each of these patterns matches at a position in at most one way. The leftmost match
  is the first suffix where the scanner succeeds (`Text.FindFirst`). "The first pattern in the
  list that matches" is `Text.FirstWhere`.
- The loops of `suggestCategories`, the category accumulator of `getDashboardStats`,
  `extractItems` and `generateCalendarDays` are methods with loop invariants. Each is proved
  against a function that specifies it: `HitLabels`, `FoldTotals`, `ItemsOf` and the cell
  description `IsCell`.
- `parse` and `validate` have no loop. They build their result field by field or error by
  error, so they are straight-line methods. Their postconditions state each field and each
  error directly.
- First-match loops with an early return are recursive functions.

## Model

| member | source | states |
|---|---|---|
| NaturalLanguage.ClassifyFirstMatch | src/services/naturalLanguageParser.ts:127-149 | a keyword table answers with the name of the first row, in declared order, that has a keyword in the lower-cased text, and with the fallback exactly when no row has one |
| NaturalLanguage.ExtractCategory | src/services/naturalLanguageParser.ts:127-137 | the category is never empty: it is a row name of the category table or 其他 |
| NaturalLanguage.AccountEmptyIff | src/services/naturalLanguageParser.ts:139-149 | the account hint is '' exactly when no account keyword occurs in the lower-cased text |
| NaturalLanguage.EWalletCountsAsCash | src/services/naturalLanguageParser.ts:31-36 | a text mentioning 電子錢包 is booked to 現金, because 錢包 is a cash keyword and the cash row comes first |
| NaturalLanguage.DetectCurrency | src/services/naturalLanguageParser.ts:99-107 | the currency is one of TWD, USD, EUR, JPY |
| NaturalLanguage.YuanMeansTwd | src/services/naturalLanguageParser.ts:24-29 | any text containing 元 gets TWD, since TWD is the first currency row |
| NaturalLanguage.DollarInChineseMeansTwd | src/services/naturalLanguageParser.ts:24-29 | a text saying 美元 still gets TWD, because 美元 contains the TWD keyword 元 |
| NaturalLanguage.PatternAmount | src/services/naturalLanguageParser.ts:84-96 | the number a pattern captures is the one at its leftmost match, and None means it matches nowhere |
| NaturalLanguage.ExtractAmount | src/services/naturalLanguageParser.ts:95-113 | a found amount is not negative, and its currency is the one from the whole-text keyword scan, whichever pattern matched |
| NaturalLanguage.ExtractAmountFirstPattern | src/services/naturalLanguageParser.ts:84-113 | the amount comes from the first of the eight patterns that matches anywhere, even when its number is 0; there is no amount exactly when none matches |
| NaturalLanguage.NonNegativeAmount | src/services/naturalLanguageParser.ts:85-92 | every amount pattern captures a non-negative number |
| NaturalLanguage.ExtractDescription | src/services/naturalLanguageParser.ts:116-125 | the description is empty exactly when the text is; when the replace chain leaves nothing it is the text itself; otherwise it is a trimmed string with no two adjacent whitespace characters |
| NaturalLanguage.CollapsedHasNoDoubleSpace | src/services/naturalLanguageParser.ts:121-122 | after whitespace runs collapse to one space, no two whitespace characters are adjacent, and trimming keeps that |
| NaturalLanguage.CleanTextIsItsOwnDescription | src/services/naturalLanguageParser.ts:116-125 | a text with no digit, no whitespace and none of the verbs' first characters is its own description |
| NaturalLanguage.CleanSurvives | src/services/naturalLanguageParser.ts:118-122 | none of the three replacements and not the trim changes such a clean text |
| NaturalLanguage.AmountTokenAt | src/services/naturalLanguageParser.ts:119 | a digit string followed by a unit word is matched by the amount pattern exactly over both, whatever follows |
| NaturalLanguage.StripsAmountToken | src/services/naturalLanguageParser.ts:116-125 | an amount written as digits and a unit between two clean pieces of text is removed, and the description is the two pieces joined |
| NaturalLanguage.VerbAt | src/services/naturalLanguageParser.ts:120 | a verb followed by text that does not start with whitespace is matched by the verb pattern over exactly the verb |
| NaturalLanguage.StripsVerb | src/services/naturalLanguageParser.ts:116-125 | a verb between two clean pieces of text is removed, and the description is the two pieces joined |
| NaturalLanguage.DayOfThisWeek | src/services/naturalLanguageParser.ts:177-182 | the weekday-word date has the named `getDay()` value and lies in the same Sunday-to-Saturday week as today, so at most 6 days away |
| NaturalLanguage.NumericMoment | src/services/naturalLanguageParser.ts:196-208 | a captured numeric date is a valid day at midnight |
| NaturalLanguage.NumericMomentInRange | src/services/naturalLanguageParser.ts:196-206 | month and day in range, with no year captured, give that day of the current year |
| NaturalLanguage.NumericMomentRollsOver | src/services/naturalLanguageParser.ts:206-209 | an out-of-range day rolls over instead of being rejected: 2/30 of a common year is 2 March |
| NaturalLanguage.ExtractDate | src/services/naturalLanguageParser.ts:151-213 | today's words give exactly now; any date found is valid; null exactly when no today/yesterday/tomorrow word, no weekday word and no numeric pattern occurs |
| NaturalLanguage.RelativeDays | src/services/naturalLanguageParser.ts:159-171 | without a today word, yesterday's words give the previous day and tomorrow's the next, at the same time of day |
| NaturalLanguage.WeekdayWordResolution | src/services/naturalLanguageParser.ts:173-184 | the first listed weekday word found, at index i, gives the day of this week whose `getDay()` is i mod 7 (so 週一 gives Sunday), at now's time of day |
| NaturalLanguage.NumericDateResolution | src/services/naturalLanguageParser.ts:186-211 | with no relative or weekday word, the date is the midnight of the first numeric pattern's captures |
| NaturalLanguage.Weights | src/services/naturalLanguageParser.ts:38-79 | the confidence weights of the present fields add up to between 0 and 10 tenths |
| NaturalLanguage.EmptyUtterance | src/services/naturalLanguageParser.ts:38-79 | the empty phrase has no amount, no account hint and no date |
| NaturalLanguage.Parse | src/services/naturalLanguageParser.ts:38-79 | amount and currency are set together, and only for a non-zero extracted amount; the description is present exactly for a non-empty text; the category is always present; the account is present exactly when the hint is non-empty; the confidence is the weight of the present fields, between 2 and 10 tenths, and 2 for the empty text |
| NaturalLanguage.HitLabelsSpec | src/services/naturalLanguageParser.ts:217-228 | the collected names are exactly the names of the rows with a keyword hit: each comes from a row with a hit, every row with a hit contributes, none twice, in table order; the first is the name the first-match classification picks, and there are none exactly when it falls back |
| NaturalLanguage.HitLabelsOrdered | src/services/naturalLanguageParser.ts:221-225 | the collected names follow the table's row order |
| NaturalLanguage.SuggestCategories | src/services/naturalLanguageParser.ts:217-228 | the suggestions are the names of the categories with a keyword hit, in table order and each once, or exactly [其他] when no category has one; the first is the category `extractCategory` picks |
| NaturalLanguage.Validate | src/services/naturalLanguageParser.ts:231-250 | each of the three errors is reported exactly when its condition holds, at most once and in the order of the checks, and no other message appears; valid exactly when the amount is present and positive, the trimmed description is non-empty and the confidence is at least 0.5 |
| NaturalLanguage.TrimIdempotent | src/services/naturalLanguageParser.ts:121-123 | trimming a trimmed string changes nothing |
| ExpenseStore.InitialState | src/context/ExpenseContext.tsx:28-52 | no records, one cash account in TWD with balance 0, seven built-in categories, not loading, no error |
| ExpenseStore.ReduceFrame | src/context/ExpenseContext.tsx:54-111 | each action changes only its own list or flag, and an unrecognised action returns the state unchanged |
| ExpenseStore.AddAppends | src/context/ExpenseContext.tsx:60-61 | the three ADD actions append the payload at the end and keep every earlier element |
| ExpenseStore.ReplaceById | src/context/ExpenseContext.tsx:62-68 | an update keeps the length and replaces exactly the elements whose id equals the payload's id |
| ExpenseStore.ReplaceByIdNoMatch | src/context/ExpenseContext.tsx:78-84 | an update whose id matches nothing leaves the list unchanged |
| ExpenseStore.ReplaceByIdIdempotent | src/context/ExpenseContext.tsx:94-100 | repeating the same update changes nothing more |
| ExpenseStore.ReplaceByIdCount | src/context/ExpenseContext.tsx:62-68 | an update keeps the number of elements carrying the payload's id |
| ExpenseStore.RemoveById | src/context/ExpenseContext.tsx:69-73 | after a delete no element carries the id |
| ExpenseStore.RemoveByIdLength | src/context/ExpenseContext.tsx:85-89 | a delete removes exactly as many elements as carry the id |
| ExpenseStore.RemoveByIdKeeps | src/context/ExpenseContext.tsx:101-105 | a delete keeps every element with another id, as often as it occurred, and keeps none with the id |
| ExpenseStore.RemoveByIdAppend | src/context/ExpenseContext.tsx:69-73 | deleting from a concatenation deletes from each part, so the kept elements stay in order |
| ExpenseStore.RemoveByIdNoMatch | src/context/ExpenseContext.tsx:69-73 | deleting an id nobody carries leaves the list unchanged |
| ExpenseStore.AddThenDelete | src/context/ExpenseContext.tsx:60-73 | adding a record and deleting its id removes every record with that id, and restores the state when the id was new |
| ExpenseStore.CollidingIdsDeletedTogether | src/context/ExpenseContext.tsx:69-73 | two different records that share an id are deleted together |
| ExpenseStore.CollidingIdsUpdatedTogether | src/context/ExpenseContext.tsx:62-68 | two records that share an id are both overwritten by one update |
| Dashboard.Monthly | src/context/ExpenseContext.tsx:189-197 | the month's records of one type are exactly the records of that type dated in the window, taken from the list |
| Dashboard.MonthlyAppend | src/context/ExpenseContext.tsx:189-197 | the window filter distributes over concatenation, so it keeps list order and every repeated record |
| Dashboard.MonthlySingle | src/context/ExpenseContext.tsx:189-197 | a single record is kept exactly when it is of the type and dated in the window |
| Dashboard.WindowIsMonthExceptLastDay | src/context/ExpenseContext.tsx:185-191 | a record is in the window exactly when it falls in now's month and is not later than midnight on its last day |
| Dashboard.TotalsSpec | src/context/ExpenseContext.tsx:199-202 | total expenses and income are the sums over the month's records of each type, the budget is 50000, the remainder is 50000 minus the expenses, and the category totals add up to the expense total |
| Dashboard.AddToTotalsKeys | src/context/ExpenseContext.tsx:205-208 | an accumulator step keeps the key order and appends a category seen for the first time |
| Dashboard.AddToTotalsTotal | src/context/ExpenseContext.tsx:206 | an accumulator step adds the amount to its own category's total only |
| Dashboard.AddToTotalsSum | src/context/ExpenseContext.tsx:206 | an accumulator step adds the amount to the sum of all totals |
| Dashboard.FirstAppearancesSpec | src/context/ExpenseContext.tsx:205-210 | the accumulator's keys are the month's categories, each once |
| Dashboard.FoldTotalsSpec | src/context/ExpenseContext.tsx:205-208 | the accumulator holds the categories in order of first appearance, each with the sum of its records' amounts |
| Dashboard.CategoryTotals | src/context/ExpenseContext.tsx:205-208 | the accumulator loop yields one entry per category with that category's total, and the totals add up to the expense total |
| Dashboard.SortSpec | src/context/ExpenseContext.tsx:216 | the sort orders by non-increasing amount and is a permutation of its input |
| Dashboard.SortDistinct | src/context/ExpenseContext.tsx:210-216 | sorting keeps the categories distinct and keeps the same set of categories |
| Dashboard.Take | src/context/ExpenseContext.tsx:217 | `slice(0, 5)` is the prefix of length min(5, length) |
| Dashboard.AccountBalances | src/context/ExpenseContext.tsx:219-223 | one balance per account, in order, with its name, balance and currency |
| Dashboard.GetDashboardStats | src/context/ExpenseContext.tsx:184-233 | the method computes exactly the dashboard figures; the remainder is budget minus expenses; the top list is sorted and has at most five entries |
| Dashboard.SortedEntries | src/context/ExpenseContext.tsx:205-216 | the sorted totals are ordered, hold each category of the month once and only those, and give each its full total |
| Dashboard.TopCategoriesSpec | src/context/ExpenseContext.tsx:205-217 | at most five top categories, largest first, each a category of the month's expenses, at most once, with its full total |
| Dashboard.LeftOutCategoriesAreSmaller | src/context/ExpenseContext.tsx:210-217 | a category of the month's expenses missing from the top list means five are shown, and its total is no more than the fifth |
| MonthGrid.ExpensesOn | src/pages/Calendar-simple.tsx:20-25 | the day's records are exactly the records dated on that calendar day, taken from the list |
| MonthGrid.ExpensesOnAppend | src/pages/Calendar-simple.tsx:20-25 | the filter distributes over concatenation, so it keeps list order |
| MonthGrid.GenerateCalendarDays | src/pages/Calendar-simple.tsx:28-55 | 42 cells; cell i is midnight of the i-th day after the Sunday on or before the 1st, with that day's records and their total; `isCurrentMonth` holds exactly when its month is the selected one; `isToday` holds exactly for today's date, so for at most one cell |
| MonthGrid.StartIsSunday | src/pages/Calendar-simple.tsx:31-34 | the grid starts on a Sunday |
| MonthGrid.FirstOfMonthFacts | src/pages/Calendar-simple.tsx:31-34 | the 1st falls in the first week, and the weekday of the 1st plus the month's length is at most 42 |
| MonthGrid.CellInMonth | src/pages/Calendar-simple.tsx:39-47 | a cell shows a day of the selected month exactly when it lies in the run starting at the 1st's weekday, and there it is day i - weekday + 1 |
| MonthGrid.DayOfMonthCell | src/pages/Calendar-simple.tsx:31-51 | every day k of the selected month sits in cell weekday-of-the-1st + k - 1, which is inside the grid |
| Receipt.NonBlank | src/services/ocrService.ts:89 | the kept lines are exactly the lines that are not blank after trimming |
| Receipt.NonBlankAppend | src/services/ocrService.ts:89 | the line filter distributes over concatenation, so it keeps line order and repeated lines |
| Receipt.NonBlankSingle | src/services/ocrService.ts:89 | a single line is kept exactly when it is not blank |
| Text.FilterAppend | src/services/ocrService.ts:89 | `filter` over a concatenation is the concatenation of the filtered parts |
| Receipt.ExtractMerchant | src/services/ocrService.ts:87-104 | the merchant is 未知商家 or a trimmed line among the first five non-blank lines that is longer than 2, starts without a digit and has no $, 元 or 總計 |
| Receipt.MerchantIsFirstLikelyLine | src/services/ocrService.ts:92-100 | the first such line among the first five wins |
| Receipt.NoLikelyLineMeansUnknown | src/services/ocrService.ts:103 | with no such line the merchant is 未知商家 |
| Receipt.PatternTotal | src/services/ocrService.ts:108-120 | the number a total pattern captures is the one at its leftmost match, and it is non-negative |
| Receipt.AllNumerals | src/services/ocrService.ts:125 | all numerals of the text are non-negative, and there are none exactly when the text has no digit |
| Receipt.NumeralComesFromText | src/services/ocrService.ts:125 | every numeral collected is the numeral read at some position of the text |
| Receipt.FirstNumeralAtFirstDigit | src/services/ocrService.ts:125 | the first numeral collected is the one read at the first digit of the text |
| Receipt.MaxOf | src/services/ocrService.ts:127 | the maximum is one of the numbers and no smaller than any of them |
| Receipt.ExtractTotal | src/services/ocrService.ts:106-132 | the total is never negative |
| Receipt.TotalFromFirstMatchingPattern | src/services/ocrService.ts:117-122 | the total is the capture of the first pattern, in listed order, that matches |
| Receipt.TotalFallsBackToLargestNumeral | src/services/ocrService.ts:124-131 | with no pattern match the total is the largest numeral in the text, or 0 when there is none |
| Receipt.CapturesAt | src/services/ocrService.ts:135-140 | every date pattern starts at a digit, and it captures a third group exactly for the two patterns that have one |
| Receipt.ExtractDate | src/services/ocrService.ts:134-161 | the receipt date is always a valid moment when the current time is |
| Receipt.DateFromFirstMatchingPattern | src/services/ocrService.ts:142-157 | the date is taken from the leftmost match of the first pattern, in listed order, that matches |
| Receipt.NoPatternMeansNow | src/services/ocrService.ts:142-160 | when none of the four patterns matches anywhere, the date is the current time |
| Receipt.NoDigitMeansNow | src/services/ocrService.ts:160 | a text without digits gives the current time |
| Receipt.YearDashedIsRotated | src/services/ocrService.ts:145-153 | for the year-month-day pattern, the four-digit year is read as the month, the month as the day and the day as the year |
| Receipt.IsoDateExample | src/services/ocrService.ts:136-153 | "2024-03-15" becomes 3 August 2083: month 2024 rolls over 168 years from 1915 |
| Receipt.SlashDateWithYear | src/services/ocrService.ts:138-153 | in a text without 月 or '-', a valid m/d/yyyy date is read as that day |
| Receipt.ItemAtFirstDigit | src/services/ocrService.ts:169-176 | for a line with a digit, the price is the numeral at the first digit; the name is the rest of the line, with that match (and its trailing spaces and 元) cut out, trimmed; the line gives an item exactly when that name is non-empty and the price positive |
| Receipt.PriceMatchAtFirstDigit | src/services/ocrService.ts:169-170 | the leftmost price match starts at the line's first digit |
| Receipt.NoDigitNoItem | src/services/ocrService.ts:169-170 | a line without a digit gives no item |
| Receipt.ItemsOfAppend | src/services/ocrService.ts:167-178 | items of consecutive blocks of lines come out one block after the other, so items keep line order |
| Receipt.ItemsOfSingle | src/services/ocrService.ts:167-178 | one line gives its item if it has one, and nothing otherwise |
| Text.CollectAppend | src/services/ocrService.ts:167-178 | collecting over a concatenation collects over each part, in order |
| Receipt.ItemsOf | src/services/ocrService.ts:163-181 | at most as many items as lines, each with a non-empty name and a positive price |
| Receipt.ExtractItems | src/services/ocrService.ts:163-181 | the loop yields exactly `ItemsOf` of the text's lines: by `ItemsOfAppend` and `ItemsOfSingle`, one item per line that has one, in line order |
| Text.SplitJoin | src/services/ocrService.ts:165 | splitting at line breaks loses nothing: joining the pieces with '\n' gives the text back |
| Text.Trim | src/services/ocrService.ts:93 | the trimmed string has no whitespace at either end, is empty exactly when the string is all whitespace, and is the string itself when that has none at its ends |
| Text.TrimIsSlice | src/services/ocrService.ts:93 | the trimmed string is a slice of the string with only whitespace before and after it |
| Text.ReplaceAllSkip | src/services/naturalLanguageParser.ts:118-121 | a global replace passes a prefix through unchanged when its pattern matches at none of the prefix's positions |
| Dates.MakeDate | src/services/ocrService.ts:153 | `new Date(y, m, d)` is a valid day, d - 1 days after the 1st of month m mod 12 of year y + m div 12, with years 0-99 read as 1900-1999 |
| Dates.LastDayOfMonth | src/context/ExpenseContext.tsx:187 | day 0 of the next month is the last day of this month |
| Dates.ShiftToWeekday | src/pages/Calendar-simple.tsx:33-34 | moving by t - `getDay()` days lands on the day of the same week whose `getDay()` is t |

## Left out

- I/O and foreign calls: the Tesseract worker (`initialize`, `processImage`, `processReceipt`, `cleanup`), the currency service's network fetch and cache, speech recognition, and settings export and import. They are effects outside the core.
- React rendering, routing and component state, including the form parsing inside the add-expense page. None of it calls the parser service.
- Floating point: the `percentage` field of the top categories, the OCR confidence scaling and `parseFloat` rounding. Amounts are exact reals, so sums are exact.
- `ExpenseStore.Reduce` carries no contract of its own. Each of its branches is stated by the lemmas in the table: `ReduceFrame`, `AddAppends`, the `ReplaceById` and `RemoveById` lemmas, and `AddThenDelete`.
- Time zones and daylight saving. A `Moment` is a local calendar day plus the milliseconds since midnight, and every day has 86400000 ms.
- Only ASCII letters are lower-cased, and the JavaScript `\s` set is listed character by character. Strings are sequences of code points rather than UTF-16 units. This matters only for characters outside the Basic Multilingual Plane.
- `Dashboard.FoldTotals` treats every category name as an ordinary key. In JavaScript, `acc[category]` on a plain object also sees inherited members. A category named `toString` or `constructor` starts from a function rather than 0, so its total becomes a string. A category named `__proto__` is not stored as a key at all. The model gives every name its numeric total.
- Object key order for integer-like keys: a category or account name that looks like an array index would be enumerated first in JavaScript. The model keeps plain insertion order.
- Ids come from `Date.now()`. The id generation is not modelled. Ids are arbitrary strings and may collide, and the collision lemmas show the consequences.
- The `isNaN(date.getTime())` guards in both date extractors never fail for digit captures, so the model has no such branch.
- `Math.max(...numbers)` throws for a very large number of numerals, because of the engine's argument limit. The model takes the maximum of any number of them.
- `Dashboard.SortSpec`: the order among equal totals is not stated. The source's sort is stable, and the model's insertion sort keeps equal totals in accumulator order.
- Three assertions of the parser's unit tests contradict the code: the confidence for 今天去買東西, the category for 買書, and the suggestions for 買了一些東西. The model follows the code.
