# Rikishi profile extraction, modelled in Dafny

This project models the part of the sumo scraper `pkg/scrape/rikishi.go` that
turns a parsed SumoDB wrestler page into a `Rikishi` record. It covers three steps.

1. **Locating the table.** `parseHTMLResponse` walks the HTML tree depth-first.
   - A `<table>` without a `class` attribute is skipped together with everything inside it. The extraction fails on it only when the document root is such a table.
   - It remembers the last `rikishidata` table that has no siblings, and the last `rikishi` table.
   - It then reads the remembered data table.
2. **Reading attributes.** `getAttributeByName` returns the value of the first attribute with the given key.
3. **Reading the rows.** `parseRikishiDataTable` walks the rows of the table's last child.
   - The second cell's first child gives a label, the third cell's first child gives a value.
   - Each of nine labels sets one field (two for Height and Weight).
   - Birth Date, Height and Weight, and Hatsu Dohyo go through a regular expression. Birth Date also goes through `time.Parse` with the layout `"January 2, 2006"`, and Height and Weight through `strconv.Atoi`.
   - The first failing row ends the walk with its error.

The modules follow that structure:

| file | module | what it holds |
|---|---|---|
| `wrappers.dfy` | `Wrappers`, `Errors` | `Option`, `Result` and the error kinds. |
| `text.dfy` | `Text` | The ASCII `\d` and `\w` classes, greedy runs, `strings.ToLower` on ASCII, decimal digits, and `strconv.Atoi` for 64-bit `int`. |
| `regex.dfy` | `Regex` | The three fixed patterns. `ShapeAt` says declaratively what a match is. `MatchAt` is a greedy matcher, `Find` the leftmost search, and `FindStringSubmatch` the capture groups Go returns. |
| `dates.dfy` | `Dates` | `time.Parse` for the one layout used: case-insensitive month names, the layout's space handling, a one- or two-digit day, a four-digit year and day-of-month validation with leap years. `ParseDate` reads back every date `FormatDate` writes (years 0-9999). |
| `html.dfy` | `Html` | The `html.Node` tree as a value, and `getAttributeByName` as a method with its loop. |
| `fields.dfy` | `Fields` | The record as a value (`Profile`). The per-label switch is `Extract` (what a row means) plus `Apply` (which fields it writes). |
| `rows.dfy` | `Rows` | The mutable `Rikishi` object and the row loop `ParseRikishiDataTable`. It is proved against the recursive specification `Walk`, which also says exactly when the Go loop would dereference nil (`Panic`). |
| `locator.dfy` | `Locator` | The crawler closure as class `Crawler`, whose fields are the two captured variables. Its recursive method is proved against `Visited` (the order in which nodes are visited) folded with `Mark`. `ParseHTMLResponse` is the whole extraction. |

## Model

| member | source | states |
|---|---|---|
| Text.RunEnd | pkg/scrape/rikishi.go:86 | A greedy `\w+` or `\d+` run started at i stops at e. Every character before e is in the class. The character at e, if any, is not. |
| Text.RunEndUnique | pkg/scrape/rikishi.go:107 | Any run of the class that is followed by a non-class character or the end is exactly the greedy one. |
| Text.ToLower | pkg/scrape/rikishi.go:83 | The result has the input's length and each character is the lower-case form of the input's. No upper-case ASCII letter is left. |
| Text.ToLowerIdempotent | pkg/scrape/rikishi.go:131 | Lower-casing a stored value again changes nothing. |
| Text.Atoi | pkg/scrape/rikishi.go:117 | A number that `strconv.Atoi` accepts lies in the 64-bit int range. |
| Text.AtoiDigits | pkg/scrape/rikishi.go:117-125 | On a captured digit string, Atoi succeeds exactly when the value is at most 2^63-1, and then yields that value. |
| Regex.ShapeAt | pkg/scrape/rikishi.go:86-140 | Defines declaratively what a match of each of the three pattern literals (86, 107, 140) starting at a position is, with the ends of its greedy runs. |
| Regex.MatchAt | pkg/scrape/rikishi.go:86-140 | Defines the greedy match of each pattern (86, 107, 140) at one start position, as used at 91, 112 and 145. MatchAtSound and MatchAtComplete tie it to ShapeAt. |
| Regex.FindStringSubmatch | pkg/scrape/rikishi.go:91-94 | Go's `FindStringSubmatch` without the whole-match entry: as many groups as the pattern has, and for Hatsu Dohyo a group of the form "DDDD.DD". |
| Regex.Captures | pkg/scrape/rikishi.go:112-113 | A match yields exactly as many groups as its pattern has (two for height and weight, one otherwise). The Hatsu Dohyo group is four digits, a dot and two digits. |
| Regex.MatchAtSound | pkg/scrape/rikishi.go:86 | What the greedy matcher returns at i is a match at i. |
| Regex.MatchAtComplete | pkg/scrape/rikishi.go:107 | Every match at i is the one the greedy matcher returns. Matches at a given start are unique, so leftmost-first and leftmost agree. |
| Regex.NoShapeAt | pkg/scrape/rikishi.go:140 | When the greedy matcher fails at i, there is no match at i at all. |
| Regex.Find | pkg/scrape/rikishi.go:145 | The search returns a match at or after `from` with no match between `from` and it. None means no match anywhere at or after `from`. |
| Regex.NoMatchIffNoShape | pkg/scrape/rikishi.go:91-94 | `FindStringSubmatch` has no result exactly when the pattern occurs nowhere in the value. |
| Regex.LeftmostCaptures | pkg/scrape/rikishi.go:145-150 | With a match at i and none before it, the groups returned are that match's groups. |
| Dates.CutSpace | pkg/scrape/rikishi.go:96 | Exactly the leading spaces are dropped. The result is a suffix of the input, everything dropped is a space, and the result does not start with a space. |
| Dates.Skip | pkg/scrape/rikishi.go:96 | Go's `skip` inside `time.Parse`: matches the layout's literal text at the front of the value, a layout space matching a run of spaces or the end of the value. What it returns is a suffix of the value, and an empty literal returns the value unchanged. |
| Dates.GetNum | pkg/scrape/rikishi.go:96 | Go's `getnum` for the non-padded day: fails exactly when the value does not start with a digit. Otherwise it reads one or two digits, their decimal value, and one digit only when no second digit follows. |
| Dates.LookupMonth | pkg/scrape/rikishi.go:96 | The result is the first month from m on whose name (ASCII case ignored) begins s. No earlier month's does. None means that no month's name does. |
| Dates.ParseDayYear | pkg/scrape/rikishi.go:96-99 | The day and year after the month give a real calendar date in that month, or nothing. |
| Dates.ParseDate | pkg/scrape/rikishi.go:96-99 | Every date `time.Parse` accepts here is a real calendar date: month 1-12, day within the month, with leap years. |
| Dates.ParseDayYearOfCapture | pkg/scrape/rikishi.go:96-99 | On every day-and-year text the pattern captures (a digit run, ", ", four digits), the result is that day and year exactly when the day has at most two digits (leading zero allowed) and exists in the month of that year. Otherwise there is no result. |
| Dates.LookupMonthBeforeSpace | pkg/scrape/rikishi.go:96 | The month lookup of a word followed by a space depends on the word alone. |
| Dates.ParseDateOfCapture | pkg/scrape/rikishi.go:86-99 | On every text the birth-date pattern captures (word, space, digits, ", ", four digits), the exact result. It is a date exactly when the word is a whole month name in any ASCII case and the day and year meet the conditions above. Otherwise there is no result. |
| Dates.ParseDateUpperCaseExample | pkg/scrape/rikishi.go:96 | "JANUARY 02, 2006" parses as 2006-01-02. |
| Dates.MonthPrefixUnique | pkg/scrape/rikishi.go:96 | At most one month name begins a string, case ignored. |
| Dates.LookupMonthOfName | pkg/scrape/rikishi.go:96 | A value that starts with month m's name looks up as month m, whatever follows. |
| Dates.ParseFormatDate | pkg/scrape/rikishi.go:96-101 | Parsing the layout rendering of any valid date with a year 0-9999 gives that date back. |
| Html.AttrLookup | pkg/scrape/rikishi.go:160-168 | Defines the attribute search `getAttributeByName` performs on a list of attributes; its properties are stated by AttrLookupFirst. |
| Html.AttrLookupFirst | pkg/scrape/rikishi.go:160-168 | There is no value exactly when no attribute has the key. Otherwise the value is that of the first attribute with the key. |
| Html.GetAttributeByName | pkg/scrape/rikishi.go:160-168 | Success carries the value of the first attribute whose key is `name`. The method fails with `AttributeMissing(name)` exactly when no attribute has that key. |
| Fields.Extract | pkg/scrape/rikishi.go:78-151 | The label switch: what one row means, as an update or the error it fails with. Only the Birth Date, Height and Weight, and Hatsu Dohyo cases can fail. |
| Fields.BirthDateOf | pkg/scrape/rikishi.go:85-101 | The Birth Date case: a stored date is a real calendar date, and the only errors are BirthDateMismatch and DateParse. |
| Fields.HeightWeightOf | pkg/scrape/rikishi.go:106-128 | The Height and Weight case: both numbers are between 0 and 2^63-1, and the only errors are HeightWeightMismatch and NumberParse. |
| Fields.FirstBashoOf | pkg/scrape/rikishi.go:139-150 | The Hatsu Dohyo case: what it stores is always "DDDD.DD", and its only error is FirstBashoMismatch. |
| Fields.Apply | pkg/scrape/rikishi.go:80-150 | Defines the switch's field assignments `r.X = ...` for one update. UpdatesCommute and SameLabelOverwrites state its properties. |
| Fields.ApplyField | pkg/scrape/rikishi.go:78-151 | Defines one row's effect on the record: the row's error, or the record with its update applied. The *Field, *Rule and *Missing lemmas state its outcome per label. |
| Fields.ExtractLabel | pkg/scrape/rikishi.go:78-151 | An update that a row produces belongs to the row's own label. |
| Fields.ExtractNoOp | pkg/scrape/rikishi.go:78-151 | A row changes nothing and raises no error exactly when its label is not one of the nine the switch knows. |
| Fields.UnknownLabelIsNoOp | pkg/scrape/rikishi.go:151 | A row with an unknown label leaves the record as it is and raises no error. |
| Fields.PersonalFieldsStoreLowerCase | pkg/scrape/rikishi.go:82-137 | Real Name, Shusshin and Shikona never fail. Each stores the lower-cased value in its own field and leaves every other field unchanged. |
| Fields.AffiliationFieldsStoreLowerCase | pkg/scrape/rikishi.go:130-134 | University and Heya never fail. Each stores the lower-cased value in its own field and leaves every other field unchanged. |
| Fields.HighestRankIsSlug | pkg/scrape/rikishi.go:79-80 | Highest Rank never fails. It stores `slug.Make` of the value and leaves every other field unchanged. |
| Fields.BirthDateRule | pkg/scrape/rikishi.go:85-101 | For the leftmost birth-date match, the rule stores the date parsed from its "Month D, YYYY" part, or fails with DateParse. A stored date is a real calendar date. |
| Fields.BirthDateCaptureParts | pkg/scrape/rikishi.go:86 | The captured group is the match's word, a space, its day digits, ", " and its four year digits. |
| Fields.BirthDateValue | pkg/scrape/rikishi.go:85-101 | Which date a Birth Date value yields. The leftmost match's word must be a whole month name in any case, and its day one or two digits that exist in that month of that year. Then the result is that date; otherwise the row fails with DateParse. |
| Fields.BirthDateMissing | pkg/scrape/rikishi.go:91-94 | Birth Date fails with BirthDateMismatch exactly when the pattern occurs nowhere in the value. |
| Fields.HeightWeightRule | pkg/scrape/rikishi.go:106-128 | For the leftmost match, the rule stores the two numbers when both fit an int, and fails with NumberParse otherwise. |
| Fields.HeightWeightField | pkg/scrape/rikishi.go:106-128 | A Height and Weight row either sets both numbers its rule yields or fails with the rule's error. |
| Fields.HeightWeightMissing | pkg/scrape/rikishi.go:112-115 | Height and Weight fails with HeightWeightMismatch exactly when the pattern occurs nowhere. |
| Fields.HeightWeightAllOrNothing | pkg/scrape/rikishi.go:117-128 | Height and weight are set together from one match, and no other field changes. When either is not set, the row fails. |
| Fields.FirstBashoRule | pkg/scrape/rikishi.go:139-150 | Hatsu Dohyo stores the leftmost "DDDD.DD", wherever it stands in the value. |
| Fields.FirstBashoMissing | pkg/scrape/rikishi.go:145-148 | Hatsu Dohyo fails with FirstBashoMismatch exactly when no "DDDD.DD" occurs. |
| Fields.FailureIgnoresRecord | pkg/scrape/rikishi.go:85-148 | Whether a row fails, and with which error, depends only on its label and value, never on the record built so far. |
| Fields.SameLabelOverwrites | pkg/scrape/rikishi.go:78-151 | A second update for the same label overwrites everything the first one wrote. |
| Fields.RepeatedLabelLastWins | pkg/scrape/rikishi.go:78-151 | After a row succeeds, a later row with the same label gives the same record as the later row alone. |
| Fields.UpdatesCommute | pkg/scrape/rikishi.go:78-151 | Updates from different labels write disjoint fields, so they can be applied in either order. |
| Fields.DistinctLabelsCommute | pkg/scrape/rikishi.go:78-151 | Two successful rows with different labels give the same record in either order. |
| Fields.ParseDateExample | pkg/scrape/rikishi.go:96 | "January 2, 2006" parses as 2006-01-02. |
| Fields.BirthDateExample | pkg/scrape/rikishi.go:85-101 | "January 2, 2006 (23 years)" yields the date 2006-01-02. |
| Fields.HeightWeightExample | pkg/scrape/rikishi.go:106-128 | "180 cm 120 kg" yields height 180 and weight 120. |
| Fields.NoSpaceNoHeightWeight | pkg/scrape/rikishi.go:107-115 | A value without any space fails Height and Weight with HeightWeightMismatch. |
| Fields.HeightWeightNoSpaces | pkg/scrape/rikishi.go:107-115 | "180cm120kg" fails with HeightWeightMismatch. |
| Fields.FirstBashoExample | pkg/scrape/rikishi.go:140-150 | "2012.01 (Hatsu)" and "Hatsu 2012.01" both yield "2012.01". |
| Rows.Rikishi.constructor | pkg/scrape/rikishi.go:205 | A new record has every field at its zero value (date 0001-01-01). |
| Rows.RowReadable | pkg/scrape/rikishi.go:55-68 | Defines the nil-dereference condition of one row: a row with a first child must have a second one, since `tdKey.NextSibling` is taken without a check. |
| Rows.Body | pkg/scrape/rikishi.go:52 | Defines `tbody := node.LastChild`. |
| Rows.TableRows | pkg/scrape/rikishi.go:52-54 | Defines the row chain the loop follows: the children of the table's last child, in order. |
| Rows.TableReadable | pkg/scrape/rikishi.go:52-68 | Defines when the Go code does not dereference nil: the table has a last child and no row the walk reaches is unreadable. ParseRikishiDataTable requires exactly this. |
| Rows.ReadRow | pkg/scrape/rikishi.go:55-76 | Defines which cells a row's label and value text come from and when a row is skipped. Its properties are stated by SkippedRowChangesNothing and MissingValueCellIsEmpty. |
| Rows.Walk | pkg/scrape/rikishi.go:54-153 | Defines the row loop over a sequence of rows: rows in order, the first failure stops it, and an unreadable row is a panic. Its properties are stated by WalkAppend, AbortIgnoresLaterRows, WalkKeepsId and SwapDistinctRows. |
| Rows.ParseRikishiDataTable | pkg/scrape/rikishi.go:47-155 | A missing table fails with TableNotFound and changes nothing. Otherwise the final record and error are those of `Walk` over the rows of the table's last child, starting from the record as it was. |
| Rows.SetField | pkg/scrape/rikishi.go:78-151 | The record becomes what the label's rule makes of it. On error it is left as it was and the error is returned. |
| Rows.WalkAppend | pkg/scrape/rikishi.go:54-153 | Walking two runs of rows means walking the first and then, unless it stopped, the second from where the first left the record. |
| Rows.AbortIgnoresLaterRows | pkg/scrape/rikishi.go:87-148 | After a row fails at any of the loop's early returns (Birth Date at 87-99, Height and Weight at 108-125, Hatsu Dohyo at 141-148), no later row is read and none can change the outcome. |
| Rows.SkippedRowChangesNothing | pkg/scrape/rikishi.go:55-75 | A row with no cells, or with an empty label or value cell, is passed over without error or change. |
| Rows.MissingValueCellIsEmpty | pkg/scrape/rikishi.go:68-76 | A row with a label but no third cell is dispatched with the empty string as its value. |
| Rows.WalkKeepsId | pkg/scrape/rikishi.go:47-155 | The table walk never changes the record's SumoDB id. |
| Rows.SwapDistinctRows | pkg/scrape/rikishi.go:54-153 | Swapping two neighbouring successful rows with different labels does not change the outcome. |
| Rows.HeightWeightRowExample | pkg/scrape/rikishi.go:106-128 | A table holding only the row "Height and Weight" / "180 cm 120 kg" gives height 180 and weight 120. |
| Rows.HeightWeightRowMismatch | pkg/scrape/rikishi.go:112-115 | The same row with "180cm120kg" stops with HeightWeightMismatch and leaves the record unchanged. |
| Rows.UnknownRowExample | pkg/scrape/rikishi.go:78 | A "Nickname" row leaves the record unchanged and raises no error. |
| Locator.ClassLess | pkg/scrape/rikishi.go:176-180 | Defines the crawl's early return: a `table` element with no `class` attribute. |
| Locator.Qualifies | pkg/scrape/rikishi.go:182-189 | Defines when a visit records a table: its class is the wanted one and, for "rikishidata", it has no siblings. |
| Locator.Mark | pkg/scrape/rikishi.go:182-191 | Defines the crawler's `switch a` on one visit: a lone "rikishidata" table becomes the data table, any "rikishi" table the rikishi table. |
| Locator.Fold | pkg/scrape/rikishi.go:175-198 | Defines the effect of the whole crawl on the two captured variables: Mark applied to the visits in order. FoldAppend and FoldLast state its properties. |
| Locator.Located | pkg/scrape/rikishi.go:200-207 | Defines the data table the crawl of a document settles on: the last lone "rikishidata" table of its visiting order. |
| Locator.Visited | pkg/scrape/rikishi.go:175-198 | The order in which the crawl visits nodes. A table without a class gives no visits at all, and any other node is visited first, before its subtree. |
| Locator.LastTable | pkg/scrape/rikishi.go:182-191 | None means no visit qualifies. Otherwise the result is a qualifying visit's node with no qualifying visit after it. |
| Locator.Crawler.constructor | pkg/scrape/rikishi.go:171 | The crawl starts with no table remembered. |
| Locator.Crawler.Crawl | pkg/scrape/rikishi.go:175-198 | The new remembered tables are the old ones with every visit of the subtree marked, in visiting order. The error is `AttributeMissing("class")` exactly when the node is a table without a class. |
| Locator.ParseHTMLResponse | pkg/scrape/rikishi.go:170-213 | A class-less root table fails with AttributeMissing("class"). With no qualifying table the result is TableNotFound. Otherwise the result is the record the row walk gives for the last lone "rikishidata" table, or that walk's error with no record. |
| Locator.FoldAppend | pkg/scrape/rikishi.go:194-196 | Marking two runs of visits means marking the second after the first. |
| Locator.LastTableAppend | pkg/scrape/rikishi.go:184-190 | A later qualifying table replaces an earlier one. |
| Locator.FoldLast | pkg/scrape/rikishi.go:182-191 | Each remembered table is the last qualifying table visited, or what was remembered before when none qualifies. |
| Locator.DataTableIgnoresOtherVisits | pkg/scrape/rikishi.go:183-187 | Adding visits that are not lone "rikishidata" tables anywhere in the visiting order leaves the data table as it was. This includes the "rikishi" tables. |
| Locator.ChildrenVisited | pkg/scrape/rikishi.go:194-196 | Below a node the crawl gets past, the visits of every child are among the node's own. |
| Locator.VisitedNeverClassLess | pkg/scrape/rikishi.go:176-180 | No visited node is a table without a class: such a table ends its own subtree's visit. |
| Locator.NestedDataTableExample | pkg/scrape/rikishi.go:183-187 | An outer "rikishidata" table with a sibling wraps a lone inner one, and the inner one is taken. |
| Locator.ClassLessHidesTableExample | pkg/scrape/rikishi.go:177-180 | A lone "rikishidata" table inside a table without a class is never reached, so nothing is located. |

Where the code and its evident intent could be read differently, the model follows the code:

- The Hatsu Dohyo pattern `(\d{4}\.\d{2}).*` is not anchored. "DDDD.DD" is found anywhere in the value, not only at its start.
- A table without a `class` attribute returns an error from its own crawl call. The loop over its parent's children discards that error. So such a table only cuts off its own subtree, and the whole extraction fails only when the document root itself is such a table.
- Height and Weight fails with a number error only when a captured number does not fit a 64-bit int. The pattern already guarantees digits.

## Left out

- `Scrape` and `main`: the HTTP request, `html.Parse` of the response and printing are I/O. The document reaches the model as an already-parsed `Node` tree. Setting `SumoDBID` after a successful parse also belongs to `Scrape`.
- `slug.Make` is code from another library and is not part of this model. It is a function parameter `slug`, and Highest Rank is proved to store `slug(value)` for whatever that function is.
- Text.ToLower: only ASCII letters are lowered; Go's Unicode case mapping of other letters is not modelled.
- Dates.ParseDate: only the date is kept. The time of day, the zone (UTC for this layout) and Go's error texts are not modelled. The year must be exactly four digits followed by nothing.
- Dates.ParseFormatDate: proved for years 0 to 9999, the ones the layout writes with four digits.
- The texts of Go's error messages are not modelled, only which error kind arises.
- A nil dereference in the row loop (a table with no child, or a row with exactly one cell) is a Go panic. It appears as the `Panic` outcome of `Walk`, and `ParseRikishiDataTable` and `ParseHTMLResponse` require that it does not occur.
- Node identity and sibling pointers: the tree is a value. "No previous and no next sibling" becomes the `alone` flag that the crawl passes down (true for the root, and for a child exactly when it is its parent's only child). A located table is the node value, not a pointer into the tree.
- The returned `*Rikishi` is modelled as the `Profile` value read from the filled-in object.
- The remembered "rikishi" table is modelled and proved about, but the code never reads it. The commented-out basho-results type and `parseRikishiTable` are not code.
- The compile errors of the three `regexp.Compile` calls cannot happen for those fixed patterns and are not modelled.
