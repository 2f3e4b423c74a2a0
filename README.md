# Earnings paste analyser: verified model of the parser and the reports

The application takes a creator-platform earnings export that a user pastes in. From it,
it builds a list of transactions, then three reports:

- an hourly chart;
- a category breakdown;
- a top-spender list.

This project models both halves in Dafny and proves what they promise.

**The parser, in `src/utils.js`:**

- `parseDateTime` recognises `Mon D, YYYY, H:MM am|pm` and converts the hour to the 24-hour clock.
- `formatHourAmPm` turns a 24-hour hour back into `H AM`/`H PM`.
- `classify` runs an ordered first-match table of description keys. `Payment` becomes `PPV` or `Bundle` by the cents of the gross.
- `categoryFromType` maps a type to its category.
- `parseRow` reads one tab-separated row.
- `parseTransactions` is the cursor loop over the lines. Each line is a whole row or the start of a row spread over five lines.

**The reports, in `src/App.jsx`:**

- The aggregation memo builds the PPV and non-PPV totals and the hourly buckets.
- The `breakdown` memo of `StatsCards` computes the four category totals with their percentages, largest first.
- The `TopSpenders` memo groups gross and net by buyer name and keeps the three largest.

**Modules:**

- `Wrappers` (wrappers.dfy): `Option` (JavaScript's `null`).
- `Text` (text.dfy): `trim`, `split`, `join`, `toLowerCase`, `includes`, digit runs and decimal numerals.
- `DateTime` (datetime.dfy): the two regular expressions of `parseDateTime`, the 12/24-hour conversions, `startOfHour`.
- `Money` (money.dfy): `Number(...)` of a money cell, in cents; `toFixed(2)` and the balance check.
- `Classification` (classify.dfy): the rule table, `classify`, `categoryFromType`.
- `RowParser` (rowparser.dfy): `parseRow`.
- `TransactionParser` (transactions.dfy): `parseTransactions` as an imperative loop, specified by the list of its turns.
- `Sorting` (sorting.dfy): the stable sort that `Array.prototype.sort` performs, as insertion by key, with its properties.
- `Aggregate` (aggregate.dfy): the totals and the hourly buckets: a loop over a `map` of buckets, specified by per-hour functions.
- `Breakdown` (breakdown.dfy): the category breakdown loop and its list.
- `Spenders` (spenders.dfy): the top-spender loop over a `map` of names.

Money is integer cents throughout. Timestamps are integers in milliseconds.

Points about the code that a reader might not expect, which the model follows:

- **Classification rules.** The keys are the stems of `TYPE_RULES`: "tip"/"sugerenc", "post"/"publica", "stream", "recurring"/"resub", "sub", "payment"/"pago". They are taken in that order. Phrases such as "payment for message" are not the keys.
- **Stream.** There is a `Stream` type. It has no category.
- **`isPpv`.** It is true exactly for type `PPV`. No type is "premium" otherwise.
- **PPV or Bundle.** A `Payment` match becomes `PPV` when the gross has non-zero cents and `Bundle` otherwise.
- **Uncategorised transactions and the buckets.** A transaction without a category still counts in the totals. It creates no bucket and adds nothing to `all` or `count`.

## Model

| member | source | states |
|---|---|---|
| `Text.Trim` | src/utils.js:67 | the result has no white space at either end, is empty exactly when the input is all white space, and is no longer than the input (with `TrimSlice`: it is the input less its leading and trailing white space) |
| `Text.TrimSlice` | src/utils.js:67 | what `trim` keeps is one contiguous piece of the input with only white space before and after it |
| `Text.TrimIdempotent` | src/utils.js:94 | trimming a trimmed line changes nothing |
| `Text.TrimUnchanged` | src/utils.js:94 | a non-empty line without surrounding white space is its own trim |
| `Text.Lower` | src/utils.js:47 | `toLowerCase` keeps the length and lowers every character, leaving no upper-case ASCII letter |
| `Text.ToLower` | src/utils.js:18 | an upper-case ASCII letter becomes the letter 32 code points above it (its lower case) and every other character is unchanged; so the result is a letter or a digit exactly when the input was, and is never upper case |
| `Text.ContainsIffOccurs` | src/utils.js:48 | `includes` holds exactly when the key occurs at some position |
| `Text.ContainsLength` | src/utils.js:48 | a contained key is no longer than the text |
| `Text.Split` | src/utils.js:67 | `split` gives at least one piece and no piece holds the separator |
| `Text.JoinSplit` | src/utils.js:67 | joining the pieces of a split with the separator gives back the text |
| `Text.SplitJoin` | src/utils.js:117 | splitting a join of separator-free parts gives back exactly those parts |
| `Text.IndexOf` | src/utils.js:67 | the first position of a character that occurs |
| `Text.SpaceRun` | src/utils.js:11 | the length of the maximal `\s*` run from a position |
| `Text.DigitRun` | src/utils.js:11 | the length of the maximal run of digits from a position |
| `Text.TrailingSpaceRun` | src/utils.js:67 | the length of the maximal white-space run at the back |
| `Text.DecimalString` | src/utils.js:27 | the decimal numeral of a number: digits only, no leading zero, whose value is that number |
| `DateTime.To24Hour` | src/utils.js:17-19 | hours 1..12 map into 0..23, and the result is at least 12 exactly for pm |
| `DateTime.ClockHour` | src/utils.js:26-27 | `h % 12 \|\| 12` is in 1..12 and the period is PM exactly when h >= 12 |
| `DateTime.FormatHourAmPm` | src/utils.js:25-28 | the text is an hour numeral in 1..12 followed by " PM" exactly when h >= 12, else " AM"; for h in 0..23, converting it back with the hour rule gives h |
| `DateTime.ClockHourOfTo24Hour` | src/utils.js:17-19 | 12-hour to 24-hour and back gives the original hour and period |
| `DateTime.To24HourOfClockHour` | src/utils.js:25-28 | 24-hour to 12-hour and back gives the original hour |
| `DateTime.GluedLength` | src/utils.js:8 | a year glued to a time is a match of 8 or 9 characters starting with digits |
| `DateTime.Normalize` | src/utils.js:8 | the global replace; `NormalizeLength` bounds what it inserts, `NormalizeNoGlue`, `NormalizeGlued` and `NormalizeSpaced` state what it does to text without and with a glued year and time |
| `DateTime.NormalizeLength` | src/utils.js:8 | the replace only lengthens the text, by at most one character for every eight |
| `DateTime.NormalizeKeepsPrefix` | src/utils.js:8 | the global replace leaves a prefix without a glued year and time unchanged |
| `DateTime.NormalizeNoGlue` | src/utils.js:8 | text with no glued year and time is unchanged by the replace |
| `DateTime.NoGlueNear` | src/utils.js:8 | no glued year and time starts within five characters before a non-digit |
| `DateTime.NormalizeGlued` | src/utils.js:8 | the replace turns `Mon D, YYYYH:MMpm` into `Mon D, YYYY H:MMpm` |
| `DateTime.NormalizeSpaced` | src/utils.js:8 | the replace leaves an already spaced date unchanged |
| `DateTime.NormalizeYearTime` | src/utils.js:8 | a year glued to a time gets exactly one space between them |
| `DateTime.DatePartAt` | src/utils.js:11 | a match of `Mon\s+D,\s*YYYY` has three letters, one or two day digits and four year digits, ending inside the text |
| `DateTime.TimePart` | src/utils.js:11 | a match of `,?\s*H:MM\s*(am\|pm)` has one or two hour digits and two minute digits |
| `DateTime.ClockFrom` | src/utils.js:11 | the `H:MM\s*(am\|pm)` part has one or two hour digits and two minute digits |
| `DateTime.MatchAt` | src/utils.js:10-12 | a match at a position is well formed: letters, digits and lengths as the pattern demands |
| `DateTime.FindFrom` | src/utils.js:10-12 | the leftmost match is well formed |
| `DateTime.FindFromLeftmost` | src/utils.js:10-12 | a found match is the match at some position with no match before it |
| `DateTime.FindFromNone` | src/utils.js:10-13 | no match is found exactly when there is no match at any position |
| `DateTime.MatchHasYear` | src/utils.js:11 | any match contains four consecutive digits |
| `DateTime.NoGlueWithoutYear` | src/utils.js:8 | text without four consecutive digits has no glued year and time |
| `DateTime.NoYearNoDate` | src/utils.js:7-13 | text without a four-digit year yields null |
| `DateTime.ParseDateTime` | src/utils.js:7-23 | a timestamp, when there is one, is what the date constructor returns for the fields of a well-formed match (hour on the 24-hour clock); `ParseRendered`, `GluedParsesAsSpaced` and `NoYearNoDate` state which texts give which date |
| `DateTime.MatchRendered` | src/utils.js:10-12 | a date printed with ", ", " " or nothing between year and time is matched at its start with its own fields |
| `DateTime.DatePartRendered` | src/utils.js:11 | the date part of a printed date reads back its month, day and year |
| `DateTime.TimePartRendered` | src/utils.js:11 | the time part of a printed date reads back its hour, minutes and period |
| `DateTime.ParseRendered` | src/utils.js:7-23 | a printed date parses to the date constructor applied to its fields, with the hour in 24-hour form |
| `DateTime.GluedParsesAsSpaced` | src/utils.js:8-13 | `YYYYH:MM` glued parses the same as `YYYY H:MM` |
| `DateTime.StartOfHour` | src/App.jsx:297 | the hour start is a multiple of an hour, at most the timestamp and less than an hour before it |
| `DateTime.SameHour` | src/App.jsx:297 | a timestamp falls in the bucket of hour h exactly when it lies in [h, h + 1 hour) |
| `Money.FractionCents` | src/utils.js:74-76 | up to two decimals read as fewer than 100 cents |
| `Money.UnsignedCents` | src/utils.js:74-76 | an empty numeral does not read; `UnsignedPointed`, `ParseWholeDollars`, `UnsignedStrayCharacter` and `UnsignedTwoPoints` state what a numeral reads as and which do not read |
| `Money.UnsignedPointed` | src/utils.js:74-76 | digits, a point and at most two decimals, with at least one digit, read as the dollars times 100 plus the decimals as cents: "9.5" is 950, ".5" is 50, "05.25" is 525 |
| `Money.UnsignedStrayCharacter` | src/utils.js:74-76 | a numeral holding any character other than a digit or a point does not read ("1,234.56") |
| `Money.UnsignedTwoPoints` | src/utils.js:74-76 | a numeral holding two points does not read |
| `Money.ParseCents` | src/utils.js:74-76 | `Number` of a blank cell is 0 |
| `Money.Decimals` | src/utils.js:78 | `toFixed(2)` prints two digits that read back as the cents |
| `Money.FixedUnsigned` | src/utils.js:78 | `toFixed(2)` prints digits, a point and two digits |
| `Money.ToFixed2` | src/utils.js:78 | the printed amount has two decimals and a minus sign exactly when negative |
| `Money.UnsignedOfFixed` | src/utils.js:78 | an unsigned amount printed by `toFixed(2)` reads back as itself |
| `Money.ParseUnsigned` | src/utils.js:74-76 | an unsigned numeral that starts and ends with a digit reads the same with or without the trim and the sign handling |
| `Money.SignedCents` | src/utils.js:74-76 | an empty numeral is 0; a value read from a numeral with a leading "-" is never positive, and one read without it never negative |
| `Money.ParseNegative` | src/utils.js:74-76 | a minus sign in front negates the value |
| `Money.ParseToFixed2` | src/utils.js:78 | `Number(x.toFixed(2))` is x for every cent amount |
| `Money.ParseToFixed2Negative` | src/utils.js:78 | the same for negative amounts |
| `Money.ParseToFixed2NonNegative` | src/utils.js:78 | the same for non-negative amounts |
| `Money.ParseWholeDollars` | src/utils.js:74-76 | a numeral without a point is whole dollars |
| `Money.ParseTrailingZeros` | src/utils.js:74-76 | extra trailing zeros after the decimals do not change the amount |
| `Money.ReadsBackIff` | src/utils.js:78 | a row passes the balance check `Number((gross - fee).toFixed(2)) !== net` exactly when gross - fee equals net |
| `Classification.FindRule` | src/utils.js:48 | `find` returns the first rule, in table order, with a key in the text, or none when no rule has one |
| `Classification.CentsOf` | src/utils.js:52 | the cents of the gross lie in -99..99 and are 0 exactly for whole dollars |
| `Classification.Resolve` | src/utils.js:51-55 | `Payment` gives PPV exactly for non-zero cents and Bundle otherwise; every other rule gives its own type |
| `Classification.Classify` | src/utils.js:44-56 | an empty description gives null; PPV only with non-zero cents, Bundle only with whole dollars |
| `Classification.ClassifyFirstMatch` | src/utils.js:44-56 | the type is the one of the first rule whose key is in the lower-cased description |
| `Classification.ClassifyNone` | src/utils.js:44-49 | null exactly for an empty description or one matching no rule |
| `Classification.KeyMatches` | src/utils.js:48 | any one key contained in the text makes its rule match |
| `Classification.RuleMatches` | src/utils.js:48 | a rule matches when some key occurs in the text; `KeyMatches` and `FindRule` state how it drives `find` |
| `Classification.TipWins` | src/utils.js:35-48 | "tip" or "sugerenc" makes a Tip, whatever else the text holds |
| `Classification.PostBeatsPayment` | src/utils.js:35-48 | "post" without a tip key makes a Post, even with "payment" |
| `Classification.RecurringIsResub` | src/utils.js:35-48 | "recurring", with none of the first three rules matching, makes a Resub, not a Sub |
| `Classification.GrossOnlyForPayment` | src/utils.js:44-56 | the gross only chooses between PPV and Bundle; whether there is a type, and any other type, does not depend on it |
| `Classification.PpvIff` | src/utils.js:51-53 | PPV exactly when the description is a payment and the cents are non-zero; Bundle exactly when it is a payment of whole dollars |
| `Classification.CategoryFromType` | src/utils.js:58-64 | Tip to tips, Post to posts, Sub and Resub to subs, PPV and Bundle to messages, and only Stream to null, each an if-and-only-if |
| `Classification.UncategorisedIsStream` | src/utils.js:38 | a classified description without a category contains "stream" |
| `RowParser.TrimAll` | src/utils.js:67 | every cell is trimmed and none is lost |
| `RowParser.Cells` | src/utils.js:67 | at least one cell, and every cell empty or free of white space at both ends |
| `RowParser.MoneyBelow` | src/utils.js:68 | the positions listed are exactly the "$" cells below a bound, ascending |
| `RowParser.MoneyIndices` | src/utils.js:68 | the `money` array lists exactly the positions of the cells starting with "$", in ascending order |
| `RowParser.Amount` | src/utils.js:74-76 | the amount of a "$" cell read without its leading "$"; a bare "$" is 0 |
| `RowParser.DateText` | src/utils.js:71 | the cells before the first "$" cell joined by spaces: "" when there are none, the cell itself when there is one |
| `RowParser.Description` | src/utils.js:80 | the cells after the third "$" cell joined by spaces: "" when there are none, the cell itself when there is one |
| `RowParser.MoneyIndicesFirstThree` | src/utils.js:68-69 | the `money` list starts with i0, i1, i2 exactly when they are the first three "$" cells |
| `RowParser.FirstThreeListed` | src/utils.js:68 | the first three "$" cells head the `money` list |
| `RowParser.ListedFirstThree` | src/utils.js:68 | the head of the `money` list is the first three "$" cells |
| `RowParser.RowOf` | src/utils.js:71-90 | an accepted row has `isPpv` exactly when its type is PPV |
| `RowParser.RowAt` | src/utils.js:71-90 | the same, once the "$" cells are known |
| `RowParser.ParseRow` | src/utils.js:66-91 | the same for `parseRow` |
| `RowParser.RowOfIff` | src/utils.js:71-90 | a row is built exactly when the date and three amounts read, fee equals gross minus net, and the description has a type; its fields are those values |
| `RowParser.RowAtIff` | src/utils.js:71-90 | the same stated over the cells before, at and after the first three "$" cells |
| `RowParser.ParseRowIff` | src/utils.js:66-91 | `parseRow` returns a transaction exactly when the row is accepted as just stated: date from the cells before the first "$" cell, gross and net from the first and third, description after the third |
| `RowParser.FewMoneyCellsRejected` | src/utils.js:69 | fewer than three "$" cells gives null |
| `TransactionParser.TrimmedLines` | src/utils.js:94 | filtering keeps at most as many lines as there were (contents: `TrimmedLinesAppend`, `TrimmedLinesSnoc`, `TrimmedLinesFrom`, `TrimmedLinesKeep`) |
| `TransactionParser.TrimmedLinesClean` | src/utils.js:94 | every kept line is non-empty and trimmed |
| `TransactionParser.TrimmedLinesAppend` | src/utils.js:94 | the lines of two runs of pieces are the lines of the first, then those of the second: the order of the pieces is kept |
| `TransactionParser.TrimmedLinesSnoc` | src/utils.js:94 | one more piece adds its trimmed text as the last line, or nothing when that text is empty |
| `TransactionParser.TrimmedLinesFrom` | src/utils.js:94 | every kept line is the trimmed text of some piece |
| `TransactionParser.TrimmedLinesKeep` | src/utils.js:94 | the trimmed text of every piece that is not blank is kept |
| `TransactionParser.Lines` | src/utils.js:94 | no more lines than pieces of the split on line breaks, and every line non-empty with no white space at either end |
| `TransactionParser.StartsMultiLine` | src/utils.js:105-110 | a line that holds a date followed by three lines starting with "$"; `StepAt` makes it a five-line turn and `CombinedPieces` gives its cells |
| `TransactionParser.Combined` | src/utils.js:111-117 | the five lines joined by tabs, "" past the end; `CombinedPieces` states that they split back into those five cells |
| `TransactionParser.Steps` | src/utils.js:98-126 | no more turns than lines left, each turn consuming one line or five; `StepsCover` states that they consume the lines exactly |
| `TransactionParser.Run` | src/utils.js:98-128 | the loop as a function; `RunStep` states one turn of it and `RunIs` what it ends with |
| `TransactionParser.CombinedPieces` | src/utils.js:111-117 | the five lines joined by tabs split back into exactly those five cells, "" past the end |
| `TransactionParser.StepAt` | src/utils.js:99-125 | one turn consumes one line or five, and five only when at least four lines remain |
| `TransactionParser.Rows` | src/utils.js:101 | there are no more rows than turns |
| `TransactionParser.RunStep` | src/utils.js:98-126 | one turn adds its row or sets the flag and continues after the lines it consumed |
| `TransactionParser.RunIs` | src/utils.js:98-128 | the scan ends with the rows of all turns appended in order and the flag raised exactly when some turn failed |
| `TransactionParser.ScanLines` | src/utils.js:95-128 | the loop's `parsed` is the rows of the turns in input order and `hasError` holds exactly when some turn failed |
| `TransactionParser.ParseTransactions` | src/utils.js:93-129 | the same over the trimmed, non-empty lines of the pasted text |
| `TransactionParser.StepsUnfold` | src/utils.js:98-126 | the rows and the failures of the turns from a line are the first turn's, then the rest's |
| `TransactionParser.AnyFailedIff` | src/utils.js:101-125 | the error flag holds exactly when some turn failed |
| `TransactionParser.StepsCover` | src/utils.js:98-126 | the turns consume every line exactly, or overrun by one when the last turn is a five-line row padded with "" |
| `TransactionParser.RowsAndFailures` | src/utils.js:101-125 | rows plus failures equals turns; no failure exactly when every turn made a row |
| `TransactionParser.AllTabRows` | src/utils.js:99-102 | when every line holds a tab, each line is one turn parsed as a row |
| `Sorting.Insert` | src/App.jsx:341 | insertion adds one element |
| `Sorting.SortBy` | src/App.jsx:341 | sorting keeps the length |
| `Sorting.InsertSorted` | src/App.jsx:341 | inserting into a sorted list keeps it sorted |
| `Sorting.InsertPermutes` | src/App.jsx:341 | inserting adds exactly the element |
| `Sorting.SortBySorted` | src/App.jsx:341 | the result is sorted by key |
| `Sorting.SortByPermutes` | src/App.jsx:341 | the result is a permutation of the input |
| `Sorting.SortByStable` | src/App.jsx:177 | elements of equal key keep their input order, as `Array.prototype.sort` guarantees |
| `Sorting.InsertStable` | src/App.jsx:177 | insertion puts an element after those of equal key |
| `Sorting.WithKeyAppend` | src/App.jsx:177 | the elements with a key of a concatenation are those of each part, in order |
| `Sorting.WithKeyBelow` | src/App.jsx:177 | a sorted list has no element with a key below its first |
| `Sorting.InsertLast` | src/App.jsx:341 | an element with the largest key is inserted at the end |
| `Sorting.SortByIdentity` | src/App.jsx:177 | a sorted list is unchanged by sorting |
| `Sorting.SortByStrict` | src/App.jsx:341 | distinct keys sort strictly ascending |
| `Sorting.PermutationDistinct` | src/App.jsx:341 | a permutation of entries with distinct keys has distinct keys |
| `Sorting.OnceCounted` | src/App.jsx:341 | an element of a list without repeats occurs at most once |
| `Sorting.TwiceCounted` | src/App.jsx:341 | an element at two positions occurs at least twice |
| `Sorting.SortBySum` | src/App.jsx:98 | sorting keeps every sum over the elements |
| `Sorting.InsertSum` | src/App.jsx:98 | inserting adds the element's value to a sum |
| `Sorting.SumByPrepend` | src/App.jsx:98 | a sum over a list with an element in front is that element's value plus the rest |
| `Aggregate.BucketOf` | src/App.jsx:302-338 | the bucket of an hour carries that hour as its timestamp; `BucketCategory` states its per-category sums and counts, `BucketBalanced` its totals |
| `Aggregate.Values` | src/App.jsx:341 | the buckets come out in the map's insertion order |
| `Aggregate.HourlyChart` | src/App.jsx:281-351 | on an error or no input, no totals and no buckets; otherwise ppv and noPpv are the net of the PPV and non-PPV transactions and total is their sum; buckets strictly ascend by hour, are exactly the hours of categorised transactions, each is the bucket of its hour, and bucket sums and counts add up to the net and number of categorised transactions |
| `Aggregate.Tally` | src/App.jsx:286-339 | the loop ends with the two totals, one bucket per hour with a categorised transaction, each that hour's bucket, listed in first-seen order, summing to the categorised net and count |
| `Aggregate.Visit` | src/App.jsx:290-339 | one call of the `forEach` callback takes the totals and the map of buckets after the first k transactions to those after k + 1 |
| `Aggregate.AddTo` | src/App.jsx:322-338 | one transaction adds its net to `all` and to its category's sum, and one to `count` and its category's count; a message also adds to the PPV or the non-PPV sum and count by `isPpv`; nothing else changes, the hour included |
| `Aggregate.ExtendTotals` | src/App.jsx:291-295 | each transaction adds its net to exactly one of the two totals, by `isPpv` |
| `Aggregate.ExtendHours` | src/App.jsx:297-320 | each transaction with a category adds its hour, and one without adds none |
| `Aggregate.ExtendSums` | src/App.jsx:300-338 | each transaction with a category adds its net and one to the chart totals |
| `Aggregate.ExtendBuckets` | src/App.jsx:297-338 | each transaction with a category changes only its own hour's bucket |
| `Aggregate.UnchartedStep` | src/App.jsx:298-300 | a transaction without a category leaves the buckets as they are |
| `Aggregate.KnownHourStep` | src/App.jsx:322-338 | a transaction whose hour has a bucket updates that bucket in place and keeps the invariant |
| `Aggregate.KnownHourMap` | src/App.jsx:322-338 | the same for the keys, the buckets and their order |
| `Aggregate.KnownHourSums` | src/App.jsx:322-338 | the same for the sums over the buckets |
| `Aggregate.NewHourStep` | src/App.jsx:302-338 | a transaction in a new hour creates its zero bucket, updates it and keeps the invariant |
| `Aggregate.NewHourMap` | src/App.jsx:302-338 | the same for the keys, the buckets and their order |
| `Aggregate.NewHourSums` | src/App.jsx:302-338 | the same for the sums over the buckets |
| `Aggregate.NewHour` | src/App.jsx:302-320 | the bucket of an hour nothing fell in is the zero bucket |
| `Aggregate.ValuesAppend` | src/App.jsx:303 | a new key goes at the end of the map's order |
| `Aggregate.ListsUpdate` | src/App.jsx:322-338 | updating an existing bucket keeps the key order |
| `Aggregate.SumUpdate` | src/App.jsx:322-338 | updating a bucket changes a sum over the buckets by the difference |
| `Aggregate.SumUpdateBelow` | src/App.jsx:322-338 | the same, over a prefix of the key order |
| `Aggregate.SumBySnoc` | src/App.jsx:336-337 | a sum over buckets with one appended grows by its value |
| `Aggregate.Sorted` | src/App.jsx:341 | after the sort the buckets strictly ascend, are each their hour's bucket, cover every hour and keep the sums |
| `Aggregate.SortedMembers` | src/App.jsx:341 | every sorted bucket is its hour's bucket |
| `Aggregate.SortedCover` | src/App.jsx:341 | every hour of a categorised transaction has a sorted bucket |
| `Aggregate.TotalsSplit` | src/App.jsx:290-295 | ppv + noPpv is the net of all transactions, categorised or not |
| `Aggregate.NoStreamsAllCharted` | src/App.jsx:298-300 | without Stream transactions the chart totals are the net and the number of all transactions |
| `Aggregate.BucketBalanced` | src/App.jsx:325-338 | in every bucket all = tips + posts + subs + messages, count is the sum of the category counts, messages = messagesPpv + messagesNoPpv, and likewise for the counts |
| `Aggregate.HoursIff` | src/App.jsx:297-320 | an hour has a bucket exactly when a categorised transaction falls in it, exactly when its count is positive |
| `Aggregate.BucketCategory` | src/App.jsx:335-338 | each category's sum and count in a bucket are the net and number of that hour's transactions of that category |
| `Aggregate.BucketMessagesSplit` | src/App.jsx:325-333 | a bucket's PPV and non-PPV message sums and counts are the net and number of that hour's PPV and non-PPV messages |
| `Breakdown.CategoryBreakdown` | src/App.jsx:144-178 | the loop's result is the fixed zero list for no input, otherwise the four category totals with percentages, sorted |
| `Breakdown.CategoryTotals` | src/App.jsx:154-165 | the four category totals add up to the net of the categorised transactions |
| `Breakdown.EmptyRanked` | src/App.jsx:145-151 | the fixed list for no input is what the general path would give, already sorted |
| `Breakdown.Ranked` | src/App.jsx:144-177 | the breakdown is a reordering of the four entries (the fixed all-zero list for no input); `RankedSorted`, `RankedValues`, `RankedPercents` and `RankedSum` state its order and contents |
| `Breakdown.RankedCategories` | src/App.jsx:167-177 | exactly four entries, one per category |
| `Breakdown.ListedCategories` | src/App.jsx:167-172 | the unsorted list names the four categories once each |
| `Breakdown.PermutedCategories` | src/App.jsx:177 | reordering keeps the categories |
| `Breakdown.RankedValues` | src/App.jsx:154-172 | every entry holds the net of its own category |
| `Breakdown.RankedSorted` | src/App.jsx:177 | values never increase along the list, and equal values keep the order Tips, Messages, Subs, Posts |
| `Breakdown.RankedSum` | src/App.jsx:165-177 | the values add up to totalNet |
| `Breakdown.RankedPercents` | src/App.jsx:173-176 | each percent is value / totalNet * 100, and all are 0 when totalNet is 0 |
| `Breakdown.PercentsTotal` | src/App.jsx:165-176 | for a non-zero total the four percentages add up to 100 |
| `Breakdown.SumOfFour` | src/App.jsx:165 | a sum over four entries is the sum of their values |
| `Breakdown.SplitQuotient` | src/App.jsx:175 | four shares of a non-zero total make 100 percent |
| `Spenders.Entries` | src/App.jsx:96-97 | one entry per name, carrying that name's gross and net totals |
| `Spenders.TopSpenders` | src/App.jsx:65-100 | the loop's result is the grouped entries sorted by gross, first three |
| `Spenders.Record` | src/App.jsx:71-93 | one call of the `forEach` callback takes the map after the first k transactions (a key per name in first-appearance order, holding that name's gross and net) to the map after k + 1 |
| `Spenders.KnownSpender` | src/App.jsx:85-90 | a known name's totals grow by the transaction and the invariant holds |
| `Spenders.NewSpender` | src/App.jsx:91-93 | a new name enters last in the key order with the transaction's amounts |
| `Spenders.MapEntriesGrouped` | src/App.jsx:96-97 | the map's entries in key order are the grouped totals |
| `Spenders.Grouped` | src/App.jsx:69-97 | one entry per name in order of first appearance, each holding the gross and the net of that name's transactions |
| `Spenders.NamesIff` | src/App.jsx:69-94 | a name is a key exactly when some transaction carries it |
| `Spenders.NamesDistinct` | src/App.jsx:69-94 | the keys are distinct |
| `Spenders.NamesOnce` | src/App.jsx:69-94 | each name occurs at most once among the keys |
| `Spenders.UnseenName` | src/App.jsx:69-94 | a name no transaction carries has zero totals |
| `Spenders.EntriesStep` | src/App.jsx:85-93 | each transaction adds its amounts to the sum of the entries exactly when its name is listed |
| `Spenders.GroupedTotals` | src/App.jsx:69-97 | the entries' gross and net add up to the gross and net of all transactions |
| `Spenders.GroupedGrows` | src/App.jsx:85-93 | one more transaction adds its gross and net to those sums |
| `Spenders.ExtraName` | src/App.jsx:96-97 | an entry for a name no transaction carries adds nothing |
| `Spenders.AppendSums` | src/App.jsx:96-97 | appending an entry adds its amounts to the sums |
| `Spenders.Top` | src/App.jsx:96-99 | at most three entries: three, or the number of names when fewer; `TopSorted`, `TopSums`, `TopDistinct` and `TopOmitted` state their order and contents |
| `Spenders.TopSorted` | src/App.jsx:98 | gross never increases along the list |
| `Spenders.TopSums` | src/App.jsx:69-99 | each entry's gross and net are the sums over the transactions grouped under its name |
| `Spenders.TopDistinct` | src/App.jsx:96-99 | no name appears twice |
| `Spenders.TopOmitted` | src/App.jsx:98-99 | every name left out has no more gross than any kept entry |
| `Spenders.BelowKept` | src/App.jsx:98-99 | the same, for any list sorted by gross |
| `Spenders.OneUnknownSpender` | src/App.jsx:72-99 | since parsed rows carry no text, all transactions group under "Unknown" into one entry with the total gross and net |
| `Spenders.UnnamedSums` | src/App.jsx:72-94 | with every name "Unknown" there is one key, carrying the total gross and net |

## Left out

- **`new Date(...)` and `getTime()`.** They depend on the host's time zone and date parser (src/utils.js:21-22, 85). They are the parameter `mk`, a partial function from month, day, year, 24-hour hour and minutes to a timestamp.
- **`startOfHour`.** src/App.jsx:23 imports it from src/utils.js, which does not define it. `DateTime.StartOfHour` takes it as truncation to a whole hour in milliseconds since the epoch, i.e. UTC; a local time zone with a non-whole-hour offset is not modelled.
- **`Number(...)` of a money cell.** Only plain decimal numerals with an optional sign and at most two significant decimals read. Exponents, hexadecimal, "Infinity" and amounts finer than a cent read as `None`; JavaScript would give a number or NaN for them.
- **Floating point.** Amounts are exact cents, so sums never round.
- **`Money.ReadsBackIff`: float rounding in the balance check.** With cents, `Number((gross - fee).toFixed(2)) !== net` becomes exact cent equality. Float error in `gross - fee` is not modelled.
- **`Classification.CentsOf`: cents of a float.** `Math.round((gross % 1) * 100)` is the remainder of the cent amount, truncated toward zero like JavaScript's `%`. Float error is not modelled.
- **Percentages.** They are exact reals, not floats.
- **`Text.Lower`.** It lowers ASCII letters only; `toLowerCase` folds the whole of Unicode. Every key of the rule table is ASCII.
- **`Text.ToLower`.** It maps 'A'..'Z' to 'a'..'z' and leaves every other character as it is; `toLowerCase` also lowers capitals outside ASCII. The descriptions are only searched for the ASCII keys of the rule table.
- **`split(/\r?\n/)`.** It is modelled as a split on "\n" followed by `trim`. This gives the same lines, because `trim` drops a trailing "\r".
- **The buyer-name regular expressions (src/App.jsx:73-80).** Grouping takes the name as the parameter `nameOf`. `parseRow` never sets a `text` field, so in practice every name is "Unknown" (`Spenders.OneUnknownSpender`).
- **`p.gross || 0` and `p.net || 0`.** These are the amounts themselves: amounts are always numbers here.
- **The breakdown's constant fields.** The `count` and `color` fields are constants and are not modelled.
- **Mutation of buckets in place.** Buckets are immutable values in a `map` field that the loop reassigns, so aliasing between the map and `row` is not modelled.
- **`parseTransactions` line tests.** The loop asks two things of a line, its row and whether it holds a date. These are the fields of a `Reader` value; `ReaderOf` supplies this model's parsers.
- **Presentation and I/O.** Not modelled:
  - the React, Mantine and recharts rendering and the hooks plumbing;
  - the clipboard text;
  - `usd` and `formatMonthDay`, which are locale formatting;
  - the velocity and averages memos, which are floating-point reports outside this core;
  - `src/main.jsx`.
