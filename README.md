# Study-abroad planner: planning-data engine in Dafny

This project models the decision logic of a study-abroad planning helper,
written in TypeScript, and proves properties of that model. The modelled parts are:

- the relative-day labels ("D-30", "D+0") and date formatting of `lib/utils.ts`;
- the 19-milestone departure checklist of `lib/checklist.ts`, expanded against a
  departure date and stably sorted by the number in each label, largest first;
- the city and duration cost table of `lib/benchmarks.ts`. Its lookup is
  case-insensitive on the city and falls back through three tiers:
  - the exact duration;
  - else the shortest longer duration;
  - else the longest duration.
- the budget-versus-benchmark comparison. It covers `compareBudget` and the
  gating and communication folding of `components/BenchmarkComparison.tsx`;
- the checklist screen state of `components/Checklist.tsx`. It covers the toggle,
  delete and add handlers, the load-or-generate effect, grouping by category with
  sorted category names, and the header countdown;
- the cost calculator state of `components/CostCalculator.tsx`. It covers the
  single-field updates, the totals and their conversion to won, and the input
  fallbacks;
- the record shapes of `types/index.ts`, as datatypes.

Modelling choices:

- Calendar dates are integer day numbers, and "today" is a parameter.
- A departure date is `Option<int>`, where `None` stands for the empty date field.
- Money is an exact `real`.
- Strings are sequences of characters.
- A value `parseFloat` reads is `Some(x)`, and NaN is `None`.
- The time stamp used for custom ids is a parameter.
- Local storage is represented by the values it would hand over. `LoadOrGenerate`
  takes the stored list, and `ApplyStoredRate` takes the stored rate.

Files, one module each:

| file | module | models |
|---|---|---|
| types.dfy | `Types` | the records, field keys, field getters, `Object.values` and the summing `reduce` |
| utils.dfy | `Utils` | lib/utils.ts, plus decimal printing and `parseInt` |
| checklist.dfy | `Checklist` | lib/checklist.ts |
| benchmarks.dfy | `Benchmarks` | lib/benchmarks.ts |
| benchmark_comparison.dfy | `BenchmarkComparison` | components/BenchmarkComparison.tsx |
| checklist_view.dfy | `ChecklistView` | components/Checklist.tsx |
| cost_calculator.dfy | `CostCalculator` | components/CostCalculator.tsx |

Pure code is written as functions with lemmas beside them. The three components
hold state:

- The checklist screen is the class `ChecklistView.ChecklistState`, with fields
  `items`, `newItemTitle` and `newItemCategory`.
- The calculator is the class `CostCalculator.Calculator`, with fields
  `initialCosts`, `monthlyBudget` and `exchangeRate`.
- Their handlers are methods. Each handler's `ensures` gives the new state in
  terms of a list or record function, and lemmas prove what that function keeps.
- The category grouping updates a dictionary step by step. It is a method with a
  loop, proved against the filter function `InCategory`.
- The comparison panel's effect only sets two state fields from its inputs. It is
  the function `BenchmarkComparison.Refresh`, which returns that state.

## Model

| member | source | states |
|---|---|---|
| Types.SumSnoc | components/CostCalculator.tsx:89-92 | summing with one more value at the end adds that value |
| Types.Sum | components/CostCalculator.tsx:89-92 | the `reduce` sum from 0; a list of non-negative amounts sums to a non-negative total |
| Types.SumOfBudget | components/BenchmarkComparison.tsx:31 | the sum of `Object.values` of a monthly budget is rent + food + transport + communication + other |
| Types.SumOfInitial | components/CostCalculator.tsx:89-92 | the sum of `Object.values` of the initial costs is the sum of its six fields |
| Utils.NatToString | lib/utils.ts:20 | the decimal form of a count is non-empty, all digits, and has no leading zero; it is one digit exactly below 10 |
| Utils.IntToString | components/Checklist.tsx:66 | the decimal form of an integer starts with '-' exactly when it is negative, and is a canonical numeral: digits without a leading zero, or '-' before a non-zero one |
| Utils.ParseNat | lib/checklist.ts:57-58 | digits are read exactly when the text is a non-empty run of decimal digits |
| Utils.ParseInt | lib/checklist.ts:57-58 | `parseInt` reads a run of digits as its value and '-' before a run of digits as the negated value; any other text is NaN (`None`) |
| Utils.DigitsValueOfNatToString | lib/checklist.ts:57-58 | the digits written for n have value n |
| Utils.NatToStringRoundTrip | lib/utils.ts:20 | reading back the decimal form of a count gives the count |
| Utils.IntToStringRoundTrip | components/Checklist.tsx:66 | reading back the decimal form of an integer gives the integer |
| Utils.DaysUntil | lib/utils.ts:6-13 | today plus the result is the target day |
| Utils.DaysUntilSameDay | lib/utils.ts:6-13 | a day is 0 days from itself |
| Utils.DaysUntilNextDay | lib/utils.ts:6-13 | when today advances one day the count drops by exactly 1 |
| Utils.FormatDaysUntil | lib/utils.ts:18-21 | a negative count gives exactly "D+0"; otherwise "D-" then the count's canonical decimal digits (no leading zero), which read back as the count |
| Utils.FormatDaysUntilInjective | lib/utils.ts:18-21 | distinct non-negative counts give distinct labels |
| Utils.PadStart2 | lib/utils.ts:28-29 | text of two or more characters is kept; shorter text gets leading '0's up to length 2 and is the suffix |
| Utils.PadStart2RoundTrip | lib/utils.ts:28-29 | a number below 100, padded, has exactly two characters and reads back as itself |
| Utils.FormatDate | lib/utils.ts:26-31 | the result is the year, '-', a two-digit month equal to month0 + 1, '-', a two-digit day, each reading back as its value |
| Utils.CompareValues | lib/utils.ts:57-70 | benchVal + diff = myVal; with benchVal > 0, diffPct × benchVal = diff × 100; otherwise diffPct = 0 |
| Utils.CompareBudget | lib/utils.ts:46-71 | exactly 4 rows, categories rent, food, transport and other in order; each row's myVal and benchVal are the budget and benchmark fields, with diff and diffPct as above |
| Utils.DiffPctHasSignOfDiff | lib/utils.ts:61 | against a positive benchVal, diffPct is positive, negative or zero exactly when diff is |
| Utils.CompareBudgetIgnoresCommunication | lib/utils.ts:50-55 | changing the budget's communication field does not change the comparison |
| Utils.CompareBudgetWithItself | lib/utils.ts:57-61 | a budget equal to the benchmark on the compared fields gives diff = 0 and diffPct = 0 on every row |
| Utils.CompareBudgetExample | lib/utils.ts:46-71 | 1300/450/150/250 against 1200/400/150/250 differs by 100 (25/3 %), 50 (12.5 %), 0 and 0 |
| Utils.CreateMonthlyBudget | lib/utils.ts:76-90 | the five arguments become rent, food, transport, communication and other, in that order |
| Checklist.TemplateFacts | lib/checklist.ts:12-30 | the template has 19 entries and the last is the final check, 1 day before; days-before never increases between neighbours, and every other entry is at least 3 days before |
| Checklist.TemplateDaysNonIncreasing | lib/checklist.ts:12-30 | days-before never increases along the whole template |
| Checklist.MakeItem | lib/checklist.ts:41-54 | an item's id is days-before, '-', and title; title and category are the entry's; it is not completed; its label is the formatted day count from today to departure minus days-before |
| Checklist.LabelNumberOfFormat | lib/checklist.ts:57-58 | the sort key parsed from a label of count d is d, or 0 when d < 0 because "D+0" reads as -0 |
| Checklist.OccursAtShift | lib/checklist.ts:57-58 | an occurrence at index j is an occurrence at j - 1 once the first character is dropped |
| Checklist.IndexOf | lib/checklist.ts:57-58 | a found index is an occurrence of the pattern with none before it; none is found exactly when the pattern occurs nowhere |
| Checklist.ReplaceFirst | lib/checklist.ts:57-58 | text without the pattern is kept; otherwise the first occurrence, wherever it is, is replaced |
| Checklist.NoLabelPrefixInDigits | lib/checklist.ts:57-58 | "D-" and "D+" occur nowhere in a run of digits |
| Checklist.StripDashLabel | lib/checklist.ts:57 | on "D-" and digits the two `replace` calls leave the digits |
| Checklist.StripPlusLabel | lib/checklist.ts:57 | on "D+" and digits the two `replace` calls leave '-' and the digits |
| Checklist.StripLabel | lib/checklist.ts:57-58 | after both `replace` calls, "D-" and digits leaves the digits and "D+" and digits leaves '-' and the digits |
| Checklist.LabelDigitsParse | lib/checklist.ts:57 | the digits after a label's two-character prefix parse to their value, and with '-' in front to its negation |
| Checklist.LabelNumber | lib/checklist.ts:57-58 | `parseInt` of the stripped label: "D-" and digits parses to their value, "D+" and digits to its negation |
| Checklist.Key | lib/checklist.ts:57-59 | the comparator's key: the label's parsed number, or 0 when it parses to NaN; `KeyOfLabel` and `LabelNumberOfFormat` state its values |
| Checklist.KeyOfLabel | lib/checklist.ts:57-59 | a "D-" label's key is its digits' value, and a label that parses to NaN has key 0 |
| Checklist.KeyOfMakeItem | lib/checklist.ts:42-58 | an item's key is days-to-departure minus days-before, or 0 once that is negative |
| Checklist.WithKey | lib/checklist.ts:55-60 | the items with one key are items of the list with that key, no more of them than the list has |
| Checklist.Insert | lib/checklist.ts:55-60 | insertion adds exactly the one element (multiset) |
| Checklist.SortedTail | lib/checklist.ts:55-60 | dropping the first element of a sorted list leaves it sorted |
| Checklist.InsertKeepsSorted | lib/checklist.ts:55-60 | insertion keeps a list sorted by key, descending |
| Checklist.InsertWithKey | lib/checklist.ts:55-60 | insertion puts the new element before all elements with an equal key |
| Checklist.SortByKeyDesc | lib/checklist.ts:55-60 | the sort is a permutation of its input |
| Checklist.SortIsSorted | lib/checklist.ts:55-60 | the sort's output is sorted by key, descending |
| Checklist.SortIsStable | lib/checklist.ts:55-60 | for every key, the elements with that key appear in input order |
| Checklist.WithKeyAll | lib/checklist.ts:55-60 | a list whose keys all equal k is its own key-k sublist |
| Checklist.ZeroKeysFormTail | lib/checklist.ts:55-60 | in a sorted list of non-negative keys, the key-0 elements are exactly the tail, and every element before them has a positive key |
| Checklist.PermutedZeroKeysFormTail | lib/checklist.ts:55-60 | a sorted, stable rearrangement of a list with no negative keys ends with that list's key-0 elements in their order, and all before them have positive keys |
| Checklist.LargestKeyComesFirst | lib/checklist.ts:55-60 | in a sorted rearrangement, an element whose key exceeds every other element's comes first |
| Checklist.OneKeyIsUnchanged | lib/checklist.ts:55-60 | a stable rearrangement of a list whose keys are all equal is the list itself |
| Checklist.InsertKeepsIdsDistinct | lib/checklist.ts:49 | inserting an item whose id is new keeps ids distinct |
| Checklist.SortKeepsIdsDistinct | lib/checklist.ts:49 | sorting keeps ids distinct |
| Checklist.TemplateItems | lib/checklist.ts:41-54 | one item per template entry, in template order |
| Checklist.GenerateChecklist | lib/checklist.ts:36-61 | 19 items, a permutation of the mapped template, keys non-increasing, equal keys in template order, none completed |
| Checklist.GeneratedItemsComeFromTemplate | lib/checklist.ts:41-54 | every generated item is the item of some template entry and is not completed |
| Checklist.TemplateIdDeterminesTitle | lib/checklist.ts:49 | equal ids mean equal titles |
| Checklist.TemplateTitlesDistinct | lib/checklist.ts:12-30 | the 19 template titles are pairwise distinct |
| Checklist.GeneratedIdsDistinct | lib/checklist.ts:12-49 | all generated ids are pairwise distinct |
| Checklist.TemplateItemKey | lib/checklist.ts:42-58 | the key of the i-th mapped item is D minus its days-before, or 0 when that is negative, where D is the days to departure |
| Checklist.TemplateKeysNonNegative | lib/checklist.ts:42-58 | no mapped template item has a negative key |
| Checklist.GeneratedZeroKeysAtEnd | lib/checklist.ts:55-60 | the generated items with key 0 end the list in template order, and all earlier items have positive keys |
| Checklist.FinalCheckComesFirst | lib/checklist.ts:12-60 | with at least 2 days to departure, the first item is the final pre-departure check |
| Checklist.NoDaysLeftKeepsTemplateOrder | lib/checklist.ts:41-60 | with at most 1 day to departure, all keys are 0 and the list is the template order |
| Benchmarks.TableKeys | lib/benchmarks.ts:7-88 | the cities are toronto, vancouver, montreal and ottawa; their durations are {6,12,18,24}, {6,12,18,24}, {6,12} and {6,12} |
| Benchmarks.TableDurationsPositive | lib/benchmarks.ts:7-88 | every city lists duration 6, and no duration is 0 or less |
| Benchmarks.ToLower | lib/benchmarks.ts:100 | same length; each letter A-Z is lowered and every other character is kept |
| Benchmarks.MinExists | lib/benchmarks.ts:108-111 | a non-empty set of durations has a least element |
| Benchmarks.SetMin | lib/benchmarks.ts:108-111 | the result is in the set and at most every element |
| Benchmarks.SortedKeys | lib/benchmarks.ts:108-111 | the result is strictly ascending and holds exactly the keys |
| Benchmarks.FindAtLeast | lib/benchmarks.ts:119 | a found value is in the list and at least the duration; none is found exactly when every value is below it |
| Benchmarks.FindAtLeastIsLeast | lib/benchmarks.ts:119 | on an ascending list the found value is the least value at least the duration |
| Benchmarks.LastIsGreatest | lib/benchmarks.ts:125 | the last of an ascending list is its greatest |
| Benchmarks.ResolveDuration | lib/benchmarks.ts:108-130 | a resolved duration is one of the keys, and an exact key resolves to itself |
| Benchmarks.ResolveShortestAtLeast | lib/benchmarks.ts:118-122 | when some key is at least the duration, the result is the least such key |
| Benchmarks.ResolveLongest | lib/benchmarks.ts:124-128 | when every key is shorter than the duration, the result is the greatest key |
| Benchmarks.ResolveNoKeys | lib/benchmarks.ts:130 | with no keys there is no result |
| Benchmarks.ExactIsShortestAtLeast | lib/benchmarks.ts:114-122 | when the exact duration is a key, the tier-two search over the sorted keys finds that same duration, so tiers one and two agree |
| Benchmarks.ResolveSomeKey | lib/benchmarks.ts:114-130 | keys without 0 always resolve |
| Benchmarks.GetBenchmark | lib/benchmarks.ts:96-131 | an unknown lower-cased city gives none; a known city always gives one of its entries, the exact one when that duration exists |
| Benchmarks.GetBenchmarkShortestAtLeast | lib/benchmarks.ts:118-122 | a known city gives the entry of the least duration at least the one asked for |
| Benchmarks.GetBenchmarkLongest | lib/benchmarks.ts:124-128 | a known city asked for more than every duration gives the longest entry |
| Benchmarks.GetBenchmarkExactExample | lib/benchmarks.ts:96-116 | ("Toronto", 12) gives toronto 12 |
| Benchmarks.GetBenchmarkRoundsUpExample | lib/benchmarks.ts:118-122 | ("toronto", 9) gives toronto 12 and ("ottawa", 1) gives ottawa 6 |
| Benchmarks.GetBenchmarkLongestExamples | lib/benchmarks.ts:124-128 | ("toronto", 30) gives toronto 24 and ("montreal", 24) gives montreal 12 |
| Benchmarks.GetBenchmarkUnknownCityExample | lib/benchmarks.ts:103-105 | ("Atlantis", 12) gives none |
| BenchmarkComparison.FoldCommunication | components/BenchmarkComparison.tsx:47-50 | other becomes other + communication; rent, food, transport and communication are kept |
| BenchmarkComparison.FoldCommunicationKeepsTotal | components/BenchmarkComparison.tsx:31-50 | the four compared fields of the adjusted budget sum to the whole monthly total |
| BenchmarkComparison.Refresh | components/BenchmarkComparison.tsx:23-60 | hasData holds exactly when there are rows. There are no rows without a profile, with an empty city, with a zero total, or without a benchmark. When all four gates pass there are rows, and they are `CompareBudget` of the adjusted budget against the city's benchmark |
| BenchmarkComparison.KnownCityCompares | components/BenchmarkComparison.tsx:38-59 | a city in the table with a non-zero budget always gives rows |
| BenchmarkComparison.ComparisonRows | components/BenchmarkComparison.tsx:47-57 | the rows for any budget and benchmark: 4 of them; rent, food and transport as budgeted; the other row is other + communication against the benchmark's other, so diff = other + communication − bench.other |
| BenchmarkComparison.ShownPositive | components/BenchmarkComparison.tsx:142 | for a row whose diff is myVal - benchVal, the '+' sign is shown exactly when the budget is at least the reference |
| BenchmarkComparison.ShownPositiveMatchesPct | components/BenchmarkComparison.tsx:142-159 | against a positive reference, a row shown with '+' (diff ≥ 0) is exactly one whose percentage is ≥ 0 |
| ChecklistView.Toggled | components/Checklist.tsx:41-44 | same length; every field but completed is kept; completed flips exactly on items with the id |
| ChecklistView.ToggleTwice | components/Checklist.tsx:41-44 | toggling one id twice restores the list |
| ChecklistView.ToggleAbsent | components/Checklist.tsx:41-44 | toggling an absent id changes nothing |
| ChecklistView.Deleted | components/Checklist.tsx:50-51 | no remaining item has the id, and the list does not grow |
| ChecklistView.DeletedKeepsOthers | components/Checklist.tsx:50-51 | every item with another id keeps its number of occurrences |
| ChecklistView.DeleteDistributes | components/Checklist.tsx:50-51 | deleting from a concatenation deletes from each part, so kept items keep their order |
| ChecklistView.DeleteAbsent | components/Checklist.tsx:50-51 | deleting an absent id changes nothing |
| ChecklistView.DeleteIdempotent | components/Checklist.tsx:50-51 | deleting twice is deleting once |
| ChecklistView.LeadingSpace | components/Checklist.tsx:58 | counts exactly the white space at the start |
| ChecklistView.TrailingSpace | components/Checklist.tsx:58 | counts exactly the white space at the end |
| ChecklistView.Trim | components/Checklist.tsx:58 | the text with its leading white space (exactly `LeadingSpace` characters) and its trailing white space removed: a slice of the input with only white space before and after it; empty exactly when the text is all white space, otherwise neither starting nor ending with white space |
| ChecklistView.TrimIdempotent | components/Checklist.tsx:58 | trimming twice is trimming once |
| ChecklistView.TrimOfTrimmed | components/Checklist.tsx:67 | text without white space at either end is its own trim |
| ChecklistView.AddedLabel | components/Checklist.tsx:60-63 | always "D-" then more. Without a profile it is "D-0". With a profile but no date it is "D-NaN". Otherwise the canonical decimal digits (no leading zero) of max(0, days to departure) |
| ChecklistView.AddedLabelMatchesFormat | components/Checklist.tsx:60-63 | an added item is never labelled "D+0", and for a date not yet passed its label is the generator's label |
| ChecklistView.CustomId | components/Checklist.tsx:66 | "custom-" then the time stamp's canonical decimal numeral, which reads back as the stamp |
| ChecklistView.CustomIdInjective | components/Checklist.tsx:66 | distinct time stamps give distinct ids |
| ChecklistView.InCategory | components/Checklist.tsx:80-89 | an item is in the result exactly when it is in the list with that category |
| ChecklistView.InCategoryStep | components/Checklist.tsx:80-89 | one more item extends its own category's list by that item and leaves every other category's list as it was |
| ChecklistView.GroupNewCategory | components/Checklist.tsx:80-89 | the reducer step for an unseen category keeps the grouping invariant: a one-item list, the category appended once to the key order |
| ChecklistView.GroupKnownCategory | components/Checklist.tsx:80-89 | the reducer step for a seen category keeps the grouping invariant: the item appended to that category's list |
| ChecklistView.GroupByCategory | components/Checklist.tsx:80-89 | keys are exactly the distinct categories seen; each group is that category's items in list order and is non-empty; a category with no group has no items |
| ChecklistView.GroupsPartitionItems | components/Checklist.tsx:80-89 | every item is in its own category's group and in no other |
| ChecklistView.StringLeTotal | components/Checklist.tsx:91 | of two strings one is at most the other |
| ChecklistView.InsertString | components/Checklist.tsx:91 | insertion adds exactly the one string and keeps a sorted list sorted |
| ChecklistView.SortStrings | components/Checklist.tsx:91 | the result is an ascending permutation of the input |
| ChecklistView.AtMostOnce | components/Checklist.tsx:91 | in a list without repeats each string occurs at most once |
| ChecklistView.PermutationKeepsDistinct | components/Checklist.tsx:91 | reordering a list without repeats keeps it without repeats |
| ChecklistView.Categories | components/Checklist.tsx:80-91 | the category headings are exactly the group keys, ascending and without repeats, and every item's category is among them |
| ChecklistView.HeaderLabel | components/Checklist.tsx:115 | "D+0" once the departure has passed; otherwise "D-" then the canonical digits of the days left |
| ChecklistView.HeaderLabelIsFormat | components/Checklist.tsx:106-115 | the header countdown is the same label as `formatDaysUntil` of the days to departure |
| ChecklistView.ChecklistState.constructor | components/Checklist.tsx:20-22 | an empty list, an empty title and the category 기타 |
| ChecklistView.ChecklistState.LoadOrGenerate | components/Checklist.tsx:25-37 | with a date, an empty stored list is replaced by the generated list and a non-empty one is used as is; without a profile or date the list is unchanged |
| ChecklistView.ChecklistState.ToggleItem | components/Checklist.tsx:41-47 | the list becomes `Toggled` of the old list; the form fields are unchanged |
| ChecklistView.ChecklistState.DeleteItem | components/Checklist.tsx:50-54 | the list becomes `Deleted` of the old list; the form fields are unchanged |
| ChecklistView.ChecklistState.SetNewItemTitle | components/Checklist.tsx:176 | only the title field changes |
| ChecklistView.ChecklistState.SetNewItemCategory | components/Checklist.tsx:183 | only the category field changes |
| ChecklistView.ChecklistState.AddItem | components/Checklist.tsx:57-77 | A blank trimmed title changes nothing. Otherwise exactly one item is appended: trimmed title, `AddedLabel`, not completed, the selected category, `CustomId(now)`. The title is cleared and the category kept |
| CostCalculator.SetInitial | components/CostCalculator.tsx:71-72 | the chosen field becomes the value and every other field is unchanged |
| CostCalculator.SetMonthly | components/CostCalculator.tsx:80-81 | the chosen field becomes the value and every other field is unchanged |
| CostCalculator.TotalInitial | components/CostCalculator.tsx:89-92 | the total is flight + firstMonthRent + deposit + visaFee + insurance + other |
| CostCalculator.TotalMonthly | components/CostCalculator.tsx:96-101 | the field-by-field total, communication included, equals the sum of all five values |
| CostCalculator.ToKRW | components/CostCalculator.tsx:93 | at a non-zero rate the won amount is 0 exactly when the dollar amount is; at a positive rate it is positive exactly when the dollar amount is |
| CostCalculator.TotalInitialAfterSet | components/CostCalculator.tsx:71-92 | setting one field moves the total by new minus old value |
| CostCalculator.TotalMonthlyAfterSet | components/CostCalculator.tsx:80-101 | setting one field moves the monthly total by new minus old value |
| CostCalculator.TotalExample | components/CostCalculator.tsx:89-93 | 500 + 1200 + 1200 + 150 + 200 + 100 is 3350 dollars, which is 3,350,000 won at 1000 |
| CostCalculator.CostFromInput | components/CostCalculator.tsx:156 | NaN becomes 0; any number, 0 or negative included, is kept |
| CostCalculator.RateFromInput | components/CostCalculator.tsx:121 | NaN and 0 become 1000, any other number is kept, and the rate is never 0 |
| CostCalculator.Calculator.constructor | components/CostCalculator.tsx:19-34 | every cost and budget field is 0, both totals are 0, and the rate is 1000 |
| CostCalculator.Calculator.TotalInitialCAD | components/CostCalculator.tsx:89-92 | the sum of `Object.values` of the initial costs, which is the sum of the six fields |
| CostCalculator.Calculator.TotalInitialKRW | components/CostCalculator.tsx:93 | under `Valid()` (rate never 0) it is 0 exactly when the dollar total is; at a positive rate it is positive exactly when the dollar total is |
| CostCalculator.Calculator.TotalMonthlyCAD | components/CostCalculator.tsx:96-101 | the five fields added up equal the sum of all budget values, communication included |
| CostCalculator.Calculator.TotalMonthlyKRW | components/CostCalculator.tsx:102 | under `Valid()` it is 0 exactly when the monthly dollar total is; at a positive rate it is positive exactly when that total is |
| CostCalculator.Calculator.UpdateInitialCost | components/CostCalculator.tsx:71-77 | the costs become `SetInitial` of the old costs; budget and rate unchanged; the total moves by new minus old value |
| CostCalculator.Calculator.UpdateMonthlyBudget | components/CostCalculator.tsx:80-86 | the budget becomes `SetMonthly` of the old budget; costs and rate unchanged; the total moves by new minus old value |
| CostCalculator.Calculator.InputInitialCost | components/CostCalculator.tsx:153-158 | the field is set to `CostFromInput` of the parsed input |
| CostCalculator.Calculator.InputMonthlyBudget | components/CostCalculator.tsx:190-195 | the field is set to `CostFromInput` of the parsed input |
| CostCalculator.Calculator.InputExchangeRate | components/CostCalculator.tsx:120-122 | the rate becomes `RateFromInput` of the parsed input, so it is never 0 |
| CostCalculator.Calculator.ApplyStoredRate | components/CostCalculator.tsx:57-66 | a stored rate is applied only when it is a positive number; otherwise the rate is unchanged |

## Left out

- Local storage is left out. That covers reading and writing it, JSON parsing and serialising, and the "malformed means absent" rule. Stored values come in as parameters already read, and nothing is written back.
- The page (app/page.tsx) is not part of this model. That includes its storage-event listener, its 500 ms polling and the profile form. Its initial rate of 1000 is the calculator constructor's rate.
- Rendering is left out: markup, CSS classes, `formatCurrency` (locale formatting) and `toFixed(1)` rounding.
- Real JavaScript `Date` behaviour is left out. That covers UTC versus local parsing, `toISOString`, and daylight-saving hours in `Math.ceil`. Dates are whole day numbers, so `DaysUntil` is a subtraction.
- Non-empty but invalid date strings are not modelled. An invalid date string is only an empty field (`None`).
- Utils.FormatDate: takes year, month counted from 0, and day as integers. It does not model a `Date` object or check that the day exists in that month.
- Money is exact real arithmetic, not IEEE doubles. Rounding in sums, differences and the percentage division is not modelled.
- Checklist.Key: a label that parses to NaN gets key 0. In the source the comparator then returns NaN, which the sort reads as "equal" rather than as a key of 0. Every label the generator writes parses (`LabelNumberOfFormat`), so generated lists are not affected.
- Benchmarks.GetBenchmark: the duration is an integer. A fractional or NaN `durationMonths`, whose `String(...)` never matches a key, is not modelled.
- Benchmarks.ToLower: lowers only A-Z. Other letters are kept, whereas JavaScript's `toLowerCase` would lower them too. No table city has such letters.
- Utils.ParseInt: reads only an optional '-' and then digits. `parseInt` also skips leading white space, accepts '+', and stops at the first non-digit. Every label this code writes is a '-' and digits, "D-" and digits, "D+0", or "D-NaN" (a custom item added when the profile has no departure date); `parseInt` and `ParseInt` both read "NaN" as not-a-number.
- ChecklistView.SortStrings: compares characters by code point. `Array.prototype.sort` compares UTF-16 code units, and the two orders differ only for characters outside the Basic Multilingual Plane.
- ChecklistView.GroupByCategory: a category that names a property every JavaScript object inherits (such as "constructor") is treated like any other. The source would find the inherited property and fail on `push`.
- ChecklistView.ChecklistState.AddItem: `Date.now()` is the parameter `now`, and distinct stamps give distinct ids (`CustomIdInjective`). Two adds within the same millisecond are not modelled.
- CostCalculator.CostFromInput and CostCalculator.RateFromInput: take the parsed value (`None` for NaN) rather than the raw input text.
- CostCalculator.CostFromInput and CostCalculator.RateFromInput keep a negative number as it is: components/CostCalculator.tsx:121, 156, 193 replace only NaN and 0 (`|| 0`, `|| 1000`).
