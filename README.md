# ed-generator notification engine, in Dafny

ed-generator turns rows pasted from a spreadsheet into ready-to-publish notification texts for residents:
- a news title and HTML body;
- a push title and push body.

It covers three kinds of event:
- door-to-door visits (obhod);
- pickets (piket);
- owners' meetings (vstrecha).

This project models the text engine (`lib/generator.js`) and the record-building part of the generator page: `getCell`, the page's own `detectPlacePush`, and `generate()` in `app/app/page.js`. It proves properties of that model.

The modules follow the program's pieces:

| file | module | what it models |
|---|---|---|
| `wrappers.dfy` | `Wrappers` | `Option` (JavaScript `null`/`undefined`, `??`) and `Result` (the `{ ok, error }` objects) |
| `text.dfy` | `Text` | the string built-ins the engine relies on: `trim`, `\s`, `split`/`join`, `includes`, `toLowerCase`, `String(n)`, `Number(digits)`, `padStart` |
| `lists.dfy` | `Lists` | the array idioms: stable `sort` by a numeric key, the `uniq`-by-`find` loop, `Map` buckets in insertion order, the first-error loop |
| `calendar.dfy` | `Calendar` | `normalizeTimeRange`, `parseRuDate`, and the calendar behind `Date.UTC` |
| `phrases.dfy` | `Phrases` | the month table, `formatDateHuman`, `formatDateListHuman`, `areConsecutiveDays`, `pluralDays`, `buildPushRelative`, `buildPushRelativePiket` |
| `render.dfy` | `Render` | `renderTemplate` |
| `tsv.dfy` | `Tsv` | `parseTSV` and the row record |
| `groups.dfy` | `Grouping` | `buildGroups` |
| `places.dfy` | `Places` | `formatPlaceHuman`, `detectPlacePush` and the meeting helpers |
| `obhod.dfy` | `Obhod` | `formatObhodDateTimeHumanMulti` (the reschedule phrase) |
| `obhod_engine.dfy` | `ObhodEngine` | `buildObhodResultsFromRows` and its helpers: `dayKey`, `isNextDay`, `sameSlots`, `formatSingleDayWithSlots`, `buildNewsDateTime`, `selectObhodScenarioKey`, `buildPushDay`, `buildPushTime` |
| `generate.dfy` | `Generate` | `getCell`/`setCell`, the page's `detectPlacePush`, the template lookups and `generate()` with its four paths: cancellation, reschedule, regular visits, pickets and meetings |

Loops of the source are methods with loop invariants:
- the `parseTSV` loop;
- the two loops of `buildGroups`;
- the parse and `uniq` loops of `formatObhodDateTimeHumanMulti`;
- every loop of `buildObhodResultsFromRows`;
- `areConsecutiveDays` and `sameSlots`;
- the `renderTemplate` loop;
- the loops of `generate()`.

Each method is proved against a function that states what the loop computes. The properties of the source are proved as lemmas about those functions.

Modelling choices:
- A timestamp `ts` is the number of days since 1970-01-01, in the proleptic Gregorian calendar, times 86 400 000. "The next day" then means ordinals one apart, and `OneDayApartIffNext` shows this is the calendar's next day.
- `Date.UTC` reads the years 0..99 as 1900 plus the year. The model keeps this, so `01.01.0050` is a non-existent date (`EarlyYearExample`).
- Regular expressions are hand-written character scanners. `HallAtIff` shows that the `холл … подъезда` scanner finds exactly the matches of the pattern.
- A `Map` is a sequence of entries in insertion order. A lookup is the position of the entry's key.
- In `generate()`, the component state that `generate()` reads is passed in as parameters: the rows, the cell edits, the templates, the tab, the scenario and the form options. The result is the list of records plus the row errors the path reports. `None` means the path left the row errors alone.
- `Generate.Generate` and the functions it is proved against model `generate()` over the corrected obhod engine of the Findings table, which uses the local `buildPushDay`/`buildPushTime`. `Generate.GenerateAsWritten` is the page as written: there, a regular-scenario paste with any row that passes the engine's checks ends with no records and with `setRowErrors` never reached (`Generate.AsWrittenRegularPathEmpty`).
- `renderTemplate` substitutes one key after another. A value that holds a later key's placeholder is therefore expanded again (`SequentialExample`).
- The page always passes an empty `placeOverrides` to `buildGroups`. `BuildGroups` still takes the overrides map, and `PiketPath` uses it empty.
- The reschedule key is the text `address||date`, as in the source. Two different (address, date) pairs whose texts join to the same key share a batch in the model as they do in the source.

## Model

| member | source | states |
|---|---|---|
| Text.Pad2Digits | lib/generator.js:8-10 | `pad2` of a number below 100 is two digits that read back as the number |
| Text.ParsePrinted | lib/generator.js:24-25 | `Number` of a printed number gives the number back |
| Text.NatToStringInjective | lib/generator.js:297 | distinct numbers print differently |
| Text.Trim | lib/generator.js:16 | the result of `trim` neither starts nor ends with white space |
| Text.TrimIdempotent | lib/generator.js:301-304 | trimming twice is trimming once |
| Text.TrimEmptyIffBlank | lib/generator.js:244-245 | a text trims to nothing exactly when every character is white space |
| Text.RemoveSpaces | lib/generator.js:17 | removing `\s+` leaves no white space |
| Text.ContainsIff | lib/generator.js:306 | `includes` holds exactly when the text occurs at some position |
| Text.JoinSplit | lib/generator.js:164 | joining the parts of a split with the separator gives the text back |
| Text.SplitOfJoin | lib/generator.js:164 | separator-free parts joined by the separator split back into exactly those parts |
| Text.SplitCount | lib/generator.js:164 | a split has one part more than the text has separators |
| Text.SplitChars | lib/generator.js:153-154 | every character of every line comes from the pasted text |
| Lists.AllOkValues | lib/generator.js:399-404 | the parse loop succeeds exactly when every time parses, and then keeps every parsed value in order |
| Lists.AllOkFirstError | lib/generator.js:400-403 | on failure, the loop returns the error of the first time that fails, all earlier ones having parsed |
| Lists.SortBy | lib/generator.js:410 | a sort keeps the same elements with the same multiplicities |
| Lists.SortBySorted | lib/generator.js:410 | the sorted list ascends by the key |
| Lists.SortByStable | lib/generator.js:536 | the sort is stable: the elements of each key come out in their input order, which decides the day's `okrug_row` and which equal-start slot is kept |
| Lists.SortBySameElements | lib/generator.js:552 | an element is in the sorted list exactly when it is in the input |
| Lists.UniqByDistinct | lib/generator.js:406-409 | the `uniq` loop keeps elements of distinct keys |
| Lists.UniqByCovers | lib/generator.js:406-409 | every input key is kept |
| Lists.UniqByKeepsFirst | lib/generator.js:548-551 | the first element of each key is the one kept |
| Lists.SortedUniqFacts | lib/generator.js:548-553 | de-duplicated then sorted: distinct keys, ascending order, elements from the input, every input key covered, non-empty for non-empty input |
| Lists.BucketBy | lib/generator.js:503-507 | the `byAddress` loop builds exactly the buckets of the specification |
| Lists.BucketsAsFilter | lib/generator.js:503-507 | bucket i holds exactly the elements of the i-th distinct key in order of first occurrence, in input order |
| Lists.BucketsShape | lib/generator.js:503-507 | buckets are non-empty, hold input elements of one key each, and no two share a key |
| Lists.BucketsCover | lib/generator.js:503-507 | every element lands in some bucket |
| Calendar.UnifySeparators | lib/generator.js:18-19 | dashes become `-` and periods become `:`, one character for one |
| Calendar.NormalizeTimeRange | lib/generator.js:12-48 | every success is a valid range: 0 <= from < to <= 1439, and key, short form and news text spell those minutes |
| Calendar.BuildRangeValid | lib/generator.js:27-47 | hours <= 23, minutes <= 59 and an end after the start build a valid range |
| Calendar.NormalizeTimeRangeErrors | lib/generator.js:13-33 | empty input, a broken shape, an out-of-range clock and an empty or reversed range each fail, with the source's message |
| Calendar.NormalizeKey | lib/generator.js:35-46 | round trip: the key of any range of the day normalises back to exactly that range |
| Calendar.ValidRangeDeterminedByMinutes | lib/generator.js:38-47 | a valid range is determined by its two minute bounds |
| Calendar.KeyIffSameMinutes | lib/generator.js:46 | two valid ranges have the same key exactly when they have the same bounds |
| Calendar.MatchClockText | lib/generator.js:21-25 | a clock text reads back as its hours and minutes |
| Calendar.ClockTextInjective | lib/generator.js:35-36 | different minute counts give different clock texts |
| Calendar.NormalizeSameShape | lib/generator.js:15-19 | inputs that differ only in white space, dash style or `.` versus `:` normalise identically |
| Calendar.DottedKeyNormalizes | lib/generator.js:19 | a key written with periods normalises to the same range as the key itself |
| Calendar.DottedTimeExample | lib/generator.js:19 | "18.30-19.30" normalises to the range 18:30 to 19:30 |
| Calendar.HalfPastWording | lib/generator.js:35-46 | that range's key is "18:30-19:30" and its news text "с 18:30 до 19:30" |
| Calendar.DaysInMonth | lib/generator.js:62-64 | a month has 28 to 31 days |
| Calendar.YearLength | lib/generator.js:62 | a year has 366 days when it is a leap year and 365 otherwise |
| Calendar.DateOfNumbers | lib/generator.js:56-66 | the range and calendar checks accept only real days of the years 100..9999 |
| Calendar.ParseRuDate | lib/generator.js:50-67 | every accepted date is a real day |
| Calendar.ParseRuDateIff | lib/generator.js:50-67 | accepts exactly the trimmed D.M.YYYY texts naming a real day of the years 100..9999, and returns that day's numbers and timestamp |
| Calendar.ParsePrintedDate | lib/generator.js:50-66 | round trip: every real day of the years 1000..9999, written D.M.YYYY, parses back to itself |
| Calendar.ParseDigitFields | lib/generator.js:53-65 | a clean D.M.YYYY text parses exactly as its three numbers are checked |
| Calendar.LeapDayExample | lib/generator.js:62-65 | 29.02.2024 is accepted |
| Calendar.NoLeapDayExample | lib/generator.js:62-65 | 29.02.2023 is a non-existent date |
| Calendar.ShortMonthExample | lib/generator.js:62-65 | 31.04.2025 is a non-existent date, not rolled over into May |
| Calendar.BadMonthExample | lib/generator.js:60 | a month past 12 is rejected before any calendar check |
| Calendar.EarlyYearExample | lib/generator.js:62-64 | 01.01.0050 is rejected because `Date.UTC` moves the year to 1950 |
| Calendar.TsMonotone | lib/generator.js:66 | `ts` strictly increases in calendar order |
| Calendar.TsInjective | lib/generator.js:66 | two valid dates with the same `ts` are the same date |
| Calendar.NextDayOrdinal | lib/generator.js:94 | the calendar day after a date is one day ordinal later |
| Calendar.OneDayApartIffNext | lib/generator.js:94 | two valid dates are 86 400 000 ms apart exactly when the second is the calendar day after the first |
| Phrases.MonthWordsPlain | lib/generator.js:3-6 | month names hold no blank or comma, and different months have different names |
| Phrases.FormatDateHumanInjective | lib/generator.js:69-71 | "D month" determines the day and the month |
| Phrases.FormatDateListIsEnumeration | lib/generator.js:73-89 | for every length, the list is the Russian enumeration of the day numbers plus the shared month name, or of the full dates when months differ |
| Phrases.FormatDateListCommas | lib/generator.js:79-88 | a list of n >= 2 dates is written with exactly n - 2 commas, so every date is listed |
| Phrases.DateListStartsWithDigit | lib/generator.js:73-89 | a non-empty date list starts with the first day number |
| Phrases.AreConsecutiveDays | lib/generator.js:91-97 | the loop answers true exactly when each date is 86 400 000 ms after the previous one |
| Phrases.ConsecutiveIsCalendarRun | lib/generator.js:91-97 | for parsed dates, that test is "each date is the calendar day after the previous one" |
| Phrases.PluralDaysFollowsRule | lib/generator.js:99-106 | `pluralDays` follows the Russian rule: 11..14 take "дней", a last digit 1 takes "день", 2..4 take "дня", others "дней" |
| Phrases.PushRelativeTwoDates | lib/generator.js:108-115 | two dates read "Завтра и послезавтра" exactly when the second is the calendar day after the first, otherwise "Завтра и D month" |
| Phrases.PushRelativeLongList | lib/generator.js:117-119 | three or more dates in a calendar run read "Завтра и следующие N дня" with N one less than the count; others read as the date list |
| Phrases.PushRelativePiketRun | lib/generator.js:122-131 | a picket run of n >= 2 days reads "Ближайшую неделю" for 7 and "Ближайшие n" plus the plural word otherwise |
| Phrases.PushRelativePiketGap | lib/generator.js:122-133 | one date reads "Завтра"; a list with a gap falls back to `buildPushRelative` |
| Phrases.PushRelativeEmptyIff | lib/generator.js:108-124 | both push phrases are empty exactly for no dates |
| Render.Placeholder | lib/generator.js:138 | a placeholder is the key wrapped in braces |
| Render.RenderTemplate | lib/generator.js:135-141 | the loop renders as the substitutions applied in the order of `vars`, from the template or "" when it is missing |
| Render.SplitJoinIsReplaceAll | lib/generator.js:138 | split on a placeholder then join with the value replaces every occurrence, left to right |
| Render.ReplaceAbsent | lib/generator.js:138 | text without the placeholder is left unchanged |
| Render.SubstituteOnce | lib/generator.js:138 | a placeholder in brace-free text is replaced by its value, or by "" for a nullish value |
| Render.RenderWithoutBraces | lib/generator.js:135-141 | text without `{` renders to itself whatever the values |
| Render.RenderUnmatched | lib/generator.js:135-141 | text holding no key's placeholder renders to itself: other braces stay verbatim |
| Render.UnknownKeyKept | lib/generator.js:137-139 | `{NAME}` with no `NAME` key stays as it is |
| Render.RenderMissingTemplate | lib/generator.js:136 | a missing template renders to "" |
| Render.SequentialExample | lib/generator.js:137-139 | a value holding a later key's placeholder is expanded by that key; a nullish value erases its placeholder |
| Tsv.Columns | lib/generator.js:164 | a line always has at least one column |
| Tsv.ParseTsv | lib/generator.js:152-221 | `parseTSV` returns what the specification function gives |
| Tsv.ParseLines | lib/generator.js:163-218 | the line loop collects the outcome of every line, in order |
| Tsv.EmptyPasteIff | lib/generator.js:153-158 | no rows and the single error "Пустая вставка" exactly when there is no non-blank line, for instance a paste of white space only |
| Tsv.LineOutcomeCases | lib/generator.js:164-217 | a line gives a row exactly when it has 4 (obhod) or 8 (other) columns, numbered by its position; otherwise its column error |
| Tsv.CollectCount | lib/generator.js:160-220 | every outcome is kept, as a row or an error |
| Tsv.CollectRows | lib/generator.js:163-218 | collected rows ascend strictly by number, each is the outcome of its line, and a line gives a row exactly when some row has its number |
| Tsv.ParseLinesFacts | lib/generator.js:163-220 | rows plus errors equal the number of non-blank lines; row numbers are 1-based and strictly increasing; every error is the column error of a short line |
| Tsv.RowFields | lib/generator.js:167-217 | each event type's row carries its line's columns in the source's places; the meeting link is column 9 or "" |
| Tsv.TrimDropsCarriageReturn | lib/generator.js:154-155 | a trailing `\r` does not survive trimming, so splitting on `\n` matches splitting on `\r?\n` |
| Tsv.ParseTable | lib/generator.js:152-221 | round trip: a pasted table of clean cells gives one row per table row, numbered from 1, built from exactly its cells, and no errors |
| Grouping.Classify | lib/generator.js:231-248 | an accepted row has a valid time range, a real date and a non-empty trimmed address |
| Grouping.ClassifySteps | lib/generator.js:231-248 | the checks run time, then date, then address, each failure carrying its message |
| Grouping.GatherRows | lib/generator.js:231-277 | the first loop fills the groups and the errors as the specification says |
| Grouping.GatherRow | lib/generator.js:232-276 | one turn of that loop |
| Grouping.JoinGroup | lib/generator.js:250-276 | a group is created when its key is new, then the row's date and row are pushed onto it |
| Grouping.UniqueDates | lib/generator.js:281-285 | the de-duplicating loop keeps a date unless the last kept one has its `ts` |
| Grouping.FinalizeGroups | lib/generator.js:279-288 | each group is sorted and de-duplicated in place, in order |
| Grouping.BuildGroups | lib/generator.js:227-291 | `buildGroups` returns what the specification function gives |
| Grouping.GatherErrors | lib/generator.js:231-248 | rejected rows are reported in input order with the failing check's message |
| Grouping.GatherKeys | lib/generator.js:250-272 | groups appear in the order their keys first occur, one group per key |
| Grouping.FirstOfIff | lib/generator.js:251 | a key has a group exactly when some accepted row has that key |
| Grouping.GatherMembers | lib/generator.js:250-276 | each group holds exactly the accepted rows with its key, in input order, and their dates |
| Grouping.GatherHeaded | lib/generator.js:251-271 | each group's key, time, place, topic and other copied fields come from its first row, and the override wins over the place when present |
| Grouping.GatherCount | lib/generator.js:231-277 | every row is counted once: as a rejected row or as a row of a group |
| Grouping.SortAscending | lib/generator.js:280 | the dates are sorted by `ts` |
| Grouping.UniqueCovers | lib/generator.js:281-286 | every date keeps a representative with its `ts` |
| Grouping.FinalDates | lib/generator.js:279-288 | a finished group's dates strictly ascend by `ts` and are the same days as were gathered |
| Grouping.GroupKeyInjective | lib/generator.js:250 | two keys of the same type and scenario agree exactly when address and time key do |
| Grouping.SameGroupIff | lib/generator.js:250 | two accepted rows share a group exactly when their trimmed addresses and time ranges are equal |
| Grouping.SameAddressAndTime | lib/generator.js:250-276 | all rows of a group share its address and time range |
| Grouping.FinishedAll | lib/generator.js:227-291 | the finished groups come in first-occurrence order, each headed by its first row and holding exactly its rows |
| Grouping.BuildGroupsCorrect | lib/generator.js:227-291 | rejected rows in order with their messages; every other row in exactly one group; groups in first-occurrence order; dates strictly ascending |
| Places.HallAtIff | lib/generator.js:308 | the scanner finds a match at a position exactly when the pattern matches there, with the same captured digits |
| Places.FindHallLeftmost | lib/generator.js:308 | the scanner finds the leftmost match, and finds one whenever one exists |
| Places.PodiezdGenitive | lib/generator.js:294-298 | the entrance ending is empty exactly for the number zero |
| Places.PodiezdOfPrinted | lib/generator.js:294-298 | a printed entrance number comes back followed by "-го" |
| Places.PodiezdLeadingZero | lib/generator.js:308-311 | leading zeros do not change the entrance named |
| Places.HallPhrase | lib/generator.js:308-314 | a hall phrase is non-empty and starts with "в" |
| Places.DetectPlacePush | lib/generator.js:319-329 | the push is "в вашем дворе" exactly when the normalised place mentions "около дома", otherwise "в вашем доме" |
| Places.LowerCollapse | lib/generator.js:304 | lower-casing and collapsing white space commute |
| Places.FormatPlaceEmptyIff | lib/generator.js:300-317 | the place text is empty exactly when the place is blank |
| Places.PlaceNearHouseIff | lib/generator.js:304-306 | the place text is "около дома" exactly when the normalised place mentions it |
| Places.PlacePushAgrees | lib/generator.js:300-329 | the push says "в вашем дворе" exactly when the place text is "около дома" |
| Places.NormalizeMeetingType | lib/generator.js:332-337 | the result is "online", "offline" or ""; "online" exactly when an online word occurs; "" exactly when no known word occurs |
| Places.NormalizeMeetingTypeIdempotent | lib/generator.js:332-337 | normalising a meeting type twice changes nothing |
| Places.NormalizeMeetingTopic | lib/generator.js:345-353 | the two known topics, in any case, get their phrases; any other topic is kept trimmed |
| Places.BuildMeetingTema | lib/generator.js:359-362 | never empty, and "ОСС" exactly for a blank topic or the topic "ОСС" |
| Places.EscapeQuotes | lib/generator.js:377 | the escaped link holds no `"`, and a link without one is unchanged |
| Places.EscapeRoundTrip | lib/generator.js:377 | a link without `&` comes back from its escaped form unchanged |
| Places.FooterLinkReadBack | lib/generator.js:364-383 | an online footer with a link carries it, escaped, as the whole `href` value, read back exactly when it holds no `&` |
| Obhod.DistinctSlotsFacts | lib/generator.js:406-410 | the distinct slots have distinct keys, ascend by start, come from the input and cover its keys |
| Obhod.ParseTimes | lib/generator.js:399-404 | the parse loop returns every time parsed, in order, or the first error |
| Obhod.UniqSlots | lib/generator.js:406-409 | the `uniq` loop keeps the first slot of each key |
| Obhod.FormatObhodDateTimeHumanMulti | lib/generator.js:386-414 | the method returns what the specification function gives |
| Obhod.ObhodDateTimeOkIff | lib/generator.js:386-404 | the phrase exists exactly when the date parses, one or two non-empty times were given, and each parses |
| Obhod.ThreeCopiesRefused | lib/generator.js:392-397 | times are counted before de-duplication: three copies of one valid time are refused |
| Obhod.RepeatedTimeOnce | lib/generator.js:406-413 | a repeated time reads as that time once |
| Obhod.TimeOrderIrrelevant | lib/generator.js:410-413 | two valid times with different starts read the same in either order |
| ObhodEngine.CheckRow | lib/generator.js:474-499 | an accepted row becomes a valid event with its row number and trimmed address |
| ObhodEngine.ScreenRows | lib/generator.js:474-500 | the first loop screens every row as the specification says |
| ObhodEngine.ScreenAccounts | lib/generator.js:474-500 | every row is accounted for once: an accepted row as an event, a rejected one as an error with its number and message |
| ObhodEngine.ValidationOrderDiffers | lib/generator.js:475-491 | this path checks the address first; a row with an empty address and a bad time is reported for its address here and for its time by `buildGroups` |
| ObhodEngine.DayKeyInjective | lib/generator.js:417-419 | two parsed dates with the same day key are the same date |
| ObhodEngine.EventOrderIsLexicographic | lib/generator.js:536 | the sort orders by date, then by start minute |
| ObhodEngine.ByAddressShape | lib/generator.js:502-507 | each address bucket is non-empty, its events share the address, and no two buckets share one |
| ObhodEngine.GatherSortedDays | lib/generator.js:536-546 | the events are sorted, gathered by day and the days sorted by date |
| ObhodEngine.CapEachDay | lib/generator.js:547-554 | each day's slots are replaced by its capped distinct slots, in place |
| ObhodEngine.CollectDays | lib/generator.js:535-554 | steps 3 and 4 give the days of the address |
| ObhodEngine.CapSlotsFacts | lib/generator.js:545-554 | at most two slots of distinct keys, ascending by start, taken from the day; a dropped distinct slot starts no earlier than the second kept one |
| ObhodEngine.GatherDaysDistinct | lib/generator.js:538-543 | no two gathered days share a date |
| ObhodEngine.DaysOfValid | lib/generator.js:538-554 | every day has a parsed date and one or two valid slots |
| ObhodEngine.DaysOfAscending | lib/generator.js:546 | the days of an address strictly ascend by date |
| ObhodEngine.DayOf | lib/generator.js:538-546 | every event's date is the date of a day of its address |
| ObhodEngine.BlocksConcat | lib/generator.js:557-612 | the blocks, put back together, are the days in order, so each day is in exactly one block |
| ObhodEngine.BlocksShape | lib/generator.js:557-612 | a block holds one or two days; a block of two is consecutive; a block of one is never followed by the next day |
| ObhodEngine.ConsecutiveRunPairs | lib/generator.js:557-585 | a consecutive run is cut into pairs from the front, half as many blocks rounded up |
| ObhodEngine.ThreeConsecutiveDays | lib/generator.js:557-612 | three consecutive days give a block of two and a block of one |
| ObhodEngine.PairIsNextCalendarDay | lib/generator.js:420-422 | a block of two is a date and the calendar day after it |
| ObhodEngine.SameSlots | lib/generator.js:423-429 | the loop answers true exactly when both slot lists have the same keys in the same order |
| ObhodEngine.ScenarioKeyByCounts | lib/generator.js:452-467 | the scenario key spells the day count and each day's slot count, with `same`/`diff` by slot key for two single-slot days |
| ObhodEngine.SingleDayIsSlotsPhrase | lib/generator.js:430-433 | one day's text is the date followed by its slots joined by " и " |
| ObhodEngine.NewsOfSameSlots | lib/generator.js:444-448 | two days with the same slot keys share one text: the date list, then the common slots |
| ObhodEngine.NewsOfSameSlotsSameMonth | lib/generator.js:444-448 | within one month that text is "d1 и d2 month" followed by the slots |
| ObhodEngine.NewsDateTime | lib/generator.js:434-451 | the method computes `buildNewsDateTime` |
| ObhodEngine.PushTimeOfBlock | lib/generator.js:520-530 | the push time is the first slot's text for one day and for two days sharing one slot, and empty otherwise |
| ObhodEngine.PushDayOfBlocks | lib/generator.js:510-518 | every block's push day is "Завтра" or, since a pair is always consecutive, "Завтра и послезавтра" |
| ObhodEngine.MakeItem | lib/generator.js:560-580 | the item pushed for one block |
| ObhodEngine.CutBlocks | lib/generator.js:557-612 | the index loop pushes one item per block, in order, and every block is valid |
| ObhodEngine.ItemsOfAddress | lib/generator.js:535-612 | steps 3 to 5 give the items of one address |
| ObhodEngine.ItemsOfAddresses | lib/generator.js:534-613 | the loop over addresses gives the items of each address in turn |
| ObhodEngine.BuildObhodResultsFromRows | lib/generator.js:469-616 | the method returns the corrected results, with the local push helpers |
| ObhodEngine.ObhodItemShape | lib/generator.js:567-608 | every item is an obhod item with a non-empty address repeated in its variables, no time range and one of the seven scenario keys |
| ObhodEngine.AddressItemsNonEmpty | lib/generator.js:557-612 | an address with events has at least one item |
| ObhodEngine.ValidRowGivesItem | lib/generator.js:469-616 | a row that passes the checks yields at least one item |
| ObhodEngine.AsWrittenThrowsOnValidRow | lib/generator.js:564-565 | as written, one row that passes the checks makes the call throw, where the corrected engine gives items |
| ObhodEngine.AsWrittenReturnsOnlyWithoutEvents | lib/generator.js:592-593 | as written, the call returns only when no row passes, and then it agrees with the corrected engine |
| ObhodEngine.NoValidRowNoItems | lib/generator.js:474-507 | when no row passes the checks there are no items, so the call as written returns |
| Generate.CellKeyInjective | app/app/page.js:207 | different cells have different keys |
| Generate.SetThenGet | app/app/page.js:206-215 | reading a cell after writing it gives what was written, even ""; every other cell reads as before |
| Generate.GetCellWithoutEdit | app/app/page.js:206-210 | without an edit, `getCell` reads the row's own field, or the fallback |
| Generate.PatchReadsEdit | app/app/page.js:258-264 | an edit of a row's address is what the obhod paths read, and the other cells are unaffected |
| Generate.DetectPlacePushLocalMeaning | app/app/page.js:227-246 | the page's `detectPlacePush` is never empty; it gives the yard exactly when the lower-cased text says "около дома" |
| Generate.FindTemplateFacts | app/app/page.js:300-302 | the lookup finds a template exactly when one matches, and what it finds matches |
| Generate.ActiveLookupImpliesAny | app/app/page.js:201-203 | whatever the active-only lookup finds, the lookup that ignores `is_active` finds too |
| Generate.CancelRecordMeaning | app/app/page.js:366-420 | a cancellation record is "ok" exactly when the row has an address and an active template exists; otherwise it names the empty row or the scenario |
| Generate.GenerateCancel | app/app/page.js:366-420 | the loop gives one record per row, in order |
| Generate.BatchRecordMeaning | app/app/page.js:304-357 | a batch's record is "ok" exactly when an active template exists and the date and times format; a format error lists the batch's row numbers |
| Generate.EmptyAddressRecordsCount | app/app/page.js:272-289 | one error record per row with an empty address |
| Generate.EmptyAddressRowReported | app/app/page.js:273-287 | every row with an empty address has its error record, naming its row number |
| Generate.BatchesWellFormed | app/app/page.js:294-297 | the map keeps distinct keys, each batch with one time per row number |
| Generate.RowInBatch | app/app/page.js:291-297 | a row with an address is in the batch of its key, with its row number and trimmed time |
| Generate.SameAddressAndDateOneBatch | app/app/page.js:291-297 | rows with the same trimmed address and date share one batch, hence one record |
| Generate.RescheduleShape | app/app/page.js:269-358 | the empty-address errors come first, then one record per batch in the batches' order |
| Generate.FileRow | app/app/page.js:294-297 | filing one row into the map |
| Generate.GatherRescheduleRows | app/app/page.js:272-298 | the first reschedule loop gives the empty-address errors and the batches |
| Generate.GenerateReschedule | app/app/page.js:269-362 | the reschedule path gives the specified records |
| Generate.ItemRecordMeaning | app/app/page.js:441-474 | an item's record copies the item's fields and is an error, naming the scenario, exactly when no active template has the item's scenario |
| Generate.GenerateRegular | app/app/page.js:441-475 | the loop gives one record per item, in order |
| Generate.RuleErrorsMeaning | app/app/page.js:536-542 | each rule message is there exactly when its rule is on and its value empty |
| Generate.GroupErrorsMeaning | app/app/page.js:536-542 | the place-push rule never fails; a group fails exactly when another rule does |
| Generate.DateTimeUntrimmed | app/app/page.js:510 | DATE_TIME is the date list, a blank and the time text; the trim removes nothing |
| Generate.PiketRecordMeaning | app/app/page.js:507-556 | a group's record has its address, date list and time text, is an error exactly when a rule fails, and joins the failing messages with "; " |
| Generate.PiketRecordsMeaning | app/app/page.js:507-557 | the record at a position is that of the group there |
| Generate.GroupDatesValid | app/app/page.js:502 | every date `buildGroups` hands to the page is a real date |
| Generate.GeneratePiket | app/app/page.js:507-557 | the loop gives one record per group, in order |
| Generate.Generate | app/app/page.js:248-560 | `generate()`, with the corrected obhod engine, picks the path by tab and scenario and returns its records and row errors |
| Generate.CancelPath | app/app/page.js:366-424 | cancellation: one record per input row, in order, each as its meaning says, and the row errors cleared |
| Generate.RegularPath | app/app/page.js:436-478 | regular visits over the corrected engine: one record per item, in order, an error exactly when no active template has the item's scenario |
| Generate.PiketWithoutTemplate | app/app/page.js:482-485 | pickets and meetings without any template give no records and leave the row errors alone |
| Generate.PiketPath | app/app/page.js:482-557 | pickets and meetings: one record per group, an error exactly when a rule fails, never the place-push rule |
| Generate.AsWrittenRegularPathEmpty | app/app/page.js:249-437 | as written, one row passing the engine's checks leaves a regular-scenario `generate()` with no records and the row errors unset, where the corrected page gives records |
| Generate.AsWrittenAgreesOtherwise | app/app/page.js:248-560 | as written, the page gives what the corrected model gives on every other tab and scenario, and whenever no row passes the engine's checks |

## Left out

- React state, effects, `alert`, the clipboard and all JSX are not modelled. `generate()` returns its records and row errors instead of calling `setResults` and `setRowErrors`.
- Fetching templates and the profile from the database is not modelled. The templates are a parameter. The page fetches only the templates whose `is_active` is true (app/app/page.js:169-172), so in the running page the picket lookup, which ignores `is_active`, and the obhod lookups, which check it, see the same templates. `ActiveLookupImpliesAny` relates the two lookups over any template list and does not describe a difference the page shows.
- `toLowerCase` is a table covering ASCII, the Latin-1 capitals and the basic Cyrillic capitals (U+0400..U+042F). Other scripts are left as they are.
- `\s` and `trim` use a fixed set of white-space characters.
- `Date` objects are day ordinals times 86 400 000. Time zones and the milliseconds within a day are not modelled, since every date the engine builds is midnight UTC.
- `Number(...)` is modelled only on the digit strings the patterns capture. `String(x || "")` of non-string values is not modelled, since every row field is a text.
- A template's `rules` are four booleans. JavaScript truthiness of other JSON values is not modelled.
- The pickets path reads `topicShort`, `cancelReason`, `whenWord` and `link` from the page's form. They are an `Options` parameter.
- `Places.NormalizeMeetingType`: the contract does not separately characterise the "offline" answer beyond "neither online nor empty".
- `list.sort`, `d.slots = ...` and the `Map` updates change arrays in place. The model computes the new sequences as values; no other code reads the old arrays, so aliasing is not modelled.
- `ObhodEngine.DayOf`: states that each event's date is the date of some day, not the day's position.
- `Calendar.ParsePrintedDate`: the round trip is stated for the years 1000..9999, whose numbers print with four digits, as the pattern needs.

## Findings

| source | as written | input that shows it | evidently intended | confidence | as-written member | corrected member |
|---|---|---|---|---|---|---|
| lib/generator.js:564-565 | each block calls `buildObhodPushDay` and `buildObhodPushTime`, which are defined nowhere, so the call throws a `ReferenceError` | one obhod row "ЦАО", "Тверская, 1", "05.05.2025", "10:00-12:00" | the helpers defined next to the loop, `buildPushDay` and `buildPushTime` (lib/generator.js:512-530) | not executed | ObhodEngine.AsWrittenThrowsOnValidRow | ObhodEngine.BuildObhodResultsFromRows |
| app/app/page.js:436-437 | `generate()` clears the results and calls the engine above, so the exception escapes before `setRowErrors` and the loop that builds the records | the same row pasted on the obhod tab with a regular scenario | records built from the engine's items, and its row errors shown | not executed | Generate.AsWrittenRegularPathEmpty | Generate.RegularPath |
