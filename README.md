# rosario-companero: a verified model of the rosary companion's core

This project is a Dafny model of the logic behind the rosary companion web app. It covers six parts:

- **Speech output** (`audio.dfy`): `splitIntoChunks` normalises the white space of a text. It splits the text after sentence punctuation and hard-wraps sentences longer than 180 characters at their last space. `AudioSvc.sayChunks` voices the chunks in order, each with its numbered clip and a 120 ms pause. The speech engine is an abstract speaker that records what it is asked to do.
- **Turn-end detection** (`recognition.dfy`): `RecognitionSvc.listen` decides when the user has finished speaking. It is a class over the recogniser state and a `Session` class holding the closure variables of one `listen` call (`finals`, `interim`, `lastVoiceAt`, `okSilenceCount`). Result batches, errors, the end of recognition and the safety timer are methods, and each carries the instant `now` at which it happens. The UI callbacks and the recogniser's start/stop calls go to a log.
- **Liturgical calendar** (`calendar.dfy`, `liturgical.dfy`):
  - the Easter computus, with JavaScript's truncating `%` written out;
  - the UTC date helpers over civil dates and day numbers, including `Date.UTC`'s mapping of years 0..99 to 1900..1999 and its day carry;
  - the season classification `currentSeason` for a local calendar date;
  - the palette table.
- **Mysteries of the day** (`day_mysteries.dfy`): the weekday table and its title and days-label tables.
- **News administration**:
  - the bearer-token check (`auth.dfy`);
  - the key-value news list (`news_store.dfy`, a class whose one field is the stored value);
  - the blob-manifest news API (`news_route.dfy`: token sources, form validation, upload extensions, the 401/400/404 decision paths, and append and splice on the manifest);
  - the readings-section news API over the key-value list (`lecturas_news_route.dfy`).
  - A shared insertion sort (`sorting.dfy`) stands for `Array.prototype.sort`.
- **Readings page extraction** (`lecturas_route.dfy`): the regular expression `/<body[^>]*>([\s\S]*?)<\/body>/i` is written out as the leftmost search the engine performs. It is proved to return the capture of the leftmost match, or the whole page when there is none.

`text.dfy` holds the JavaScript string operations the core relies on: `\s` and `trim`, `split` on one character, `toLowerCase` for ASCII letters, string `<`, and decimal rendering of integers. `wrappers.dfy` holds `Option`.

Clocks, random ids, the time zone, the network and the storage services appear as parameters or as fields the handlers read and write.

## Model

| member | source | states |
|---|---|---|
| Audio.CollapseSpaces | src/lib/audio.ts:9 | every white-space character of the result is a lone ASCII space; a non-empty text stays non-empty and keeps a non-space first character (its relation to the words of the text is `Audio.CollapseWords`) |
| Audio.Normalize | src/lib/audio.ts:8-10 | the result has no white space at either end and only single ASCII spaces between non-space characters (which characters it keeps is `Audio.NormalizeWords`) |
| Audio.Words | src/lib/audio.ts:9-10 | the maximal runs of non-space characters of a text, in order; a text starting with a non-space character has at least one |
| Audio.WordsAreWords | src/lib/audio.ts:9-10 | every element of `Words(t)` is non-empty and free of white space |
| Audio.NoWordsAllSpace | src/lib/audio.ts:9-10 | a text without words is all white space |
| Audio.WordsFrom | src/lib/audio.ts:9-10 | leading white space holds no word |
| Audio.CollapseWords | src/lib/audio.ts:9 | `replace(/\s+/g, ' ')` gives the words of the text, in order, one space between each two, plus one space for white space before the first word and one for white space after the last |
| Audio.JoinWordsTrimmed | src/lib/audio.ts:10 | words joined by single spaces have no white space at either end |
| Audio.NormalizeWords | src/lib/audio.ts:8-10 | the normalised text is exactly the words of the input joined by single spaces: every non-space character is kept, in order, and each white-space run between two of them becomes one space |
| Audio.NormalizeIdempotent | src/lib/audio.ts:8-10 | normalising an already normal text changes nothing |
| Audio.FindBreak | src/lib/audio.ts:11 | the result is the leftmost position at or after `from` where a punctuation mark `. ! ? ; :` is followed by white space, or none exists |
| Audio.RegexSplit | src/lib/audio.ts:11 | the split with its capture group always has an odd number of pieces: text, mark, text, ... |
| Audio.NonEmpty | src/lib/audio.ts:19 | `filter(Boolean)` leaves no empty string |
| Audio.SentencesOfNormalized | src/lib/audio.ts:11-19 | the sentences of a normal text, joined by single spaces, give the text back; each is non-empty, normal and contains no break; every sentence but the last ends with its punctuation mark |
| Audio.LastIndexOf | src/lib/audio.ts:26 | `lastIndexOf(' ', max)` is the last index at or before `max` holding a space, or -1 |
| Audio.WrapRestSound | src/lib/audio.ts:24-31 | the pieces of the hard wrap, joined by single spaces, give the sentence back (each cut drops exactly one space); each piece is non-empty and at most `max` long unless it has no space at indices 1..max |
| Audio.WrapRestHead | src/lib/audio.ts:20-26 | the first piece of the wrap is a prefix of the sentence ending at a space of it or at its end |
| Audio.CutIsGreedy | src/lib/audio.ts:21 | a word starting right after the cut and ending at a space or at the end reaches beyond `max` |
| Audio.WrapRestGreedyHead | src/lib/audio.ts:20-24 | the first word of the piece after a cut does not fit after the piece before it |
| Audio.WrapRestGreedy | src/lib/audio.ts:20-26 | the cut is at the last space within `max`: for any two consecutive pieces, the first piece, a space and the second piece's first word exceed `max` |
| Audio.WrapSound | src/lib/audio.ts:23-31 | the same for one sentence, including a sentence short enough to pass whole |
| Audio.WrapAllSound | src/lib/audio.ts:21-33 | the chunks of all sentences, joined by single spaces, equal the sentences joined by single spaces; no chunk is empty; each respects the limit |
| Audio.WrapSentences | src/lib/audio.ts:21-33 | the outer `for` and inner `while` loops emit exactly the chunks of the wrap specification |
| Audio.SplitIntoChunks | src/lib/audio.ts:6-34 | the chunks joined by single spaces are the normalised input; every chunk is non-empty, normal and within the limit (or a remainder with no space to cut at) |
| Audio.ChunkText | src/lib/audio.ts:6-34 | `splitIntoChunks` as a value: the wrapped sentences of the normalised text; its properties are `Audio.ChunkTextRoundTrip`, `Audio.ChunkTextShape` and `Audio.ShortSentenceIsOneChunk` |
| Audio.ChunkTextRoundTrip | src/lib/audio.ts:6-34 | joining the chunks with single spaces gives back the normalised text: nothing lost, duplicated or reordered |
| Audio.ChunkTextShape | src/lib/audio.ts:19-31 | no chunk is empty and every chunk respects the limit |
| Audio.ShortSentenceIsOneChunk | src/lib/audio.ts:23 | a normalised text without a sentence break and within the limit is one chunk |
| Audio.ChunkPlan | src/lib/audio.ts:102-110 | the calls `sayChunks` makes, as a value; its shape is `Audio.ChunkPlanShape` |
| Audio.Mp3For | src/lib/audio.ts:105 | the `i`-th chunk's clip is `<base>.<i+1>.mp3` for a non-empty base and none otherwise; distinct chunks get distinct clips (`Audio.Mp3ForDistinct`) |
| Audio.ChunkPlanShape | src/lib/audio.ts:102-110 | the calls are exactly one `sayOrPlay` per chunk, in chunk order, the i-th with clip i+1, each followed by the 120 ms pause |
| Audio.Mp3ForDistinct | src/lib/audio.ts:105 | with a non-empty base, different chunks get different clip names |
| Audio.AudioSvc.constructor | src/lib/audio.ts:36-39 | a new service has asked the speaker for nothing |
| Audio.AudioSvc.SayOrPlay | src/lib/audio.ts:63 | the speaker is asked to voice the line with its optional clip |
| Audio.AudioSvc.Pause | src/lib/audio.ts:108 | one pause of the given length is recorded |
| Audio.AudioSvc.SayEach | src/lib/audio.ts:104-109 | the loop appends the call plan of the chunks to the log |
| Audio.AudioSvc.SayChunks | src/lib/audio.ts:102-110 | the speaker receives the call plan of `splitIntoChunks(text)` with the default limit |
| Recognition.ResolveDefaults | src/lib/recognition.ts:48-55 | without options: `es-AR`, 2500 ms, 1500 ms, 18 characters, 25000 ms, 2 checks |
| Recognition.ResolveKeepsGiven | src/lib/recognition.ts:48-55 | every option that is given overrides its default |
| Recognition.FallbackDelay | src/lib/recognition.ts:61 | without recognition support the wait is `max(minDurationMs, 1200)` |
| Recognition.ApplyResultsByKind | src/lib/recognition.ts:93-106 | after a batch, `finals` is the old `finals` extended by the final transcripts and `interim` the interim ones, each joined by single spaces |
| Recognition.ApplyResultsVoice | src/lib/recognition.ts:97-100 | a final result sets `lastVoiceAt` to now and resets the counter; a batch without one leaves both alone |
| Recognition.ExtendAllJoin | src/lib/recognition.ts:98 | appending texts with a space between them is joining them with single spaces |
| Recognition.ResultEventsOnePerResult | src/lib/recognition.ts:94-106 | with both callbacks set, each result produces exactly one callback call: final results a final text, interim results a partial text |
| Recognition.NextCountRules | src/lib/recognition.ts:88-116 | the counter goes up exactly when the minimum duration, the minimum length and the long silence all hold; it drops to 0 when the silence is short; otherwise it keeps its value; the turn ends only on a passing check that reaches `silenceChecks` |
| Recognition.FinalResultRestartsCount | src/lib/recognition.ts:97-116 | a batch holding a final result cannot end the turn, since it restarts the silence |
| Recognition.OneCheckIsNotEnough | src/lib/recognition.ts:54 | with the default settings a single passing silence check does not end the turn |
| Recognition.RecognitionSvc.constructor | src/lib/recognition.ts:24-29 | no recogniser, not listening, no callbacks |
| Recognition.RecognitionSvc.OnPartial | src/lib/recognition.ts:31 | registers or clears the partial callback and changes nothing else |
| Recognition.RecognitionSvc.OnFinal | src/lib/recognition.ts:32 | registers or clears the final callback and changes nothing else |
| Recognition.RecognitionSvc.Stop | src/lib/recognition.ts:41-44 | stops the current recogniser and clears `listening`; nothing is resolved and no callback is called |
| Recognition.RecognitionSvc.Listen | src/lib/recognition.ts:47-126 | without support it starts nothing and only waits the fallback delay; with support it creates a recogniser, listens, arms the `maxTotalMs` timer and starts it; a throwing `start` finishes at once |
| Recognition.Session.constructor | src/lib/recognition.ts:73-77 | a turn starts with empty texts, `lastVoiceAt` now and a zero counter |
| Recognition.Session.Finish | src/lib/recognition.ts:79-86 | acts only while the service's `listening` flag is set: clears it, stops this call's recogniser, sends `''` as partial and the trimmed finals as final, resolves; otherwise nothing happens; the recogniser, the callbacks and the recogniser count are untouched |
| Recognition.Session.TakeResult | src/lib/recognition.ts:95-105 | one result extends `finals` or `interim` and calls the matching callback with the trimmed text |
| Recognition.Session.TakeResults | src/lib/recognition.ts:94-106 | the loop applies the results in order, with their callback calls |
| Recognition.Session.SilenceCheck | src/lib/recognition.ts:108-116 | the counter becomes the next count of the silence check, the texts are untouched, and the turn finishes exactly when the check ends it while listening |
| Recognition.Session.OnResult | src/lib/recognition.ts:92-117 | `interim` is rebuilt from empty, the results are applied, the counter follows the silence check, and the turn finishes exactly when the check ends it while listening |
| Recognition.Session.OnError | src/lib/recognition.ts:119 | a recogniser error finishes the turn, as `finish` does, and leaves the recogniser, the callbacks and the recogniser count untouched |
| Recognition.Session.OnEnd | src/lib/recognition.ts:120 | the end of recognition finishes the turn, as `finish` does, and leaves the recogniser, the callbacks and the recogniser count untouched |
| Recognition.Session.OnTimeout | src/lib/recognition.ts:123 | with a recogniser the timer finishes the turn, as `finish` does, leaving the recogniser, the callbacks and the recogniser count untouched; without support it only resolves the wait and leaves the service untouched |
| Recognition.Session.FinishOwn | src/lib/recognition.ts:79-86 | corrected `finish` with a flag of its own call: it acts exactly once per call, whatever other calls did to `listening`, and clears `listening` only while its recogniser is the current one |
| Recognition.StaleTimerScenario | src/lib/recognition.ts:67-123 | as written: after one turn ends and a second `listen` starts, the first call's timer stops the first recogniser again and clears the flag, and the second turn is never resolved |
| Recognition.OwnFlagScenario | src/lib/recognition.ts:79-86 | with `FinishOwn` the same events leave the stale timer without effect and resolve the second turn |
| Text.Trim | src/lib/audio.ts:10 | the result has no white space at either end, is no longer than the input, and a trimmed text is left as it is |
| Text.TrimDropsSpace | src/lib/audio.ts:10 | `trim` keeps a contiguous middle part of the text and removes white space only |
| Text.TrimDropsOneTrailingSpace | src/lib/audio.ts:15 | trimming a trimmed sentence with one space appended gives the sentence back |
| Text.Split | src/lib/auth.ts:6 | `split` on one character gives at least one field and no field contains the separator |
| Text.SplitJoin | src/lib/auth.ts:6 | joining the fields with the separator gives the text back |
| Text.SplitFirstField | src/lib/auth.ts:6 | the text before the first separator is the first field, and a second field follows |
| Text.SecondField | src/lib/auth.ts:6-7 | the second field is the text between the first separator and the next one, or the end |
| Text.SplitLastField | src/app/api/news/route.ts:81 | the text after the last separator is the last field |
| Text.StrLessTrichotomy | src/app/api/news/route.ts:50 | string `<` is total and asymmetric |
| Text.StrLessTrans | src/app/api/news/route.ts:50 | string `<` is transitive |
| Text.TrimAround | src/lib/audio.ts:10 | trimming a text with no white space at its ends, wrapped in white space, gives that text back |
| Text.ToLower | src/app/api/lecturas/route.ts:13 | lower-casing keeps the length and maps each character on its own |
| Text.ToLowerLowers | src/app/api/lecturas/route.ts:13 | the result holds no capital letter; a character that is not a capital is kept; a capital becomes its small letter, 32 code points further |
| Text.ToLowerIdempotent | src/app/api/lecturas/route.ts:13 | lower-casing a lower-cased text changes nothing |
| Text.NatToString | src/app/api/news/route.ts:75 | the decimal rendering is a non-empty string of digits |
| Text.ParseNatToString | src/app/api/news/route.ts:75 | reading the decimal rendering back gives the number |
| Text.NatToStringInjective | src/app/api/news/route.ts:75 | different numbers render differently |
| Calendar.EpochDay | src/lib/liturgical.ts:31 | 1970-01-01 is day 0 and a Thursday |
| Calendar.AddDays | src/lib/liturgical.ts:30 | moving a valid date by any number of days gives a valid date |
| Calendar.AddDaysNumber | src/lib/liturgical.ts:30 | `addDays(d, n)` is exactly n days after d |
| Calendar.AddDaysInMonth | src/lib/liturgical.ts:30 | a move within the month only changes the day |
| Calendar.AddDaysWeekday | src/lib/liturgical.ts:30-31 | the weekday moves by n modulo 7 |
| Calendar.NextDayNumber | src/lib/liturgical.ts:30 | the next day is one day later, across month and year ends |
| Calendar.PrevDayNumber | src/lib/liturgical.ts:30 | the previous day is one day earlier |
| Calendar.DateUtc | src/lib/liturgical.ts:28 | `Date.UTC(y, m, d)` always denotes a valid date, carrying days beyond the month's end |
| Calendar.DateUtcOfValid | src/lib/liturgical.ts:42 | `Date.UTC(y, m, d)` of a day that exists denotes that day of year y, or of year 1900+y when y is in 0..99 |
| Calendar.PreviousSundayIsSunday | src/lib/liturgical.ts:31 | the result is a Sunday 0 to 6 days earlier, and it is the day itself exactly when that is a Sunday |
| Calendar.NextSundayIsSunday | src/lib/liturgical.ts:32 | the result is a Sunday 1 to 7 days later, 7 exactly when the day is a Sunday |
| Calendar.PreviousSunday | src/lib/liturgical.ts:31 | `previousSunday`, whose properties `Calendar.PreviousSundayIsSunday` states |
| Calendar.NextSunday | src/lib/liturgical.ts:32 | `nextSunday`, whose properties `Calendar.NextSundayIsSunday` states |
| Liturgical.JsRem | src/lib/liturgical.ts:14 | JavaScript's `%`: the Euclidean remainder for non-negative operands, a non-positive one otherwise |
| Liturgical.EasterComputus | src/lib/liturgical.ts:13-27 | the Anonymous Gregorian computus with truncating `%`; its ranges are `Liturgical.ComputusRanges`, and 2024 and 2025 are checked by `Liturgical.Easter2024` and `Liturgical.Easter2025` |
| Liturgical.ComputusRanges | src/lib/liturgical.ts:14-27 | from year 0 on, h is in 0..29, l in 0..6, m is 0 or 1, and Easter falls between March 15 and April 26 |
| Liturgical.ComputusTail | src/lib/liturgical.ts:25-27 | from `a` in 0..18, `h` in 0..29 and `l` in 0..6, `m` is 0 or 1 and the month and day fall between March 15 and April 26 |
| Liturgical.EasterSunday | src/lib/liturgical.ts:13-28 | `easterSunday` always denotes a valid date |
| Liturgical.EasterSundayDate | src/lib/liturgical.ts:28 | from year 100 on, the date is the computed month and day of that year |
| Liturgical.Easter2024 | src/lib/liturgical.ts:13-28 | the computus gives March 31, 2024, a Sunday |
| Liturgical.Easter2025 | src/lib/liturgical.ts:13-28 | the computus gives April 20, 2025, a Sunday |
| Liturgical.EasterInYear | src/lib/liturgical.ts:38 | Easter lies at least 73 days into its year and more than 200 days before November 28 |
| Liturgical.LandmarksFacts | src/lib/liturgical.ts:38-43 | Christmas is Dec 25; the Baptism falls in the next year; Advent starts between Nov 28 and Dec 4; Ash Wednesday is Easter-46 and Pentecost Easter+49, both inside the year |
| Liturgical.ChristmasLandmark | src/lib/liturgical.ts:42 | the Christmas landmark is December 25 of the year |
| Liturgical.BaptismLandmark | src/lib/liturgical.ts:43 | the Baptism landmark is after December 31 of the year |
| Liturgical.AdventLandmark | src/lib/liturgical.ts:41 | the computed Advent start lies between November 28 and December 4 |
| Liturgical.AshWednesdayLandmark | src/lib/liturgical.ts:39 | Ash Wednesday rebuilt with the year `y` is 46 days before Easter |
| Liturgical.PentecostLandmark | src/lib/liturgical.ts:40 | Pentecost is 49 days after Easter |
| Liturgical.LocalDay | src/lib/liturgical.ts:45 | the classified instant is the local date itself, inside its year |
| Liturgical.LandmarksOrdered | src/lib/liturgical.ts:38-43 | from year 100 on the landmarks come in the order Ash Wednesday, Easter, Pentecost, Advent, Christmas, Baptism |
| Liturgical.ClassifyWindows | src/lib/liturgical.ts:47-55 | on ordered landmarks the chain of checks returns each season exactly inside its window |
| Liturgical.SeasonWindows | src/lib/liturgical.ts:45-55 | a local day's season is its window among the ordered landmarks of its year |
| Liturgical.CurrentSeason | src/lib/liturgical.ts:34-56 | `currentSeason` for a local date; its season windows are stated by `Liturgical.ChristmasSeason` through `Liturgical.OrdinaryByElimination` |
| Liturgical.ChristmasSeason | src/lib/liturgical.ts:47-48 | the season is Christmas exactly from December 25 to December 31 |
| Liturgical.AdventSeason | src/lib/liturgical.ts:49 | the season is Advent exactly from the computed Advent start to December 24 |
| Liturgical.LentSeason | src/lib/liturgical.ts:50-51 | the season is Lent exactly from Easter-46 to the day before Easter |
| Liturgical.EasterSeason | src/lib/liturgical.ts:52-54 | the season is Easter exactly from Easter to Easter+48 |
| Liturgical.PentecostSeason | src/lib/liturgical.ts:54 | the season is Pentecost exactly on Easter+49 |
| Liturgical.OrdinaryByElimination | src/lib/liturgical.ts:55 | a date in none of the windows above is ordinary |
| Liturgical.OrdinaryBeforeAdvent | src/lib/liturgical.ts:49 | November 27 before the computed Advent start is ordinary |
| Liturgical.FourWeeksBeforeChristmas | src/lib/liturgical.ts:41 | November 27 is 28 days before Christmas and shares its weekday |
| Liturgical.AdventStartOnFourthDecember | src/lib/liturgical.ts:41 | when Christmas is a Sunday, the computed Advent start is December 4 |
| Liturgical.AdventStartsLateWhenChristmasIsSunday | src/lib/liturgical.ts:41 | when Christmas is a Sunday, the computed Advent start is December 4, and the true first Sunday of Advent (November 27) is classified ordinary |
| Liturgical.ChristmasIsSundayIn2022 | src/lib/liturgical.ts:41 | December 25, 2022 is a Sunday, so the case above occurs |
| Liturgical.NewYearIsOrdinary | src/lib/liturgical.ts:43 | January 1 of any year is classified ordinary |
| Liturgical.IntendedAdventStartIsFourthSunday | src/lib/liturgical.ts:41 | the corrected Advent start is a Sunday 22 to 28 days before Christmas |
| Liturgical.BaptismThisYear | src/lib/liturgical.ts:43 | the Sunday after January 6 of the year falls on January 7..13, before Ash Wednesday |
| Liturgical.ClassifyBeforeAdvent | src/lib/liturgical.ts:49 | before both Advent starts, moving the Advent start does not change the season |
| Liturgical.ClassifyMiddle | src/lib/liturgical.ts:50-54 | Lent, Easter and Pentecost are returned only between Ash Wednesday and Pentecost |
| Liturgical.IntendedChristmasSeason | src/lib/liturgical.ts:43-48 | corrected: Christmas from December 25 and in early January before the Baptism |
| Liturgical.IntendedAdventSeason | src/lib/liturgical.ts:49 | corrected: Advent exactly from the fourth Sunday before Christmas to December 24 |
| Liturgical.IntendedSeasonElsewhere | src/lib/liturgical.ts:50-54 | the correction leaves Lent, Easter and Pentecost unchanged |
| Liturgical.PaletteNamed | src/lib/liturgical.ts:58-66 | every season's palette carries the season's name, so distinct seasons get distinct palettes; all share one border colour |
| Liturgical.PaletteFor | src/lib/liturgical.ts:58-67 | the palette table, with the colours of the source; `Liturgical.PaletteNamed` states that each palette carries its season's name |
| DayMysteries.Title | src/lib/day-mysteries.ts:4-9 | the title table: each set's capitalised name |
| DayMysteries.DaysLabel | src/lib/day-mysteries.ts:11-16 | the days-label table; `DayMysteries.LabelsNameTheirDays` states that each label names the weekdays of its set |
| DayMysteries.ByWeekday | src/lib/day-mysteries.ts:18-26 | the weekday table; `DayMysteries.WeekdaysOfEachSet` states which days each set gets |
| DayMysteries.GetTodayMystery | src/lib/day-mysteries.ts:28-34 | the title is the title of the returned set |
| DayMysteries.WeekdaysOfEachSet | src/lib/day-mysteries.ts:18-26 | Sunday and Wednesday are glorious, Monday and Saturday joyful, Tuesday and Friday sorrowful, Thursday luminous |
| DayMysteries.DaysPerSet | src/lib/day-mysteries.ts:18-26 | the luminous set is prayed on one day, each other set on exactly two |
| DayMysteries.LabelsNameTheirDays | src/lib/day-mysteries.ts:11-26 | for every weekday, the days label of its set contains the Spanish name of that weekday |
| DayMysteries.LabelNamesTheDay | src/lib/day-mysteries.ts:36-39 | `dayLabelForToday` is the label of the day's set, and that label names the day |
| DayMysteries.DayLabelForToday | src/lib/day-mysteries.ts:36-39 | the label of the day's set; `DayMysteries.LabelNamesTheDay` states that it names the day |
| DayMysteries.TimeZoneIgnored | src/lib/day-mysteries.ts:28-34 | the result depends on the weekday only |
| Sorting.Insert | src/lib/news-store.ts:16 | insertion adds exactly the one element |
| Sorting.SortBy | src/lib/news-store.ts:16 | the sort is a permutation |
| Sorting.InsertSorted | src/lib/news-store.ts:16 | inserting into a sorted list keeps it sorted |
| Sorting.SortBySorted | src/lib/news-store.ts:16 | the sort's result is ordered by the comparator |
| Auth.GetBearer | src/lib/auth.ts:4-8 | the token never contains a space |
| Auth.BearerIsSecondField | src/lib/auth.ts:6-7 | the token is the second space-separated field of the header |
| Auth.SchemeNotChecked | src/lib/auth.ts:6 | the scheme word is not checked: `Basic x` yields `x` |
| Auth.NoSecondField | src/lib/auth.ts:5-7 | a missing header or one without a space yields the empty token |
| Auth.AdminRules | src/lib/auth.ts:12-13 | an empty or unset admin token refuses every request, and so does one containing a space |
| Auth.BearerRequestIsAdmin | src/lib/auth.ts:10-14 | a bearer request is admin exactly when its token equals the configured one |
| Auth.IsAdmin | src/lib/auth.ts:10-14 | `isAdmin`: a configured, non-empty token equal to the bearer token; stated by `Auth.AdminRules` and `Auth.BearerRequestIsAdmin` |
| NewsStore.NewerIsTotalPreorder | src/lib/news-store.ts:16 | newer-first by `createdAt` is a total preorder |
| NewsStore.NewestFirst | src/lib/news-store.ts:14-17 | the listing is a permutation of the stored items sorted by `createdAt` descending |
| NewsStore.RemoveId | src/lib/news-store.ts:27 | the filter leaves no item with the id and never grows the list |
| NewsStore.RemoveIdAppend | src/lib/news-store.ts:27 | filtering keeps the surviving items in their original order |
| NewsStore.RemoveIdCounts | src/lib/news-store.ts:27 | every item without the id is kept as often as it occurs; every item with it is dropped |
| NewsStore.RemoveAbsentId | src/lib/news-store.ts:27 | deleting an id that no item has changes nothing |
| NewsStore.KvNewsStore.constructor | src/lib/news-store.ts:12 | the store starts with the given value under the key |
| NewsStore.KvNewsStore.ListNews | src/lib/news-store.ts:14-17 | the stored items (none when the key is absent), newest first, as a permutation |
| NewsStore.KvNewsStore.AddNews | src/lib/news-store.ts:19-23 | the stored list becomes the old list (empty when absent) with the item appended |
| NewsStore.KvNewsStore.DeleteNews | src/lib/news-store.ts:25-29 | the stored list becomes the old list (empty when absent) without the items that have the id |
| NewsRoute.ManifestRoundTrip | src/app/api/news/route.ts:22-33 | a stored array reads back as itself; a missing, unreadable or non-array manifest reads as the empty list |
| NewsRoute.ReadManifest | src/app/api/news/route.ts:22-33 | `readManifest`: the stored list, or the empty list on any failure (`NewsRoute.ManifestRoundTrip`) |
| NewsRoute.TokenSources | src/app/api/news/route.ts:57-59 | a non-empty `x-admin-token` wins; otherwise the token is everything after `Bearer `; otherwise it is empty |
| NewsRoute.RequestToken | src/app/api/news/route.ts:57-59 | the request token; its three sources and their precedence are `NewsRoute.TokenSources` |
| NewsRoute.NoTokenNoAccess | src/app/api/news/route.ts:60 | an unset admin token or an empty request token is refused |
| NewsRoute.Extension | src/app/api/news/route.ts:81 | the extension never contains a dot when the default has none |
| NewsRoute.ExtensionAfterLastDot | src/app/api/news/route.ts:81 | the extension is the lower-cased text after the last dot |
| NewsRoute.ExtensionWithoutDot | src/app/api/news/route.ts:81 | a name without a dot is its own extension, lower-cased |
| NewsRoute.ExtensionDefault | src/app/api/news/route.ts:81 | a name ending in a dot, or an empty name, gets the default |
| NewsRoute.NewItemFields | src/app/api/news/route.ts:65-109 | the new item has the trimmed non-blank title and body and an author defaulting to `Admin`; it has an image exactly when one was uploaded; ids from different milliseconds differ |
| NewsRoute.NewItem | src/app/api/news/route.ts:65-109 | the item POST builds; its fields are stated by `NewsRoute.NewItemFields` |
| NewsRoute.FindIndex | src/app/api/news/route.ts:133 | `findIndex` is the first index with the id, or -1 when there is none |
| NewsRoute.CountIdAppend | src/app/api/news/route.ts:133 | the items with an id in two lists add up |
| NewsRoute.RemoveFirstMatch | src/app/api/news/route.ts:141 | the splice removes exactly one item, the first with the id, and keeps the rest |
| NewsRoute.NewerIsoIsTotalPreorder | src/app/api/news/route.ts:50 | ordering by `createdAt` string descending is a total preorder |
| NewsRoute.NewsHandlers.constructor | src/app/api/news/route.ts:19-20 | the admin token is the environment's, or empty when unset |
| NewsRoute.NewsHandlers.Get | src/app/api/news/route.ts:48-52 | the manifest's items as a permutation, ordered by `createdAt` descending |
| NewsRoute.NewsHandlers.Post | src/app/api/news/route.ts:55-116 | 401 with the manifest untouched unless authorised; 400 with it untouched unless the title and body are non-blank; otherwise 201 with the new item appended at the end |
| NewsRoute.NewsHandlers.Delete | src/app/api/news/route.ts:119-145 | 401 before the id is looked at; 400 for an empty id; 404 when no item has it; otherwise the first such item is spliced out; every error leaves the manifest untouched |
| LecturasRoute.NextGt | src/app/api/lecturas/route.ts:13 | `[^>]*>` ends the tag at the first `>` |
| LecturasRoute.NextClose | src/app/api/lecturas/route.ts:13 | the lazy group ends at the first `</body>`, in any letter case |
| LecturasRoute.MatchFrom | src/app/api/lecturas/route.ts:13 | a found capture lies within the page |
| LecturasRoute.MatchDetermined | src/app/api/lecturas/route.ts:13 | a match at a position is the one the search computes there |
| LecturasRoute.MatchHere | src/app/api/lecturas/route.ts:13 | the search succeeds at a position exactly when the expression matches there |
| LecturasRoute.MatchFromIsLeftmost | src/app/api/lecturas/route.ts:13 | the search returns the capture of the leftmost match at or after the start, or reports that there is none |
| LecturasRoute.LeftmostUnique | src/app/api/lecturas/route.ts:13 | the leftmost match has a single capture |
| LecturasRoute.LeftmostIsFound | src/app/api/lecturas/route.ts:13-14 | conversely, the capture of the leftmost match is what the route returns |
| LecturasRoute.ExtractBodySpec | src/app/api/lecturas/route.ts:13-14 | the result is always a contiguous piece of the page: the leftmost match's capture, or the whole page when nothing matches |
| LecturasRoute.ExtractBody | src/app/api/lecturas/route.ts:13-14 | the route's `body`; `LecturasRoute.ExtractBodySpec` and `LecturasRoute.BodyRoundTrip` state what it returns |
| LecturasRoute.RoundTripMatches | src/app/api/lecturas/route.ts:13 | a page built as text without `<`, an opening body tag, content without `</body>`, and a closing tag has its leftmost match there |
| LecturasRoute.BodyRoundTrip | src/app/api/lecturas/route.ts:13-14 | for such a page the route returns exactly the content |
| LecturasNewsRoute.Applied | src/app/api/lecturas/news/route.ts:15-31 | no write leaves the store as it is; an append stores one more item, the new one last; a removal stores a list without the id |
| LecturasNewsRoute.PostDecision | src/app/api/lecturas/news/route.ts:11-22 | 401 for a non-admin; 400 exactly when the title or body is missing or empty; the store is written exactly on success, with one item carrying the request's id, title, body, image and time |
| LecturasNewsRoute.DeleteDecision | src/app/api/lecturas/news/route.ts:24-33 | 401 for a non-admin; 400 exactly when the id is missing or empty; the store is written exactly on success, removing that id |
| LecturasNewsRoute.RefusedBeforeReading | src/app/api/lecturas/news/route.ts:12-14 | a refused request gets 401 and no write, whatever its fields or id |
| LecturasNewsRoute.DeleteRemovesExactly | src/app/api/lecturas/news/route.ts:31 | after an admin delete no item has the id, every other item is kept as often as it occurred, and deleting again changes nothing |
| LecturasNewsRoute.Get | src/app/api/lecturas/news/route.ts:6-9 | 200 with the stored items, newest first, as a permutation |
| LecturasNewsRoute.Post | src/app/api/lecturas/news/route.ts:11-22 | the reply and the write are those decided: 401, then 400, then one `addNews` |
| LecturasNewsRoute.Delete | src/app/api/lecturas/news/route.ts:24-33 | the reply and the write are those decided: 401, then 400, then one `deleteNews` |

## Left out

- Browser APIs in `audio.ts`: `AudioSvc.init`, `setOnLine` and `stop`, the speech synthesis voice choice, the MP3 element with its 12 s timer, and the `onLine` notifications. `sayOrPlay` is an abstract speaker that records each request. The 120 ms pause is a recorded event rather than a timer.
- Speech recognition in `recognition.ts`: the browser recogniser is replaced by event methods, and `prepare` does nothing. The recogniser's `lang`, `continuous` and `interimResults` settings are not modelled. Each event happens at one instant `now`, although the code reads `Date.now()` several times inside one handler.
- `stop()`: the repository's description presents it as ending a pending `listen`. The code only clears `listening`, so a pending promise is never resolved by `stop` or by any later `finish`. The model follows the code (`Recognition.RecognitionSvc.Stop`, `Recognition.Session.Finish`). The corrected `Recognition.Session.FinishOwn` does resolve such a turn once its recogniser ends.
- Time zone in `liturgical.ts` and `day-mysteries.ts`: the conversion through `toLocaleString` and `Date.getDay()` are foreign calls. The local date and the weekday are inputs.
- Liturgical.ChristmasSeason: the season lemmas are stated from year 100 on. Below that, `Date.UTC` moves years 0..99 into the 1900s. The computus itself is proved from year 0 on. Negative years are outside the model, as JavaScript's `%` makes the computus meaningless there.
- Dates are civil dates and day numbers rather than millisecond timestamps. Every date `currentSeason` compares is midnight UTC, so the comparisons agree.
- NewsRoute.NewsHandlers.Get: its comparator never returns 0, so it is not a consistent comparator when two items share a `createdAt`, and for such a list the whole order `sort` gives is implementation-defined. The contract states what engines give in practice: a permutation sorted by `createdAt` descending. The model uses a stable insertion sort.
- NewsStore.NewestFirst: the order of items with equal `createdAt` is that of a stable sort, which is what current engines provide for this consistent comparator.
- `createdAt` in the key-value store is an integer. Floating-point timestamps are not modelled.
- NewsRoute.Extension: lower-cases ASCII letters only, whereas `toLowerCase` also folds non-ASCII letters. In the body extraction, ASCII folding is exact, because the regular expression has the `i` flag without the `u` flag.
- NewsRoute.NewsHandlers.Post: `req.formData()` on a body that is not a form throws after the token check, and the route answers 500 (src/app/api/news/route.ts:64). The model takes the form as given.
- NewsRoute.NewsHandlers.Post: a `title`, `body` or `author` field sent as a file becomes the text `[object File]` through `String(...)` (src/app/api/news/route.ts:65-67). The model's form fields are texts.
- Strings are sequences of Unicode scalar values, whereas JavaScript's `length`, `slice` and `<` work on UTF-16 code units. The two agree for text without characters beyond U+FFFF; the members below are where they differ for such characters.
- Audio.ChunkText: the 180-character limit (src/lib/audio.ts:23-26) counts a character beyond U+FFFF once instead of twice; so do `Audio.WrapRest` and `Audio.LastIndexOf`.
- Recognition.Session.SilenceCheck: `minChars` (src/lib/recognition.ts:89) counts a character beyond U+FFFF once instead of twice.
- Text.StrLess: code-point order differs from JavaScript's code-unit order when a character beyond U+FFFF meets one in U+E000..U+FFFF. This affects `NewsRoute.NewsHandlers.Get` only for such `createdAt` texts; the ISO timestamps it holds are ASCII.
- NewsRoute.RequestToken: `slice(7)` is exact, because the `Bearer ` prefix it drops is ASCII.
- Request bodies: malformed JSON, which makes `req.json()` throw and gives a 500 response, is not modelled. Neither are JSON fields that are not strings. A field is a string or absent.
- Failures of the storage services (`kv.set`, `put`) and of `fetch` are not modelled. These include the 500 branch of the readings route and the `revalidate` cache hint. `readManifest`'s failure paths are modelled as manifest states that read as the empty list.
- Uploads: the file contents and `contentType` are not modelled. The URL `put` returns is a function of the key, given as a parameter.
- Timestamps and ids (`Date.now()`, `toISOString`, `crypto.randomUUID`) are parameters.
- `src/app/api/news/upload/route.ts`, `pwa.ts`, the service worker, `storage.ts`, the theme provider and the React components are not part of this model. They hold glue, caching configuration and rendering only.

## Findings

| source | as written | input that shows it | evidently intended | confidence | as-written member | corrected member |
|---|---|---|---|---|---|---|
| src/lib/liturgical.ts:41 | Advent starts on the Sunday on or before December 4 (21 days before Christmas) | 2022: Christmas is a Sunday, so Advent starts on December 4 and November 27, the first Sunday of Advent, is ordinary | Advent starts on the fourth Sunday before Christmas, 22 to 28 days before it | high, not executed | Liturgical.AdventStartsLateWhenChristmasIsSunday | Liturgical.IntendedAdventStartIsFourthSunday |
| src/lib/liturgical.ts:43 | the Christmas window runs from December 25 of the current year to the Baptism of the next year, so the days before this year's Baptism are never Christmas | January 1 of any year is classified ordinary | the Christmas season runs on into January until the Sunday after January 6 | high, not executed | Liturgical.NewYearIsOrdinary | Liturgical.IntendedChristmasSeason |
| src/lib/recognition.ts:80 | `finish` tests the service-wide `listening` flag, which every `listen` sets (line 67), so a call that has already finished finishes again when its `maxTotalMs` timer (line 123) fires during a later call | a turn ends by `onend`; `listen` is called again; the first call's timer fires: the first recogniser is stopped twice, `listening` is cleared, and the second call's own `finish` returns early, so its promise never resolves | each call finishes once, on a flag of its own, and leaves a later call's `listening` alone | high, not executed | Recognition.StaleTimerScenario | Recognition.Session.FinishOwn |
