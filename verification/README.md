# Proofs about the date parser of PTLib and the certificate-authority tools of GmSSL

This project models three pieces of the repository in Dafny and proves what they promise.

* **The date-expression parser** (`ptlib-2.10.11_arm/getdate.tab.c`): a generated LALR(1) parser that runs over
  packed tables and changes a record of date fields while it parses, and the calendar arithmetic that turns the
  record into a count of seconds. The tables are those of the file, entry by entry. The main results: an accepted
  input is a sentence of the 51-rule grammar; on every input, accepted or not, the record is what a plain left fold
  over complete items leaves; the parse terminates, stays inside its tables and never holds more than eight states.
  Conversely, every expression made of phrases that do not disturb each other is accepted, is read as one item for each
  phrase, and leaves the hours, dates, zones and spans that the phrases say; from there to the second that is returned,
  relative parts, weekdays, zones and whole date-times have their calendar meaning. An RFC 3339 date-time yields its
  second of UTC; month arithmetic is right under an exact condition.
* **The database and the request handling of the `ca` program** (`GmSSL-2.3.1/apps/ca.c`, `apps.c` and
  `crypto/txt_db/txt_db.c`): the policy loop, the life of a row, marking of expired rows, the revocation field,
  merging of extensions, subject names, the protocol list and the rotation of files.
* **The pairing of signers and keys in the `cms` program** (`GmSSL-2.3.1/apps/cms.c`): options in any order, two
  lists of files and a list of parameter blocks.

Code that works step by step is modelled by methods and classes with the same fields, loops and branches, proved
against specification functions; the lemmas then state what those functions mean.

| file | contents |
|---|---|
| `DateTables`, `DateGrammar`, `DateAutomaton` | the tables, the grammar with its parse trees, and what the tables say about states and stacks |
| `DateActions`, `DateMachine`, `DateTheorems`, `DateParser` | the actions, the parser as a run over configurations with trees, the theorems, and the loop over arrays |
| `DateReader`, `DatePhrases`, `DateMeaning` | completeness of the tables, date expressions as written with what they mean, and the theorem that the parser understands them |
| `Calendar`, `DateArithmetic`, `RelativeMonths`, `TimeParse` | the Gregorian reference, `Convert` and its neighbours, months, the entry point |
| `TimeResults`, `Rfc3339` | from words to seconds, and date-times from end to end |
| `Policy`, `CaState`, `CaDatabase`, `Revocation` | the policy loop, the database as values, the database at work, the revocation field |
| `Expiry`, `DateTexts` | comparing dates as text, and every form of date that the database may hold |
| `Extensions`, `SubjectName`, `SubjectGroups`, `NextProtos`, `IndexRotation` | helpers of `apps.c` |
| `CmsSigners` | the option loop of `cms` |
| `CStrings`, `Options` | C strings in buffers, and values that may be missing |

## What turned out not to hold

* Dates that the comments of the grammar give as examples are not understood. In `17-JUN-1992` the signed four digits
  are a number of their own kind that no rule takes: the parse fails and the date is read without its year
  (`DateMeaning.DashedYearIsLost`). `2025-01-31` needs a time after it (`DateMeaning.IsoDateNeedsTime`).
* A month that is named does not settle the order of a date: `3 May 1999` is 5 March where months come first. It is
  read as written exactly when the day is over 12, days come first, or the two parts that are swapped are equal
  (`DatePhrases.NamedMonthIsRead`). With years first, numeric dates are read back except for years 13 to 31
  (`DatePhrases.WrittenDateIsRead`).
* The word ago turns around everything relative before it. Each part counts backwards exactly when an odd number of
  agos follows from it on (`DatePhrases.RelativeParts`).
* `RelativeMonth` adds what `Convert` returns even when `Convert` refuses the date. Moving by months is right exactly
  when the target date exists in 1970 to 2038, or is the last second before 1970
  (`RelativeMonths.RelativeMonthIsExact`); 31 January plus one month becomes a moment on 1 January 1970
  (`RelativeMonths.EndOfJanuaryGoesWrong`). A move back undoes a right move exactly when the start lies in 1970 to 2038
  or is the second before (`RelativeMonths.RelativeMonthIsUndone`). On a machine on UTC that reads a text with any zone,
  the exact condition is that the zone, with the shift that expansion of a two-digit year brings, moves the clock by
  whole hours without wrapping it (`RelativeMonths.RelativeMonthInZone`); on a machine in any fixed zone the same holds
  for the difference of the two zones (`RelativeMonths.RelativeMonthOnMachine`), so its own zone is always right for
  targets in range (`RelativeMonths.RelativeMonthInOwnZone`).
* Marking of expired rows reads the first twelve digits of any date as a two-digit-year date. Dates with four-digit
  years, which are prescribed from 2050 on and accepted for any year, are decided rightly exactly when the misread date
  and the true one lie on the same side of the clock (`Expiry.GeneralizedTimeIsMisread`). For dates of this century:
  up to 2019 exactly those still ahead, from 2021 on exactly those that have passed, and in 2020 by comparison of the
  date's year with the clock's month (`Expiry.DatesOfThisCentury`). In January 2025 certificates valid until 2030 and
  until 2050 are marked; in January 2019 one valid until 2018 is left alone.
* The database may also hold dates with a zone other than UTC, without seconds, or with fractions. With two-digit years
  they are marked at the right time exactly when the clock is not between the moment meant and the one that the digits
  show or, without seconds before a Z, not in the date's own minute (`DateTexts.ShortDateIsMarkedOnTime`). With
  four-digit years the conditions are those above (`DateTexts.DateIsMarkedOnTime`, `DateTexts.LongDateIsMarkedOnTime`);
  even a text of thirteen characters may be such a date. There is a concrete input for each.
* `parse_name` skips attributes of unknown types, and an attribute after a plus sign joins whatever entry was added
  last. The relative names are those written, without their unknown attributes, exactly when every known attribute
  after a plus sign has a known one before it in its relative name, or none before it at all
  (`SubjectGroups.GroupsAreKept`). In `/CN=a/foo=b+OU=c` with `foo` unknown the unit joins the common name
  (`SubjectGroups.UnitJoinsCommonName`).
* The rotation of index files tolerates two error codes for a live file. It is all or nothing exactly when they are
  not misplaced and no file of an earlier rotation gets in the way of undoing
  (`IndexRotation.RotationIsAllOrNothing`, with two concrete inputs).
* A `-keyopt` given while the operation is still to encrypt is numbered by recipients. A successful run has given
  every signer its own parameters exactly when each such number fits (`CmsSigners.AlignedIfAllFit`,
  `CmsSigners.KeyoptForEncryptGoesAstray`). Options that describe signers are refused exactly when such a `-keyopt`
  comes before any recipient is counted (`CmsSigners.RefusedIfRecipientLacks`), as in
  `-encrypt -signer a -keyopt x -sign` (`CmsSigners.KeyoptForEncryptIsRefused`).

## Model

| member | source | states |
|---|---|---|
| `DateGrammar.LexTokenProperties` | ptlib-2.10.11_arm/getdate.tab.c:2445-2515 | whatever the lexer returns, including the letter T that reads as a separator or a zone depending on the time seen so far, is a proper terminal that is never the end marker |
| `DateGrammar.SpecIsItems` | ptlib-2.10.11_arm/getdate.tab.c:718-738 | a parse tree of the start symbol is a sequence of complete items whose yields join to its yield |
| `DateAutomaton.ShiftProperties` | ptlib-2.10.11_arm/getdate.tab.c:1343-1403 | in every state and for every token the shift entry leads to an existing state whose accessing symbol is that token |
| `DateAutomaton.ReduceProperties` | ptlib-2.10.11_arm/getdate.tab.c:1343-1425 | every reduction the tables order is by a rule of the grammar that the state can complete |
| `DateAutomaton.ErrorProperties` | ptlib-2.10.11_arm/getdate.tab.c:1343-1413 | an error is reported only between items, and there not at the end of the input, or inside an unfinished item |
| `DateAutomaton.ErrorTokenNeverShifted` | ptlib-2.10.11_arm/getdate.tab.c:2037-2070 | no table entry shifts the error token, so the first syntax error is final |
| `DateAutomaton.HandleOnTop` | ptlib-2.10.11_arm/getdate.tab.c:1419-1433 | on every linked stack the right-hand side of the rule to reduce by is on top, above the bottom state |
| `DateAutomaton.GotoProperties` | ptlib-2.10.11_arm/getdate.tab.c:1906-1937 | after a reduction the goto index is in range, the state entered fits on the state uncovered, and a rank goes down, so reductions between shifts run out |
| `DateAutomaton.StackIsShallow` | ptlib-2.10.11_arm/getdate.tab.c:1264-1338 | no reachable stack holds more than eight states |
| `DateActions.SpecEffectIsFold` | ptlib-2.10.11_arm/getdate.tab.c:1435-1905 | the effect of a whole tree is the left fold of the effects of its items |
| `DateActions.SilentHasNoEffect` | ptlib-2.10.11_arm/getdate.tab.c:1435-1905 | symbols that can stand above the last complete item leave the record alone |
| `DateActions.ItemKeepsBoundary` | ptlib-2.10.11_arm/getdate.tab.c:1437-1884 | each kind of item keeps the boundary invariant: defaults until a date, time or zone is seen, a zone counter that is never negative, a day read only after it is set |
| `DateActions.ItemsKeepBoundary` | ptlib-2.10.11_arm/getdate.tab.c:1437-1884 | so does every list of items, from a freshly prepared record |
| `DateMachine.FetchKeeps` | ptlib-2.10.11_arm/getdate.tab.c:1343-1375 | reading a lookahead keeps the configuration consistent and its token inside the tables |
| `DateMachine.PushKeeps` | ptlib-2.10.11_arm/getdate.tab.c:1386-1403 | a shift keeps the stack invariant: linked states, one tree for each, yields that join to the input consumed, effects that explain the record |
| `DateMachine.PopKeeps` | ptlib-2.10.11_arm/getdate.tab.c:1419-1937 | a reduction with its action keeps the stack invariant |
| `DateMachine.PopMeaning` | ptlib-2.10.11_arm/getdate.tab.c:1435-1937 | performing the action at the reduction is the same as the effect of the new tree |
| `DateTheorems.RunEnds` | ptlib-2.10.11_arm/getdate.tab.c:1264-1433 | for every finite token sequence the run ends, consistent, in the final state or in a state that reports an error |
| `DateTheorems.RejectedShape` | ptlib-2.10.11_arm/getdate.tab.c:1943-2080 | at an error the bottom tree holds all items so far and everything above it has had no effect |
| `DateTheorems.AcceptedShape` | ptlib-2.10.11_arm/getdate.tab.c:2081-2085 | at acceptance the stack is the start symbol over the whole input and its end |
| `DateTheorems.ParseIsFoldOverItems` | ptlib-2.10.11_arm/getdate.tab.c:1435-1905 | on every input the final record is the left fold over complete items whose tokens are a prefix of those the parser shifted, and of the input; the prefix is the whole input exactly when the parse is accepted |
| `DateTheorems.ReadingsAreThoseAtFetch` | ptlib-2.10.11_arm/getdate.tab.c:1355-1403 | from every configuration on, each token shifted is what the lexer returned for it with the number of times seen when it was fetched |
| `DateTheorems.AcceptedIsDerivable` | ptlib-2.10.11_arm/getdate.tab.c:1343-1937 | soundness of the tables: the very tokens shifted from an accepted input of any length, each letter T read by the times seen at its fetch, derive from the start symbol |
| `DateTheorems.BoundaryBetweenItems` | ptlib-2.10.11_arm/getdate.tab.c:1437-1884 | whenever the parser is back between items the record satisfies the boundary invariant |
| `DateTheorems.BoundaryAfterParse` | ptlib-2.10.11_arm/getdate.tab.c:1437-1884 | so does the record that any parse leaves behind |
| `DateReader.ReadItem` | ptlib-2.10.11_arm/getdate.tab.c:1343-1937 | between items, the lexemes that fill any rule for a time, zone, day, date, relative part (with or without ago) or lone number, in front of a token that may follow it, are read as that item |
| `DateReader.ItemsAreAccepted` | ptlib-2.10.11_arm/getdate.tab.c:1343-2085 | completeness of the tables up to the conflicts they resolve: every list of items in which none cuts short or draws out another is accepted, read as those items, and has their effect |
| `DateMeaning.PhraseHasEffect` | ptlib-2.10.11_arm/getdate.tab.c:1435-1905 | the actions of the item of every phrase record what the phrase means: hours, minutes and half of the day, days, months and years by the order or by a part over 12 or 31, zones, weekdays, number times unit, ago as negation, digit groups by their size |
| `DateMeaning.ExpressionIsUnderstood` | ptlib-2.10.11_arm/getdate.tab.c:1184-2130 | every expression whose phrases do not disturb each other is accepted, is read as one item of the right kind for each phrase, and leaves the record that its phrases mean |
| `DateMeaning.DashedYearIsLost` | ptlib-2.10.11_arm/getdate.tab.c:1663-1671 | a day, a month name and a signed four-digit year are a syntax error after which the record holds day and month alone |
| `DateMeaning.IsoDateNeedsTime` | ptlib-2.10.11_arm/getdate.tab.c:1644-1652 | year, month and day with dashes and nothing after them are a syntax error that records nothing |
| `DatePhrases.RelativeParts` | ptlib-2.10.11_arm/getdate.tab.c:1714-1793 | over a whole expression the relative seconds and months are the sums of number times unit, each taken away if an odd number of agos is said from it on |
| `DatePhrases.WrittenDateIsRead` | ptlib-2.10.11_arm/getdate.tab.c:2639-2671 | a date written in the preferred order is read back if and only if that order does not put the year first, or the year is not 13 to 31, or it equals the day |
| `DatePhrases.NamedMonthIsRead` | ptlib-2.10.11_arm/getdate.tab.c:1706-1712 | a day, a month name and a year are read back if and only if the day is over 12, days come first, or the two parts swapped are equal |
| `DatePhrases.LoneDigitsAreRead` | ptlib-2.10.11_arm/getdate.tab.c:1819-1884 | digits by themselves, written from a year, month and day or from hours, minutes and seconds, are read back as that date or time |
| `DatePhrases.LoneYearIsRead` | ptlib-2.10.11_arm/getdate.tab.c:1819-1854 | after a date and a time, with nothing relative, a number by itself is the year |
| `DateParser.Variables.constructor` | ptlib-2.10.11_arm/getdate.tab.c:2680-2698 | the record as prepared from today's date and the zone |
| `DateParser.Variables.SetPossibleDate` | ptlib-2.10.11_arm/getdate.tab.c:2639-2671 | three numbers become day, month and year in the order they admit, or the given order |
| `DateParser.Variables.Perform` | ptlib-2.10.11_arm/getdate.tab.c:1435-1905 | the switch over the rules changes the fields as the action function says, for every rule |
| `DateParser.YyBackup` | ptlib-2.10.11_arm/getdate.tab.c:1343-1415 | the lookahead code and the table lookups decide the same move as the automaton, with every index in range |
| `DateParser.YyRecover` | ptlib-2.10.11_arm/getdate.tab.c:2037-2075 | recovery pops the whole stack and gives up with result 1 |
| `DateParser.YyAction` | ptlib-2.10.11_arm/getdate.tab.c:1421-1905 | the action runs on the values that the trees on top of the stack carry |
| `DateParser.YyReduce` | ptlib-2.10.11_arm/getdate.tab.c:1419-1937 | the arrays mirror the abstract stack before and after a reduction |
| `DateParser.TableEntryIsNotZero` | ptlib-2.10.11_arm/getdate.tab.c:1377-1384 | an entry that belongs to a token is never zero |
| `DateParser.YyParse` | ptlib-2.10.11_arm/getdate.tab.c:1184-2130 | the loop over stacks of 200 entries never reaches the paths that grow the stack or run out of memory; it returns 0 exactly on acceptance and leaves the record of the abstract parse |
| `Calendar.DayCountIsMonotone` | ptlib-2.10.11_arm/getdate.tab.c:2561-2580 | the Gregorian day count of the reference calendar orders dates |
| `Calendar.EpochIsThursday` | ptlib-2.10.11_arm/getdate.tab.c:2607-2613 | second 0 is midnight of Thursday, 1 January 1970 |
| `Calendar.LocaltimeOfSeconds` | ptlib-2.10.11_arm/getdate.tab.c:2607-2632 | the decomposition used for localtime is the inverse of counting seconds |
| `Calendar.WholeDaysLater` | ptlib-2.10.11_arm/getdate.tab.c:2607-2616 | whole days move the day of the week and keep the time of day |
| `DateArithmetic.ToSecondsMeaning` | ptlib-2.10.11_arm/getdate.tab.c:2525-2550 | a time is accepted exactly if it is on its 12 or 24 hour clock, and the result is then its second of the day |
| `DateArithmetic.CountDays` | ptlib-2.10.11_arm/getdate.tab.c:2578-2581 | the month and year loops compute the Gregorian day count |
| `DateArithmetic.EveryFourthYear` | ptlib-2.10.11_arm/getdate.tab.c:2580-2581 | in the accepted years the short leap-year rule of the loop agrees with the Gregorian one |
| `DateArithmetic.Convert` | ptlib-2.10.11_arm/getdate.tab.c:2553-2593 | the result is the Gregorian seconds plus zone minus daylight hour for accepted input, and -1 for all other |
| `DateArithmetic.FullYearMeaning` | ptlib-2.10.11_arm/getdate.tab.c:2564-2569 | years of one or two digits, with either sign, mean the year of 1970 to 2069 that ends in them; all others mean themselves |
| `DateArithmetic.TwoDigitYears` | ptlib-2.10.11_arm/getdate.tab.c:2564-2576 | a date with a two-digit year is accepted if and only if the year is up to 38, for this century, or from 70 on, for the last one, and date and time are on calendar and clock |
| `DateArithmetic.SecondOfJanuary2035` | ptlib-2.10.11_arm/getdate.tab.c:2553-2593 | 2 January 35 is second 2051308800 |
| `DateArithmetic.ConvertIsMonotone` | ptlib-2.10.11_arm/getdate.tab.c:2553-2593 | with zone and daylight mode fixed the result is strictly increasing in the moment, after expansion of two-digit years |
| `DateArithmetic.RelativeDateFindsWeekday` | ptlib-2.10.11_arm/getdate.tab.c:2607-2617 | the result is at the requested weekday and the same time of day, in the week that the ordinal names, starting with the first such day at or after the start |
| `DateArithmetic.MovedIsTarget` | ptlib-2.10.11_arm/getdate.tab.c:2620-2636 | same day of month, same time and a month count moved by k describe at most one moment |
| `DateArithmetic.RelativeMonthInRange` | ptlib-2.10.11_arm/getdate.tab.c:2620-2636 | for a target in range the code corrects the target's second for a change of hour |
| `RelativeMonths.RelativeMonthIsExact` | ptlib-2.10.11_arm/getdate.tab.c:2596-2636 | in zone 0 the months are moved correctly if and only if nothing is to move, the target exists in 1970 to 2038, or the target is the second before 1970 |
| `RelativeMonths.RelativeMonthIsUndone` | ptlib-2.10.11_arm/getdate.tab.c:2596-2636 | after a right move by k, a move by -k returns the start if and only if k is 0, the start lies in 1970 to 2038, or it is the second before 1970 |
| `RelativeMonths.RelativeMonthInZone` | ptlib-2.10.11_arm/getdate.tab.c:2553-2636 | on a machine on UTC, for every zone of the text and every number of months, the result is right if and only if nothing is to move; or the target exists, its year is taken and zone plus expansion of the year move the clock by whole hours without wrapping it; or the target is refused and is the second before 1970 |
| `RelativeMonths.RelativeMonthInEarthlyZone` | ptlib-2.10.11_arm/getdate.tab.c:2553-2636 | for zones of at most a day that means targets in 1970 to 2038 and zones that keep the hour, besides the second before 1970 |
| `RelativeMonths.RelativeMonthOnMachine` | ptlib-2.10.11_arm/getdate.tab.c:2553-2636 | the same if and only if where localtime has any fixed offset, with the difference of the machine's and the text's zone; a refused target is hit if it is the second that the error value leads to |
| `RelativeMonths.RelativeMonthInOwnZone` | ptlib-2.10.11_arm/getdate.tab.c:2553-2636 | where the zone of the text is the machine's own, half hours included, the result is right if and only if nothing is to move, the target exists in 1970 to 2038, or a refused target is that second |
| `RelativeMonths.OutOfRangeResult` | ptlib-2.10.11_arm/getdate.tab.c:2567-2576 | where the target is refused the result is at another month in 1970 to 2038 or one second before a full hour of 1 January 1970 |
| `RelativeMonths.EndOfJanuaryGoesWrong` | ptlib-2.10.11_arm/getdate.tab.c:2620-2636 | 31 January 1999, noon, plus one month gives second 46799 |
| `TimeParse.ParsedWeekdayIsReadable` | ptlib-2.10.11_arm/getdate.tab.c:2729-2730 | no parse leaves a record whose unset day of the week would be read |
| `TimeParse.PTimeParse` | ptlib-2.10.11_arm/getdate.tab.c:2674-2737 | the entry point computes the specified time from the record of the parse, even after a syntax error; -1 is returned exactly for repeated parts, for nothing seen, or for a date that is refused or negative |
| `TimeResults.RelativeFromNow` | ptlib-2.10.11_arm/getdate.tab.c:2711-2723 | an expression of relative parts alone gives the present second plus their seconds, then moved by their months exactly where moving is right |
| `TimeResults.ZoneMeansMidnight` | ptlib-2.10.11_arm/getdate.tab.c:2711-2719 | a zone alone gives the start of the present day |
| `TimeResults.DatedExpression` | ptlib-2.10.11_arm/getdate.tab.c:2699-2737 | an expression with a date gives the second of the calendar in its zone, plus its relative seconds, then moved by its months exactly where moving is right; -1 if date or time are not on calendar and clock or the second is negative |
| `TimeResults.WeekdayExpression` | ptlib-2.10.11_arm/getdate.tab.c:2725-2730 | a weekday without a date is counted from today, after the relative parts: the result is on that weekday, at the same time of day, in the week its ordinal names |
| `TimeResults.SaidTwiceIsRefused` | ptlib-2.10.11_arm/getdate.tab.c:2701-2703 | a time, zone, date or weekday said twice gives -1 |
| `TimeResults.WeekdayAlone` | ptlib-2.10.11_arm/getdate.tab.c:2699-2737 | a weekday alone gives the first such day from the start of today on, in the zone of the machine |
| `TimeResults.DateTimeAndSpan` | ptlib-2.10.11_arm/getdate.tab.c:2699-2737 | a date with its month named, a time of the morning or afternoon and a number of minutes, hours, days or weeks, ago or not, give the Gregorian second plus or minus number times unit |
| `Rfc3339.DateTimeIsAccepted` | ptlib-2.10.11_arm/getdate.tab.c:1343-1937 | the tokens of every valid date-time as in section 5.6 of RFC 3339 (no fraction, offset Z or without a colon) drive the tables to acceptance and leave exactly its fields |
| `Rfc3339.DateTimeIsTimestamp` | ptlib-2.10.11_arm/getdate.tab.c:2674-2737 | the result for it is the second of UTC if that is not negative, and -1 otherwise |
| `Policy.FindEqual` | GmSSL-2.3.1/apps/ca.c:1516-1557 | the search terminates and succeeds exactly if the authority's name has an entry equal to the requested one |
| `Policy.SelectField` | GmSSL-2.3.1/apps/ca.c:1479-1570 | the inner loop terminates; it yields all entries of the object in the order of the request exactly if the line allows them |
| `Policy.ApplyPolicy` | GmSSL-2.3.1/apps/ca.c:1479-1579 | the policy succeeds exactly if every line has a known object and keyword, demanded fields occur, and every matched entry is one of the authority's; the subject is then the selected entries in policy order |
| `Policy.SubjectIsVouchedFor` | GmSSL-2.3.1/apps/ca.c:1479-1570 | the subject holds exactly the requested entries of listed objects, and matched ones belong to the authority |
| `Policy.FieldIsPreserved` | GmSSL-2.3.1/apps/ca.c:1479-1570 | with one line per object each field of the subject is the field of the request |
| `CaState.KeyHasNoZeros` | GmSSL-2.3.1/apps/apps.c:1297-1305 | serial numbers are compared without their leading zeros and with all that follows them |
| `CaState.IssueKeeps` | GmSSL-2.3.1/apps/ca.c:1630-1852 | entering a certificate keeps the database checked, whether or not it succeeds |
| `CaState.IssueRecords` | GmSSL-2.3.1/apps/ca.c:1630-1852 | entering succeeds exactly if neither the serial number nor, with unique subjects, a held name clashes; the new row is last, valid and has the certificate's fields, and otherwise nothing changes |
| `CaState.RevokeKeeps` | GmSSL-2.3.1/apps/ca.c:2022-2113 | so does a revocation |
| `CaState.ExpireKeeps` | GmSSL-2.3.1/apps/ca.c:2183-2239 | so does marking of expired rows |
| `CaState.RunKeeps` | GmSSL-2.3.1/apps/ca.c:2022-2239 | over every run, of one or several invocations, no row is lost, every row can be read, serial numbers stay distinct up to leading zeros, revoked rows never change, the revocation field is filled exactly in them, and with unique subjects no two valid rows share a name because the stale name index never lacks a valid row |
| `CaState.RevokeRecords` | GmSSL-2.3.1/apps/ca.c:2040-2108 | a successful revocation leaves one revoked row of this serial number whose field reads back as the time, reason and argument given and whose other fields are the row's or the certificate's, and all other rows and the name index as they were |
| `CaState.RevokeFails` | GmSSL-2.3.1/apps/ca.c:2040-2108 | a revocation that fails changes nothing, except that a certificate that was not known has been entered where only the argument is at fault |
| `CaState.EnteringRecords` | GmSSL-2.3.1/apps/ca.c:2045-2096 | without a type of revocation, a certificate is entered exactly if no row has its serial number up to leading zeros and, with unique subjects, no indexed row has its name; the new row is last, valid and not revoked with its name, serial number and last day, all else stays, and a failure changes nothing |
| `CaState.RevokeSucceeds` | GmSSL-2.3.1/apps/ca.c:2040-2108 | it succeeds exactly for a valid argument and a serial number that is known under this name and not revoked, or is new with a free name |
| `CaState.ExpireTwice` | GmSSL-2.3.1/apps/ca.c:2183-2239 | a second pass at the same time changes nothing and counts none |
| `CaState.CountIsChanges` | GmSSL-2.3.1/apps/ca.c:2183-2239 | the count returned is the number of rows that changed |
| `CaState.ExpireIsChronological` | GmSSL-2.3.1/apps/ca.c:2183-2239 | a valid row with a 13-character date expires exactly if its date, read with a two-digit year, is not later than the clock |
| `CaState.LoadedIsChecked` | GmSSL-2.3.1/apps/ca.c:640-685 | rows that pass the checks of loading form a checked database |
| `CaState.ReloadAcceptsMore` | GmSSL-2.3.1/apps/apps.c:1541-1560 | a checked database passes the checks again, and loaded anew accepts exactly what it accepted before and names that only rows no longer valid had held |
| `CaState.ReloadKeeps` | GmSSL-2.3.1/apps/ca.c:635-685 | the next invocation keeps the database checked; it is refused exactly if it asks for unique subjects and two valid rows share a name, and never if they were asked for before |
| `CaDatabase.Database.CreateIndex` | GmSSL-2.3.1/crypto/txt_db/txt_db.c:147-180 | an index is made of all qualifying rows, or a clash is reported exactly if two of them share a key |
| `CaDatabase.Database.SerialIsWellFormed` | GmSSL-2.3.1/apps/ca.c:657-675 | the loop accepts an even number of at least two hexadecimal digits after an optional minus sign |
| `CaDatabase.Database.RowsAreSound` | GmSSL-2.3.1/apps/ca.c:640-676 | the loop over all rows accepts exactly sound rows |
| `CaDatabase.Database.CheckAndIndex` | GmSSL-2.3.1/apps/ca.c:640-685 | loading lets exactly the rows of a checked database through and builds its indexes |
| `CaDatabase.Database.Insert` | GmSSL-2.3.1/crypto/txt_db/txt_db.c:229-263 | a row is entered into the list and the indexes exactly if no index clashes, and otherwise nothing changes |
| `CaDatabase.Database.Issue` | GmSSL-2.3.1/apps/ca.c:1630-1850 | serial lookup and insertion together do what the specification of issuing says |
| `CaDatabase.Database.Revoke` | GmSSL-2.3.1/apps/ca.c:2022-2113 | the method does what the specification of revoking says, changing the shared row in place, and calls itself at most once |
| `CaDatabase.Database.ExpireInPlace` | GmSSL-2.3.1/apps/ca.c:2207-2234 | one row is marked exactly if it is valid and the comparisons say that it has expired |
| `CaDatabase.Database.UpdateDb` | GmSSL-2.3.1/apps/ca.c:2183-2239 | all rows are marked that way, and the number marked is returned |
| `Expiry.MarksByFirstTwelve` | GmSSL-2.3.1/apps/ca.c:2199-2231 | for every date of at least twelve digits, whatever zone follows, the string comparisons compare the first twelve digits as a date with the two-digit-year rule |
| `Expiry.MarksByMinute` | GmSSL-2.3.1/apps/ca.c:2199-2231 | a date of ten digits counts from the start of its minute if a sign follows, and from the end if a Z does |
| `Expiry.ExpiryIsChronological` | GmSSL-2.3.1/apps/ca.c:2199-2231 | for 13-character dates with two-digit years marking is chronological under the rule of section 4.1.2.5.1 of RFC 5280 |
| `Expiry.GeneralizedTimeIsMisread` | GmSSL-2.3.1/apps/ca.c:2199-2231 | a date with a four-digit year is marked rightly if and only if its misreading and its meaning lie on the same side of the clock, which the misread year alone settles unless it is the clock's |
| `Expiry.DatesOfThisCentury` | GmSSL-2.3.1/apps/ca.c:2199-2231 | for dates of 2000 to 2099 the condition in closed form: clock up to 2019, in 2020, from 2021 |
| `Expiry.GeneralizedFrom2050` | GmSSL-2.3.1/apps/ca.c:2199-2231 | a date from 2050 on never has passed, and is left alone if and only if its misreading is later than the clock |
| `Expiry.ValidUntil2030IsMarked` | GmSSL-2.3.1/apps/ca.c:2199-2231 | in January 2025 a certificate valid until 2030, written with a four-digit year, is marked |
| `Expiry.ExpiredCertificateIsLeftAlone` | GmSSL-2.3.1/apps/ca.c:2199-2231 | in January 2019 one valid until January 2018 is left alone |
| `Expiry.ValidUntil2050IsMarked` | GmSSL-2.3.1/apps/ca.c:2199-2231 | in January 2025 a certificate valid until 2050 is marked |
| `DateTexts.NotLaterIsOrder` | GmSSL-2.3.1/crypto/x509/x509_vfy.c:1849-1866 | comparing fields from the year down orders real dates as their seconds |
| `DateTexts.PassedIsMeant` | GmSSL-2.3.1/crypto/x509/x509_vfy.c:1755-1867 | the library's own verdict, which moves the clock to the zone of the date and compares fields, is that the second meant has come |
| `DateTexts.MarksByTaken` | GmSSL-2.3.1/crypto/asn1/a_utctm.c:17-101 | for every text that the checks of both forms accept, marking compares what its digits are taken for with the clock |
| `DateTexts.ShortDateIsMarkedOnTime` | GmSSL-2.3.1/apps/ca.c:2199-2231 | every accepted real date with a two-digit year, in any zone, with or without seconds, is marked rightly if and only if the clock is not between the second meant and the one the digits are taken for |
| `DateTexts.DateIsMarkedOnTime` | GmSSL-2.3.1/apps/ca.c:2199-2231 | every accepted real date of either form is marked rightly if and only if the second meant lies on the side of the clock where its digits put it, which their year alone settles unless it is the clock's |
| `DateTexts.LongDateIsMarkedOnTime` | GmSSL-2.3.1/crypto/asn1/a_gentm.c:20-138 | for four-digit years of 2000 to 2099 in every accepted form, with zones and fractions and without seconds, the condition in closed form: clock up to 2019, in 2020, from 2021 |
| `DateTexts.WesternDateIsMarkedEarly` | GmSSL-2.3.1/crypto/asn1/a_utctm.c:75-95 | a date one hour behind UTC is marked half an hour before it passes |
| `DateTexts.DateWithoutSecondsIsLeftAlone` | GmSSL-2.3.1/crypto/asn1/a_utctm.c:34-39 | a date without seconds is left alone half a minute after it has passed |
| `DateTexts.ThirteenCharactersAreNotEnough` | GmSSL-2.3.1/crypto/asn1/a_time.c:104-124 | a text of thirteen characters with a four-digit year, valid until 2030, is marked in 2025 |
| `Revocation.MakeRevocationStr` | GmSSL-2.3.1/apps/ca.c:2266-2350 | the buffer is exactly as long as the text and its terminator, so nothing is cut; no buffer exactly for invalid arguments |
| `Revocation.UnpackRevinfo` | GmSSL-2.3.1/apps/ca.c:2455-2565 | cutting the copy in place at two commas and interpreting the parts yields what the specification reads from the text |
| `Revocation.UnpackOfPrinted` | GmSSL-2.3.1/apps/ca.c:2266-2350 | what is written reads back as the time, the reason code of section 5.3.1 of RFC 5280 and the argument; writing is refused exactly for invalid arguments |
| `Revocation.FieldIsWritten` | GmSSL-2.3.1/apps/ca.c:2258-2350 | the text written is the time, and for each type of revocation the name of the reason and the argument after commas |
| `Revocation.FieldIsRead` | GmSSL-2.3.1/apps/ca.c:2455-2565 | every text, as time, reason and argument between commas, is read by the names of the reasons; an unknown reason, a time that is not accepted, and a missing or invalid argument are refused |
| `Revocation.CodeIsIndex` | GmSSL-2.3.1/apps/ca.c:2241-2256 | the reason found without regard to case has the code of its name, with removeFromCRL moved to 8 |
| `CStrings.Strlcpy` | GmSSL-2.3.1/crypto/o_str.c:84-94 | what fits is copied with its terminator and the rest of the buffer stays |
| `CStrings.Strlcat` | GmSSL-2.3.1/crypto/o_str.c:96-102 | what fits is appended after the string in the buffer |
| `Extensions.Certificate.DeleteAll` | GmSSL-2.3.1/apps/apps.c:1055-1061 | the inner loop terminates and removes exactly the extensions of the type, keeping the order of the others |
| `Extensions.Certificate.CopyExtensions` | GmSSL-2.3.1/apps/apps.c:1035-1073 | add mode appends the first requested extension of each new type; copy-all mode leaves the certificate's extensions of other types followed by the last requested one of each type |
| `Extensions.MergeTwice` | GmSSL-2.3.1/apps/apps.c:1035-1073 | merging the same request again changes nothing |
| `SubjectName.ParseOfWritten` | GmSSL-2.3.1/apps/apps.c:1707-1783 | attributes are read as written, with backslashes before any characters and plus signs that only separate in multi-value mode: the known ones in order with type, value and flag, or nothing if the library does not take one of them |
| `SubjectName.ScanIsExact` | GmSSL-2.3.1/apps/apps.c:1745-1758 | conversely every value scanned was written that way in front of the separator it ended at, and only a lone backslash at the end breaks one |
| `SubjectName.SlashIsDemanded` | GmSSL-2.3.1/apps/apps.c:1713-1714 | a text that does not start with a slash is refused |
| `SubjectName.BrokenEndIsRefused` | GmSSL-2.3.1/apps/apps.c:1735-1757 | a type without an equals sign, or a value with a lone backslash, after well written attributes is refused |
| `SubjectName.ParseOfPrint` | GmSSL-2.3.1/apps/apps.c:1707-1783 | a printed list of attributes, with escapes and multi-value flags, is read back in order; exactly the attributes of unknown types are dropped |
| `SubjectGroups.GroupsAreKept` | GmSSL-2.3.1/crypto/x509/x509name.c:180-226 | the relative names built from the known attributes are those written, without the unknown ones, if and only if every known attribute after a plus sign has a known one before it in its relative name or none before it at all |
| `SubjectGroups.PrintedGroups` | GmSSL-2.3.1/apps/apps.c:1707-1783 | reading back a printed name therefore rebuilds its relative names under exactly that condition |
| `SubjectGroups.AllKnown` | GmSSL-2.3.1/apps/apps.c:1768-1774 | when all types are known nothing is dropped, so nothing is regrouped |
| `SubjectGroups.UnitJoinsCommonName` | GmSSL-2.3.1/apps/apps.c:1768-1779 | a name in which a skipped attribute makes the next one join the wrong relative name |
| `SubjectName.CollectType` | GmSSL-2.3.1/apps/apps.c:1732-1741 | the type up to its equals sign is collected at the start of the buffer |
| `SubjectName.CollectValue` | GmSSL-2.3.1/apps/apps.c:1745-1758 | the value without escapes is collected behind it, inside the buffer; a lone backslash at the end is the only error |
| `SubjectName.ParseNameInBuffer` | GmSSL-2.3.1/apps/apps.c:1707-1783 | the parser over one shared buffer, never written past its length, reads the attributes of the specification or fails with it |
| `NextProtos.JoinOfSplit` | GmSSL-2.3.1/apps/apps.c:1882-1907 | joining the parts between commas restores the input |
| `NextProtos.DecodeOfEncode` | GmSSL-2.3.1/apps/apps.c:1882-1907 | reading lengths and names from the encoded list gives the list back |
| `NextProtos.NextProtosParse` | GmSSL-2.3.1/apps/apps.c:1882-1907 | the call fails exactly for input of 65535 bytes and more or a part over 255 bytes; otherwise the buffer has one byte more than the input and decodes to its parts |
| `IndexRotation.NamesAreDistinct` | GmSSL-2.3.1/apps/apps.c:1625-1629 | which suffixes give six different names |
| `IndexRotation.NothingIsCut` | GmSSL-2.3.1/apps/apps.c:1614-1629 | the length check refuses exactly the names that would be cut short |
| `IndexRotation.FileSystem.RotateIndex` | GmSSL-2.3.1/apps/apps.c:1608-1672 | the method passes through exactly the states of the specified rotation |
| `IndexRotation.RotationIsAllOrNothing` | GmSSL-2.3.1/apps/apps.c:1637-1672 | with undoing that works the end is all or nothing if and only if no tolerated error was misplaced; then each file is at every step under its old or its new name |
| `IndexRotation.RotationSucceeds` | GmSSL-2.3.1/apps/apps.c:1637-1672 | success exactly if both new files are there and renamed and the rename of a live file fails, if at all, for a missing file or directory |
| `IndexRotation.HonestRotation` | GmSSL-2.3.1/apps/apps.c:1637-1672 | in particular when both live files exist and a missing file is reported only when it is missing |
| `IndexRotation.RotationStaysInjective` | GmSSL-2.3.1/apps/apps.c:1637-1672 | no file ever stands under two names |
| `IndexRotation.MisjudgedRenameLosesDatabase` | GmSSL-2.3.1/apps/apps.c:1637-1648 | a tolerated error for a file that is there: success is reported and the database is lost |
| `IndexRotation.StaleDatabaseComesBack` | GmSSL-2.3.1/apps/apps.c:1637-1651 | without a database undoing makes the previous one of an earlier rotation live |
| `CmsSigners.Program.ReadOption` | GmSSL-2.3.1/apps/cms.c:483-569 | the cases of the option switch change the variables as specified |
| `CmsSigners.Program.AddFinalSigner` | GmSSL-2.3.1/apps/cms.c:615-638 | the final append and its two errors |
| `CmsSigners.Program.AddSigners` | GmSSL-2.3.1/apps/cms.c:938-972 | each signer is added with the key at its place and the parameters of the first block of its number |
| `CmsSigners.AddAllSigners` | GmSSL-2.3.1/apps/cms.c:483-972 | for sign and resign, whenever every parameter number fits, the signers added are the pairs that the options describe, or the program gives up exactly when they describe none |
| `CmsSigners.StepMatches` | GmSSL-2.3.1/apps/cms.c:483-569 | every option keeps both lists and the blocks in step with the pairs, and is refused exactly if it makes no sense for them |
| `CmsSigners.SignersAreAligned` | GmSSL-2.3.1/apps/cms.c:483-638 | at the end each signer stands once, in order, with its own key or itself and its own parameters, and the block numbers increase |
| `CmsSigners.AlignedIfAllFit` | GmSSL-2.3.1/apps/cms.c:540-569 | a successful run is aligned if and only if every -keyopt fits |
| `CmsSigners.RefusedIfRecipientLacks` | GmSSL-2.3.1/apps/cms.c:540-553 | options that describe signers are refused if and only if some -keyopt comes while the operation is to encrypt and no recipient has been counted |
| `CmsSigners.KeyoptForEncryptIsRefused` | GmSSL-2.3.1/apps/cms.c:540-553 | options that describe a signer with its parameter and are refused |
| `CmsSigners.KeyoptsForSignersFit` | GmSSL-2.3.1/apps/cms.c:540-550 | every -keyopt fits if none comes while the operation is to encrypt |
| `CmsSigners.StacksAreLevel` | GmSSL-2.3.1/apps/cms.c:483-519 | the two lists always have equal length |
| `CmsSigners.NothingIsLost` | GmSSL-2.3.1/apps/cms.c:483-569 | the pairs hold every signer, every key and every parameter of the options once and in order |
| `CmsSigners.BlocksIncrease` | GmSSL-2.3.1/apps/cms.c:555-568 | block numbers are strictly increasing numbers of pairs |
| `CmsSigners.KeyoptForEncryptGoesAstray` | GmSSL-2.3.1/apps/cms.c:540-568 | options after which the second signer has the parameters of the first |

## Left out

* Reading of characters in `yylex`: digits, words, the locale's names of months and days, and parenthesised comments, whose opening parenthesis is not counted. The parser takes tokens with their values.
* The generated parser calls `yylex` with one argument although it takes two; the call that passes the record is modelled.
* What becomes of phrases that disturb each other: the tables resolve such conflicts by shifting, so some derivable inputs are rejected, and others are read in another way. The letter T as a military zone after a time, and the word last by itself, are not among the phrases.
* Daylight saving of the system, and its zone except in `RelativeMonths`: `localtime` is the decomposition in UTC, or at a fixed offset. Seconds are unbounded integers, without the overflow of `time_t`.
* Values on the parser stack are a datatype; that a member of the C union is only read as it was written follows from the lexer's and the actions' types.
* `DateTexts`: the checks of both date forms are functions of the text, without the broken-down time they fill in; a date that no calendar has, such as 31 February, has no second meant. A missing zone is taken for UTC.
* Cryptography, ASN.1, engines and sockets. What the library accepts as an object identifier or an attribute is a parameter, and outside `DateTexts` what it accepts as a time.
* Memory that runs out, in all programs; file contents are numbers in `IndexRotation`.
* Reading and writing of the database file with its tabs, and the file of attributes; `CaDatabase` starts from rows.
* A clock after 2049, which the two-digit form of the time cannot show, and one that the zone of a date moves out of 1950 to 2049.
* Printing of certificate details, and the lookup by name in `do_body` before the name is filled in (`GmSSL-2.3.1/apps/ca.c:1620-1629`); uniqueness rests on insertion.
* The conversion of a serial number to hexadecimal text: certificates carry the text.
* Hash tables of the indexes are searched as lists by the same keys.
* Loading of certificates and keys in `cms`, receipts, and the recipients of encryption except for their number.
* `CaDatabase.Database.MarkRevoked`: the type is one character, the first of the text that the source keeps.
* `Extensions.Certificate.CopyExtensions`: the missing certificate or request, and failure to add, are not modelled.
* The mains of the other programs, which are switches around library calls, and small helpers such as hexadecimal parsing.
