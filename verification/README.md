# os2ds-rules in Dafny

This project models the core of the os2ds-rules scanning library. It covers:

- the CPR-number detector;
- the build-once chained hash set that backs the word lists;
- the match value type;
- the address rule and the name rule.

It also proves what these components compute. The model uses immutable datatypes and pure functions. Each loop of the C++ code is a step function over an explicit record of the loop's registers, folded over the input text.

- **CPR detector** (`cpr_detector.dfy`). `CprDetector.Step` is one iteration of the ten-state automaton in `CPRDetector::find_matches`.
  - It carries the state, the ten-character buffer, the previous-character register, `begin`, `allow_separator`, `leap_year`, the true index `pos`, and the source's `count`.
  - `Mode` selects one of two variants. `AsWritten` takes offsets from `count` and appends a match even when the tenth character was rejected. `Intended` takes offsets from the true index and requires ten digits.
  - `FindMatches` is the corrected scan. `FindMatchesAsWritten` is the code as it stands.
  - `cpr_number.dfy` gives an independent reference for what the detector should report. It defines a valid number (`IsValidCpr`) and where its digits stand in a text with optional separators (`DigitPos`, `IsCprAt`).
  - Soundness (`cpr_soundness.dfy`) and completeness (`cpr_completeness.dfy`) relate the scan to that reference.
  - `cpr_boundary.dfy` states the rule for what may precede a number. `ScanAt` is the configuration the scan has reached before each index.
  - `cpr_calendar.dfy` relates the digit tables, `check_day_month` and `check_leap_year` to the calendar.
  - `cpr_checksum.dfy` shows what the two detector flags do.
  - `cpr_as_written.dfy` relates the two variants over every input. Once the NUL-ended matches are dropped, the as-written scan reports the corrected scan's texts in the same order. Its counter offsets still increase from match to match.
- **Hash set** (`chains.dfy`, `frozen_hash_set.dfy`). A `Chain` is a non-empty sequence of strings whose default is `[""]`. A `FrozenHashSet` is a sequence of chains plus a hash function, which is a parameter of the model. An invariant (`Holds`) ties the buckets to the set of values inserted.
- **Match values** (`rules.dfy`): `Sensitivity`, `MatchResult` and its constructor with defaults.
- **Word rules** (`words.dfy`, `address_rule.dfy`, `name_rule.dfy`).
  - Both rules scan words. A word runs from the first upper-case letter of a chunk to the chunk's end.
  - The address rule ends words only at a space. The name rule also ends them at `.`, newline and NUL.
  - Dictionaries are `set<string>`.
  - `AddressRule.FindMatchesExact` and `NameRule.FindMatchesExact` characterise each rule's result completely.
- **Examples** (`cpr_examples.dfy`, `address_examples.dfy`, `name_examples.dfy`). These state what the model computes on the inputs of the repository's test files.

## Model

| member | source | states |
|---|---|---|
| Rules.Level | include/os2dsrules.hpp:13-19 | Each sensitivity tier's integer is 250 times its position in the declaration, from 0 for Information to 1000 for Critical. |
| Rules.LevelOrdersTiers | include/os2dsrules.hpp:13-19 | The tier values are distinct and strictly increase in declaration order. |
| Rules.NewMatch | include/os2dsrules.hpp:21-46 | The accessors return exactly the constructor's arguments. Sensitivity defaults to Critical and probability to 1.0. No relation between start and end is imposed. |
| CprChars.MakePredicate | include/cpr-detector.hpp:28-42 | make_predicate(d1..dn) applied to a character: one character compares for equality, several form the disjunction of the first with the predicate of the rest. Its meaning is stated by `CprChars.MakePredicateIsMembership`. |
| CprChars.IsNonzeroDigit | include/cpr-detector.hpp:44 | is_nonzero_digit: '0' < c <= '9'. `CprChars.DigitClasses` states its class. |
| CprChars.IsDigit | include/cpr-detector.hpp:46 | is_digit: '0' <= c <= '9'. `CprChars.DigitClasses` states its class. |
| CprChars.IsSeparator | include/cpr-detector.hpp:48 | is_separator: space, '-' or '/'. `CprChars.PredicatesAreMade` shows it is the declared make_predicate instance. |
| CprChars.IsPreviousOk | include/cpr-detector.hpp:50 | is_previous_ok: NUL, space, newline or tab. `CprChars.PredicatesAreMade` shows it is the declared make_predicate instance. |
| CprChars.IsSpace | include/cpr-detector.hpp:52 | is_space: exactly the space character. |
| CprChars.MakePredicateIsMembership | include/cpr-detector.hpp:28-42 | The predicate built by variadic recursion from d1..dn holds of c exactly when c is one of the di. |
| CprChars.DigitClasses | include/cpr-detector.hpp:44-46 | `is_digit` accepts exactly 0-9. `is_nonzero_digit` accepts exactly 1-9, which is a digit other than 0. |
| CprChars.PredicatesAreMade | include/cpr-detector.hpp:48-50 | `is_separator` is the predicate made from space, '-' and '/'. `is_previous_ok` is the one made from NUL, space, newline, tab and NUL. |
| CprDetector.Defaults | include/cpr-detector.hpp:82-95 | The default constructor turns both flags off. The detector's sensitivity is the top tier. |
| CprDetector.Update | lib/cpr-detector.cpp:43-55 | update: when the character is in the accepted class, move to the target state and hand the character back; otherwise reset to Empty and hand back NUL. Its effect on the scan is stated by `CprSoundness.StepPreserves`. |
| CprDetector.CheckDayMonth | lib/cpr-detector.cpp:57-79 | check_day_month on the buffered day and month. `CprCalendar.CheckDayMonthIsCalendar` states what it decides. |
| CprDetector.CheckLeapYear | lib/cpr-detector.cpp:81-93 | check_leap_year on the buffered year and first control digit. `CprCalendar.CheckLeapYearIsDivisibility` states what it decides. |
| CprDetector.CheckAndAppend | lib/cpr-detector.cpp:95-109 | check_and_append_cpr: the buffer becomes a Critical match at the given offsets when its control part is positive and, with the checksum on, it passes modulus 11. `CprChecksum.RunScreened` and `CprSoundness.FindMatchesSound` state the consequences. |
| CprDetector.Step | lib/cpr-detector.cpp:145-288 | One loop iteration moves the cursor one place. A match is appended only in state Match, which then returns to Empty and advances the counter. The match starts at the candidate's begin and ends at the current offset: the true index in the corrected variant, the counter as written. It has ten characters, is Critical with probability 1.0, and its tenth character is a digit or, as written only, NUL. |
| CprDetector.Run | lib/cpr-detector.cpp:145-288 | The loop from a configuration to the end of the text. It appends at most one match per remaining character. Every match has ten characters, Critical and 1.0, and a digit as tenth character, or NUL as written. In the corrected variant every match ends inside the text. |
| CprDetector.FindMatches | lib/cpr-detector.cpp:128-291 | Texts shorter than ten characters yield nothing. Every match has ten characters, a digit in tenth place and an end inside the text, and is Critical. `CprSoundness.FindMatchesSound` and `CprCompleteness.ExactlyTen` characterise the result fully. |
| CprDetector.FindMatchesAsWritten | lib/cpr-detector.cpp:128-291 | Texts shorter than ten characters yield nothing. Every match has ten characters, is Critical, and ends in a digit or in NUL. `CprAsWritten.TextsAgree` relates the result to the corrected scan. |
| CprDetector.CheckMod11 | lib/cpr-detector.cpp:111-126 | The loop over the ten weighted digits returns true exactly when the weighted sum of the reference definition is a multiple of 11. |
| CprCalendar.StoiOfDigits | lib/cpr-detector.cpp:59-61 | `std::stoi` on a string of digits is its decimal value. |
| CprCalendar.TablesAreRanges | lib/cpr-detector.cpp:163-244 | The admissible-digit tables accept exactly the days 1-31, the months 1-12 and the years 1-99. Year 00 is therefore unreachable, and so is the `year == 0` branch of check_leap_year. |
| CprCalendar.CheckDayMonthIsCalendar | lib/cpr-detector.cpp:57-79 | For a plausible day and month, check_day_month keeps the candidate exactly when the day exists in that month, with February counting 29. It raises the leap-year flag exactly on 29 February. |
| CprCalendar.CheckLeapYearIsDivisibility | lib/cpr-detector.cpp:81-93 | check_leap_year keeps a candidate with year other than 00 exactly when the year is divisible by 4. |
| CprCalendar.ControlNonzero | lib/cpr-detector.cpp:97-101 | The control value is positive exactly when the last four digits are not 0000. |
| CprSoundness.StepPreserves | lib/cpr-detector.cpp:145-288 | Each iteration keeps the invariant relating the automaton's registers to the text read so far. Any match it appends is a valid number laid out at its offsets, with a boundary after it. |
| CprSoundness.RunSound | lib/cpr-detector.cpp:145-288 | From any configuration meeting the invariant, every match reported is sound. Matches start no earlier than the open candidate and come out in increasing, non-overlapping order. The boundary before a match needs the scan's history, so it is stated for reachable configurations by `CprBoundary.RunLeftBounded`. |
| CprSoundness.FindMatchesSound | lib/cpr-detector.cpp:128-291 | Every match is a valid CPR number, with a calendar date, year not 00, control not 0000 and the checksum when it is on. Its ten digits stand at the reported start with single allowed separators, and its end is the last digit's index. A boundary follows it. Before it stands the start of the text, NUL, space, newline or tab, or a character that dropped an open candidate (`CprBoundary.LeftBoundary`). It is Critical with probability 1.0. Matches are strictly ordered. |
| CprSoundness.ReportedSpan | lib/cpr-detector.cpp:184-250 | A reported match spans 10 to 13 characters, so at most three separators lie inside it, and it obeys the digit tables. |
| CprCompleteness.RunFinds | lib/cpr-detector.cpp:163-283 | Once the scan is part-way through a valid, bounded number, it reports exactly that number with its true end. It then continues in Empty right after the number. |
| CprCompleteness.FindsFromEmpty | lib/cpr-detector.cpp:147-162 | In Empty with a boundary character as previous character, a valid, bounded number starting under the cursor is the next match. |
| CprCompleteness.FindsLeading | lib/cpr-detector.cpp:128-291 | A valid, bounded number at the start of the text is the first match. |
| CprCompleteness.TenCharMatch | lib/cpr-detector.cpp:128-291 | In a ten-character text, a reported match is the whole text and a valid number. |
| CprCompleteness.ExactlyTen | lib/cpr-detector.cpp:128-291 | On ten characters, find_matches reports the text from 0 to 9 if it is a valid number, and nothing otherwise. |
| CprChecksum.KeepPassing | lib/cpr-detector.cpp:104-105 | Keeps exactly the matches that pass the modulus-11 check, never more than given. |
| CprChecksum.RunScreened | lib/cpr-detector.cpp:95-109 | The scan under any detector is the plain scan, with the checksum-failing matches dropped exactly when the flag is on. |
| CprChecksum.ChecksumFilters | lib/cpr-detector.cpp:104-105 | Turning the checksum on removes exactly the failing matches and keeps the rest in order. |
| CprChecksum.ContextIgnored | include/cpr-detector.hpp:71-72 | The examine-context flag never changes the result. |
| CprAsWritten.StepAgrees | lib/cpr-detector.cpp:145-288 | From configurations that differ only in `begin`, both variants move alike. When the corrected step appends a match, the as-written step appends one with the same text. An as-written match without a corrected counterpart ends in NUL. |
| CprAsWritten.RunAgrees | lib/cpr-detector.cpp:145-288 | From configurations that differ only in `begin`, the as-written loop without its NUL-ended matches reports the corrected loop's texts, in the same order. |
| CprAsWritten.TextsAgree | lib/cpr-detector.cpp:128-291 | find_matches as written, without the matches ending in NUL, reports exactly the corrected scan's texts, in order. |
| CprAsWritten.AsWrittenTenth | lib/cpr-detector.cpp:272-283 | Every match of the code as written ends in a digit or in NUL. |
| CprAsWritten.AsWrittenFinishedValid | lib/cpr-detector.cpp:95-109 | As written, every match ending in a digit is a valid CPR number: calendar date, year not 00, control not 0000, and the checksum when it is on. It is Critical with probability 1.0. |
| CprAsWritten.StepCounts | lib/cpr-detector.cpp:145-288 | One as-written step never lowers the offset the next match can start at. A match it appends ends below the next one's floor. |
| CprAsWritten.RunOrdered | lib/cpr-detector.cpp:145-288 | As written, the matches come out strictly ordered by their counter offsets. |
| CprAsWritten.DropKeepsOrder | lib/cpr-detector.cpp:128-291 | Dropping the NUL-ended matches keeps an ordered list ordered. |
| CprAsWritten.AsWrittenOrdered | lib/cpr-detector.cpp:128-291 | find_matches as written returns strictly ordered matches by their recorded offsets, and so does what remains once the NUL-ended ones are dropped. |
| CprBoundary.ScanAtNext | lib/cpr-detector.cpp:145-288 | The configuration before index i + 1 is one loop iteration on from the configuration before index i, so `ScanAt` is the sequence of configurations the loop passes through. |
| CprBoundary.StepRegister | lib/cpr-detector.cpp:43-55 | A step that leaves for Empty puts the character just read into the register, or NUL when update rejected it in a candidate state. Only Empty opens a candidate, and only with a register that passes is_previous_ok. The candidate then keeps its `begin` until it closes. |
| CprBoundary.EmptyRegister | lib/cpr-detector.cpp:147-156 | In Empty the register holds NUL at the start of the text, the character read last, or NUL after that character dropped a candidate. |
| CprBoundary.OpenedAtBoundary | lib/cpr-detector.cpp:147-161 | Every open candidate began before the cursor, at a left boundary: the start of the text, NUL, space, newline or tab, or right after a character that dropped a candidate. |
| CprBoundary.RunLeftBounded | lib/cpr-detector.cpp:145-288 | Every match the scan reports from a reachable configuration starts at a left boundary. |
| CprBoundary.FindMatchesLeftBounded | lib/cpr-detector.cpp:128-291 | Every match of find_matches starts at a left boundary. |
| CprBoundary.NonDigitKeepsEmpty | lib/cpr-detector.cpp:153-161 | From Empty, a character that is not a digit opens no candidate. |
| CprBoundary.EmptyBeforeDigits | lib/cpr-detector.cpp:147-161 | No candidate is open before the first digit of the text. |
| CprBoundary.NoDropBeforeDigits | lib/cpr-detector.cpp:43-55 | Before the first digit of the text, no character drops a candidate. |
| CprBoundary.GluedStart | lib/cpr-detector.cpp:147-151 | If no digit comes earlier in the text, the character before a reported number is NUL, space, newline or tab. So a number glued to a preceding "#" is never reported, whatever follows it. |
| CprFindings.NulMatchAsWritten | lib/cpr-detector.cpp:272-283 | As written, "111111111a" is reported with NUL as tenth character. The corrected scan reports nothing, and that buffer is not a valid number. |
| CprFindings.OffsetDriftAsWritten | lib/cpr-detector.cpp:145-288 | As written, "11 11 11 1118" is reported as ending at 9. The corrected scan reports end 12. |
| CprFindings.SpacedIntended | tests/testcpr.cpp:23-33 | The corrected scan reports 1111111118 from 0 to 12 in "11 11 11 1118", as the test expects. |
| CprFindings.OnesValid | tests/testcpr.cpp:45-53 | 1111111118 is valid with and without the checksum. |
| CprExamples.ShortText | lib/cpr-detector.cpp:131-133 | A text shorter than ten characters yields no match in either variant. |
| CprExamples.BasicNumber | tests/testcpr.cpp:11-21 | "1111111118" yields one match from 0 to 9, with or without the checksum. |
| CprExamples.LeapDay | tests/testcpr.cpp:35-43 | 29 February 2008 ("2902081111") is reported. |
| CprExamples.NoLeapDay | tests/testcpr.cpp:120-127 | 29 February 2011 ("2902111111") is not reported. |
| CprExamples.NoDate | tests/testcpr.cpp:102-109 | "9999999999" is not reported. |
| CprExamples.FebruaryThirty | tests/testcpr.cpp:111-118 | "3002111111" is not reported. |
| CprExamples.ControlZero | tests/testcpr.cpp:129-136 | "1111110000" is not reported. |
| CprExamples.ChecksumFails | tests/testcpr.cpp:138-145 | With the checksum on, "1111111111" is not reported. |
| CprExamples.TwoNumbers | tests/testcpr.cpp:147-156 | "1111111118 2304516782" yields two matches, at 0-9 and at 11-20. |
| CprExamples.NoBoundaryNoMatch | lib/cpr-detector.cpp:147-151 | In Empty, while no boundary character has been read, nothing is reported. |
| CprExamples.GluedPrefix | tests/testcpr.cpp:84-91 | "#1111111118" yields nothing. |
| CprExamples.GluedSuffix | tests/testcpr.cpp:93-100 | "1111111118#" yields nothing. |
| CprExamples.LetterSeparator | tests/testcpr.cpp:75-82 | "111111b1118" yields nothing. |
| CprExamples.TwoSeparators | tests/testcpr.cpp:66-73 | "111111  1118" yields nothing. |
| CprExamples.TabSeparator | tests/testcpr.cpp:55-64 | Tab is no separator (include/cpr-detector.hpp:48). So "111111\t1118" and the test's full text "111111\t1118\n111111\t0137\n111111\nBACON" both report nothing, where the test expects two matches. |
| CprExamples.ReportedChars | lib/cpr-detector.cpp:184-250 | Every character a reported match spans is a digit or a separator: a number never spans a tab, newline or letter. |
| CprExamples.FiveBlockers | tests/testcpr.cpp:55-64 | Thirty-six characters with a character that is neither digit nor separator at 6, 11, 18, 23 and 30 hold no reported number. |
| CprExamples.TabTextBlocks | tests/testcpr.cpp:55-64 | No match can be reported in the test's text with tabs and newlines. |
| CprExamples.StartAfterReset | lib/cpr-detector.cpp:43-55 | A rejected character resets the previous-character register to NUL. The next character may then start a candidate with no boundary before it, so "1x0101011111" reports 0101011111 at 2-11. |
| Chains.Contains | include/data_structures.hpp:87-97 | True exactly when some node of the chain holds the value. |
| Chains.Length | include/data_structures.hpp:103-109 | The number of nodes. |
| Chains.Append | include/data_structures.hpp:66-72 | Adds the value after the existing values, which keep their order, and increases the length by one. |
| Chains.Remove | include/data_structures.hpp:74-85 | remove(v) called with no previous node keeps the head. It removes at most one node and adds no value. `Chains.RemoveSpec` states exactly which node goes. |
| Chains.RemoveFrom | include/data_structures.hpp:74-85 | Called with no predecessor on a matching node, it changes nothing. Called with a predecessor, it unlinks that node. An absent value changes nothing. |
| Chains.RemoveFromDropsFirst | include/data_structures.hpp:74-85 | Below the head, remove unlinks exactly the first node holding the value. |
| Chains.RemoveSpec | include/data_structures.hpp:74-85 | remove on the head's value or on an absent value leaves the chain unchanged. Otherwise it drops exactly the first occurrence, which lies below the head. |
| Chains.RemoveDistinct | include/data_structures.hpp:74-85 | On a chain without repeats, removing a value other than the head's leaves it absent, and the length shrinks by one exactly when it was present. |
| FrozenHashSets.Index | include/data_structures.hpp:124-127 | The bucket index is below the bucket count and is computed the same way for insert and lookup. |
| FrozenHashSets.Empty | include/data_structures.hpp:120-122 | Before any insert, every bucket is the default chain. |
| FrozenHashSets.Insert | include/data_structures.hpp:129-140 | After insert(v), v is held by the chain of its own bucket. Every other bucket is unchanged, and the hash and the bucket count are kept. |
| FrozenHashSets.InsertAll | include/data_structures.hpp:145-149 | Inserting the values one by one keeps the hash and the bucket count. `FrozenHashSets.InsertAllKeeps` states what the buckets then hold. |
| FrozenHashSets.Build | include/data_structures.hpp:145-155 | The constructor has as many buckets as initial values and the given hash. `FrozenHashSets.BuildHolds` states what it holds. |
| FrozenHashSets.Contains | include/data_structures.hpp:161-164 | contains(v) is true exactly when some node of v's own bucket holds v. Only that bucket is looked at, and whole values are compared. |
| FrozenHashSets.InsertPresent | include/data_structures.hpp:129-140 | Inserting a value its bucket already holds changes nothing. |
| FrozenHashSets.InsertKeeps | include/data_structures.hpp:129-140 | Insert keeps the invariant. Every non-empty value stored sits in its own bucket, chains hold no repeats, a bucket whose head is "" is still the default chain, and the inserted non-empty value is added. |
| FrozenHashSets.InsertAllKeeps | include/data_structures.hpp:145-155 | Inserting the initializer's values one by one keeps the invariant for all non-empty values inserted. |
| FrozenHashSets.BuildHolds | include/data_structures.hpp:145-155 | After construction, the set holds exactly the non-empty values of the initializer. |
| FrozenHashSets.BuildContains | include/data_structures.hpp:161-164 | For a non-empty value, contains is true exactly when the initializer lists it, because full values are compared. |
| FrozenHashSets.BuildDistinct | include/data_structures.hpp:133 | No bucket holds the same value twice. |
| FrozenHashSets.EmptyStringFoundInUnusedBucket | include/data_structures.hpp:161-164 | When no non-empty value shares the bucket of "", the query for "" is true. |
| FrozenHashSets.EmptyStringLostAsWritten | include/data_structures.hpp:129-140 | With initializer ["", "a"] and one bucket shared by both, "a" overwrites the "" head, so "" is listed but not found. |
| FrozenHashSets.BuildIntendedContains | include/data_structures.hpp:145-164 | With empty buckets instead of a "" default, contains is true exactly when the initializer lists the value, "" included. |
| FrozenHashSets.BuildAgreesOnNonEmpty | include/data_structures.hpp:161-164 | The corrected set and the set as written agree on every non-empty value. |
| Words.IsUpper | lib/name_rule.cpp:40 | std::isupper in the C locale: exactly A-Z. The address rule uses the same test (lib/address_rule.cpp:38). |
| Words.ToUpper | lib/name_rule.cpp:80-81 | a-z map to A-Z. Every other character is kept. |
| Words.Upper | lib/name_rule.cpp:79-81 | The upper-cased string has the same length, with every character upper-cased. |
| AddressRule.Step | lib/address_rule.cpp:37-59 | One loop iteration. A match is appended only when the character is a space. The match ends at that index, its text is a dictionary word, and the word is then closed. |
| AddressRule.Run | lib/address_rule.cpp:37-59 | The loop from an index on. It appends at most one match per character. Every match ends at a space inside the content, at or after the index, and its text is in the dictionary. |
| AddressRule.Candidates | lib/address_rule.cpp:26-59 | The street names before house numbers are added. There are at most as many as characters, each ends at a space of the content, and each text is in the dictionary. `AddressRule.CandidatesExact` says which. |
| AddressRule.FindMatches | lib/address_rule.cpp:26-63 | At most one address per character. Each ends inside the content on a digit, the house number's last. `AddressRule.FindMatchesExact` characterises the result. |
| AddressRule.DigitRun | lib/address_rule.cpp:118-122 | The maximal run of digits from an index: all digits, followed by the end or a non-digit. |
| AddressRule.AppendNumber | lib/address_rule.cpp:96-126 | It succeeds exactly when a space follows the street name and a digit 1-9 follows that space. On success the text is name, space and the maximal digit run, the start is kept, and the end is the number's last digit. |
| AddressRule.FilterMatches | lib/address_rule.cpp:65-78 | Keeps exactly the completions of the candidates that append_number accepts, never more than there are candidates. |
| AddressRule.StepScans | lib/address_rule.cpp:37-59 | One iteration keeps the scan invariant: an open word started at its chunk's first capital and holds exactly the characters collected since. |
| AddressRule.StepEmits | lib/address_rule.cpp:44-52 | One iteration reports a word exactly when a dictionary word of a chunk is closed by the space at this index. |
| AddressRule.RunExact | lib/address_rule.cpp:37-59 | From a state meeting the invariant, the loop reports exactly the dictionary words closed by a space at or after the index, in order. |
| AddressRule.CandidatesExact | lib/address_rule.cpp:26-59 | The candidates are exactly the dictionary words that a space closes, in text order. A word running to the end is never one. |
| AddressRule.FilterOrdered | lib/address_rule.cpp:65-78 | Appending house numbers keeps the candidates' order without overlaps. |
| AddressRule.FindMatchesExact | lib/address_rule.cpp:26-63 | find_matches reports exactly the completions of the candidates, left to right and without overlap. |
| AddressRule.OneSpace | lib/address_rule.cpp:37-56 | Every reported address contains exactly one space. |
| AddressExamples.EmptyContent | tests/testaddress.cpp:11-16 | Empty content yields nothing. |
| AddressExamples.StreetNameOnly | tests/testaddress.cpp:18-23 | "Aabyvej" yields nothing, whatever the dictionary. |
| AddressExamples.StreetAndNumber | tests/testaddress.cpp:25-33 | With "Aabyvej" in the dictionary, "Aabyvej 1" yields one match from 0 to 8. |
| AddressExamples.LeadingZero | tests/testaddress.cpp:43-48 | "Aabyvej 01" yields nothing. |
| AddressExamples.TwoWordStreet | tests/testaddress.cpp:35-41 | No content and no dictionary produce the text "Aabenraa Landevej 1". |
| NameRule.Known | lib/name_rule.cpp:77-84 | contains: the upper-cased target is a first name or a last name. `NameRule.KnownIgnoresCase` states that case does not matter. |
| NameRule.Step | lib/name_rule.cpp:39-58 | One loop iteration. A match is appended only at a delimiter ('.', space, newline, NUL). It ends at that index, is a known name, and closes the word. An open word began at or before the index. |
| NameRule.Tail | lib/name_rule.cpp:60-72 | After the loop at most one match is appended. It ends at the content's size and is a known name. |
| NameRule.Run | lib/name_rule.cpp:39-72 | The loop from an index on, then the trailing word. Every match is a known name ending at a delimiter or at the content's end, at or after the index. |
| NameRule.FindMatches | lib/name_rule.cpp:29-75 | Every match is a known name that ends at a delimiter of the content or at its end. `NameRule.FindMatchesExact` characterises the result. |
| NameRule.StepScans | lib/name_rule.cpp:39-58 | One iteration keeps the scan invariant over the name delimiters. |
| NameRule.StepEmits | lib/name_rule.cpp:45-57 | One iteration reports a name exactly when a known word of a chunk ends at this delimiter. The reported end is the delimiter's index. |
| NameRule.TailExact | lib/name_rule.cpp:60-72 | After the loop, a word still open is reported exactly when it is known, with the content's size as end. |
| NameRule.StepReports | lib/name_rule.cpp:39-58 | One iteration in front of reports that are exact from the next index gives reports that are exact from this one. |
| NameRule.RunExact | lib/name_rule.cpp:39-72 | From a state meeting the invariant, the rule reports exactly the known words ending at or after the index, in order. |
| NameRule.FindMatchesExact | lib/name_rule.cpp:29-75 | find_matches reports exactly the known words, including one running to the end, left to right without overlap. |
| NameRule.KnownIgnoresCase | lib/name_rule.cpp:77-84 | A word and its upper-cased form are equally known. |
| NameExamples.EmptyContent | tests/testname.cpp:11-16 | Empty content yields nothing. |
| NameExamples.SingleName | tests/testname.cpp:18-24 | With JOHN a first name, "John" yields one match from 0 to 4. |
| NameExamples.DoubleName | tests/testname.cpp:26-32 | With JOHN and PETER known, "John Peter" yields two matches, John at 0-4 and Peter at 5-10. |
| NameExamples.NoDelimiterInName | lib/name_rule.cpp:32-34 | A reported name contains no delimiter. |
| NameExamples.NoMergedName | tests/testname.cpp:26-41 | No content and no name lists produce the text "John Peter". |

## Left out

- I/O and debug output. The `std::cout` lines of append_number (lib/address_rule.cpp:109, 119) print only and are not modelled.
- Real hashing. `std::hash` is a foreign call, so the hash is a parameter `string -> nat`. All results about the set hold for every hash function.
- The word-list datasets. The address and name dictionaries are compiled in from files outside this model. They are parameters of type `set<string>`. For the non-empty words the rules look up, `FrozenHashSets.BuildContains` shows the frozen set behaves as that set. Address words start with a capital and names contain no NUL, so they are never empty.
- String views and NUL truncation. The name lookup passes `c_str()`, which a string view cuts at the first NUL. Names end at NUL, so no looked-up name contains one.
- Bytes and characters. The source scans the bytes of a `std::string` and reports byte offsets. The model scans a `seq<char>` in which each `char` stands for one byte (0-255), so every offset is a byte offset. Text with non-ASCII characters must be given as its byte sequence. A character read past the end of the content, as `*(++ahead)` does at the last character, is NUL (`CprDetector.Ahead`).
- Character classes. `std::isupper` and `std::toupper` are modelled for ASCII in the C locale: only A-Z are upper case.
- Integer widths. `size_t` and `int` are unbounded here. Offsets are at most the content's length and the weighted checksum sum stays between -1776 and 333, so nothing wraps.
- The match probability. It is a `double` in the source and a `real` here. It is only stored and compared, never computed.
- Copy and move constructors, and the AbstractHashSet concepts. They hold no behaviour beyond copying the two flags.
- The context check. `examine_context_` and `blacklist_words` (include/cpr-detector.hpp:19-24) are never read by find_matches. `CprChecksum.ContextIgnored` states this. tests/testcpr.cpp:158-165 therefore cannot pass.
- HashMap, WordListRule and HealthRule. They are not part of this model. tests/test.cpp:146-183 uses a `HashMap<int, int>`, but include/data_structures.hpp as modelled here defines no HashMap. WordListRule has no find_matches, and HealthRule only delegates to a standard set.
- The earlier detector revisions under py/, python/, reference/, src/ and cpp/. They are superseded by lib/cpr-detector.cpp and not part of this model.
- CprDetector.Step: a rejected seventh digit while the leap-year flag is set is modelled as the reset it already is. The source then calls `std::stoi` on a buffer whose seventh character is NUL (lib/cpr-detector.cpp:85, 253-257). That throws inside a `noexcept` function, which terminates the program.
- AddressRule.AppendNumber: the street name's end is always the index of a space inside the content. The case `m.end >= |content|`, which the source would read out of bounds, returns None.
- FrozenHashSets.Contains requires at least one bucket. With zero buckets, `hash % Size` divides by zero.
- Test expectations the code does not meet:
  - tests/testcpr.cpp:55-64 needs tab as a separator (see `CprExamples.TabSeparator`).
  - tests/testname.cpp:26-41 needs names to be merged, but no merge exists (see `NameExamples.NoMergedName`).
  - tests/testaddress.cpp:35-41 needs multi-word street names, but words end at every space (see `AddressExamples.TwoWordStreet`).

  All of these are modelled as the code behaves.
- The reset after a rejected character puts NUL in the previous-character register (lib/cpr-detector.cpp:43-55). A candidate may therefore start right after a rejected character with no boundary before it. `CprExamples.StartAfterReset` shows this, and `CprBoundary.LeftBoundary` states the rule for every match. It is the code's design, so the model keeps it.

## Findings

| source | as written | input that shows it | evidently intended | confidence | as-written member | corrected member |
|---|---|---|---|---|---|---|
| lib/cpr-detector.cpp:145-288 | `begin` and `end` come from `count`. The `continue` statements at lines 150, 188, 221 and 249 skip `++count`, so every skipped separator or skipped character shifts the offsets left. | "11 11 11 1118" gives end 9 | End is the index of the last digit, 12, as tests/testcpr.cpp:32 expects. | not executed | CprFindings.OffsetDriftAsWritten | CprSoundness.FindMatchesSound |
| lib/cpr-detector.cpp:272-283 | In state Match, check_and_append_cpr runs even when the tenth character was rejected. The buffer then ends in NUL and is appended as a match. | "111111111a" gives one match "111111111\0" | Only ten digits are appended. | not executed | CprFindings.NulMatchAsWritten | CprCompleteness.ExactlyTen |
| include/data_structures.hpp:129-140 | An empty bucket is a default chain whose head value is "". Inserting "" there leaves the head as it is, and a later value for the same bucket overwrites that head. | initializer ["", "a"], both hashed to one bucket: contains("") is false | Every initializer value, "" included, is found afterwards. | not executed | FrozenHashSets.EmptyStringLostAsWritten | FrozenHashSets.BuildIntendedContains |
