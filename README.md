# CV scoring helpers, modelled in Dafny

This project models the three deterministic helpers of a CV-review service.

- **The scoring engine** (`services/scoring.py`):
  - It normalises a free-form seniority level onto one of five weight tables (intern, fresher, junior, mid, senior).
  - It computes the overall score of a CV as a weighted mean of twelve criterion scores. There are six core criteria and six bonus criteria.
  - A missing core score counts as 0 and a missing bonus score as the neutral 35.
  - Each score is clamped to 0..100, and the mean is rounded half to even.
- **The experience estimator** (`services/level_detector.py`):
  - It adds up years of experience from three kinds of text evidence: "N years" mentions, "MM/YYYY – MM/YYYY|present" date ranges and "from YYYY to YYYY" phrases.
  - It picks an experience section by keyword priority.
  - It maps the total onto intern, junior, mid or senior.
- **The contact extractor** (`services/info_extractor.py`): the first e-mail address, a phone number found by three patterns tried in order, and a name taken from the first ten lines.

Modules:

- `Text`: characters, `str.lower`, `str.strip`, `str.split`, `int()` of a string.
- `Numeric`: Python's `round` to an integer and to one decimal, and `int()` of a float.
- `Levels`: the level labels.
- `Scoring`, `LevelDetector` and `InfoExtractor`: one module per service file.

How the model represents the source:

- Weights and year totals are exact reals. The model's weighted mean is the exact quotient, which is generally not a binary float: 1/100 is not one. The rounded score is still the one the service computes, for three reasons:
  - Each weight is a multiple of 0.5 and each score an integer from 0 to 100, so the weighted sum and the total weight of 100 are exact as floats. The mean is then a multiple of 1/200.
  - A tie n + 0.5 is a float, so the service's correctly rounded division gives it exactly and `round()` settles it half to even, as the model does.
  - Every other multiple of 1/200 is at least 0.005 from a tie, far more than the division's rounding error, so `round()` picks the same integer as the exact mean.
- The current year and month are a parameter (`now`).
- Each regular expression is modelled by a scanner function. Every scanner is proved sound and complete against a predicate that spells out what a whole match of the pattern is: where each part starts and ends, and what lies between the parts. `re.findall(...)[0]` is modelled as the match with the leftmost start and, at that start, the match the regex engine takes there.
- The loops of the service stay loops:
  - `calculate_overall_score`'s accumulation over the weight table.
  - The three passes of `parse_years_from_text`.
  - The keyword loop of `detect_level`.
  - The pattern loop of `extract_phone`.
  - The line loop of `extract_name`.

  Each loop is a method proved equal to a specification function. The properties are proved about those functions.

The code has no bonus cap, no credibility penalty, no cap for freshers and no weighting by role, and neither does the model. A junior with all core criteria at 80 and no bonus entries scores 75 (`Scoring.JuniorCoreEighty`).

## Model

| member | source | states |
|---|---|---|
| Text.Lower | services/scoring.py:109 | lower-casing keeps the length and maps each character on its own |
| Text.LowerIdempotent | services/scoring.py:109 | lower-casing twice is lower-casing once |
| Text.Strip | services/scoring.py:109 | the stripped string is no longer than the input and neither starts nor ends with whitespace |
| Text.StripUnpadded | services/scoring.py:109 | a string without surrounding whitespace is left unchanged by strip |
| Text.StripIgnoresPadding | services/scoring.py:109 | whitespace added on either side does not change the stripped result |
| Text.StripLower | services/scoring.py:109 | stripping and lower-casing commute |
| Text.Split | services/info_extractor.py:36 | splitting gives at least one piece and no piece contains the separator |
| Text.JoinSplit | services/info_extractor.py:36 | joining the pieces of a split with the separator gives back the text |
| Text.SplitJoin | services/info_extractor.py:36 | splitting a join of separator-free pieces gives back the pieces |
| Text.ParseDigits | services/scoring.py:154 | `int()` of a string of ASCII digits is its decimal value |
| Text.ParseIntRejects | services/scoring.py:154-156 | `int()` of a string holding a character that is not a digit, sign or whitespace fails |
| Text.ParseIntRejectsUnsigned | services/level_detector.py:33 | `int()` of an unpadded, unsigned string holding a non-digit fails |
| Numeric.RoundHalfEven | services/scoring.py:176 | `round(x)` is within 0.5 of x, and a tie goes to the even integer |
| Numeric.RoundHalfEvenMonotone | services/scoring.py:176 | rounding never reverses the order of two values |
| Numeric.RoundTenths | services/level_detector.py:72 | `round(x, 1)` is a whole number of tenths within 0.05 of x, and a tie goes to the even tenth |
| Numeric.RoundTenthsMonotone | services/level_detector.py:72 | rounding to tenths never reverses the order of two values |
| Numeric.Trunc | services/scoring.py:154 | `int()` of a float truncates toward zero |
| Scoring.LevelWeights | services/scoring.py:28-105 | each level's table has one weight per criterion, in the order of the source's dictionaries |
| Scoring.WeightTablesWellFormed | services/scoring.py:28-105 | every weight is non-negative, `field_match` weighs 0 and the weights add up to 100 at every level, so the zero-total fallback is unreachable |
| Scoring.CriterionKinds | services/scoring.py:7-23 | the first six criteria are the core keys and the last six the bonus keys |
| Scoring.NormalizeLevel | services/scoring.py:108-121 | the stripped, lower-cased level is looked up among the five names and their aliases, and anything else gives junior |
| Scoring.LevelOfSpelling | services/scoring.py:110-121 | a known spelling maps to its level and an unknown one to junior |
| Scoring.NormalizeName | services/scoring.py:110-111 | each of the five table names normalises to its own level |
| Scoring.NormalizeWord | services/scoring.py:113-121 | a lower-case word is looked up as it is |
| Scoring.NormalizeIdempotent | services/scoring.py:109-111 | normalising the name of a normalised level gives the same level |
| Scoring.NormalizeIgnoresCase | services/scoring.py:109 | letter case does not change the normalised level |
| Scoring.NormalizeIgnoresPadding | services/scoring.py:109 | surrounding whitespace does not change the normalised level |
| Scoring.Clamp | services/scoring.py:167 | a score below 0 becomes 0, one above 100 becomes 100, and one in 0..100 is kept |
| Scoring.CountedScore | services/scoring.py:151-167 | a criterion with a dict entry counts its clamped score; without one, a bonus key counts the neutral 35 and a core key 0 |
| Scoring.Counts | services/scoring.py:147-167 | the counted scores follow the weight table's key order |
| Scoring.ScoreWith | services/scoring.py:172-177 | the rounded, clamped mean lies in 0..100 |
| Scoring.OverallScore | services/scoring.py:124-186 | the overall score lies in 0..100 |
| Scoring.SumsStep | services/scoring.py:169-170 | one more positively weighted criterion adds its weighted score to the sum and its weight to the total |
| Scoring.AccumulateScores | services/scoring.py:137-170 | the loop's `weighted_sum` and `total_weight` are the weighted sum and total weight of the counted scores over the positive weights |
| Scoring.CalculateOverallScore | services/scoring.py:124-186 | the service's result equals the overall score and lies in 0..100 |
| Scoring.WeightedSumCongruent | services/scoring.py:147-170 | scores at zero-weight positions do not affect the weighted sum |
| Scoring.OverallScoreCongruent | services/scoring.py:147-176 | two inputs that agree on every positively weighted criterion get the same score |
| Scoring.ZeroWeightKeyIgnored | services/scoring.py:147-149 | changing the entry of a criterion whose weight is at most 0 does not change the score |
| Scoring.FieldMatchIgnored | services/scoring.py:147-149 | the `field_match` entry never changes the score |
| Scoring.SeniorIgnoresBonus | services/scoring.py:91-104 | for a senior, removing every bonus entry does not change the score |
| Scoring.BonusEntryWins | services/scoring.py:140-142 | when both maps hold a key, the core entry for it is irrelevant |
| Scoring.MissingCoreCountsZero | services/scoring.py:158-165 | a missing, falsy or non-dict core entry scores as a recorded 0 |
| Scoring.MissingBonusCountsNeutral | services/scoring.py:158-162 | a missing, falsy or non-dict bonus entry scores as a recorded 35 |
| Scoring.UnreadableScoreCountsZero | services/scoring.py:152-157 | a dict with no score, a NaN score, an unparsable string or a non-number scores as 0, bonus keys included |
| Scoring.WeightedSumUniform | services/scoring.py:169-170 | when every counted score is s, the weighted sum is s times the total weight |
| Scoring.UniformScores | services/scoring.py:147-177 | when every criterion counts the same s, the overall score is s |
| Scoring.WeightedSumMonotone | services/scoring.py:169 | raising counted scores never lowers the weighted sum |
| Scoring.OverallScoreMonotone | services/scoring.py:147-177 | raising counted scores never lowers the overall score |
| Scoring.RaisingOneScore | services/scoring.py:147-177 | raising one core score never lowers the overall score |
| Scoring.WeightedSumExpanded | services/scoring.py:147-170 | with non-negative weights the weighted sum is the twelve-term dot product |
| Scoring.NothingEvaluated | services/scoring.py:147-177 | with no entries at all the score is 5, 7, 4, 2 or 0 by level, from the neutral bonus scores alone |
| Scoring.JuniorCoreEighty | services/scoring.py:61-74 | a junior with all core scores at 80 and no bonus entries scores 75 |
| LevelDetector.FirstWordEnd | services/level_detector.py:8 | a word the scanner reports is, lower-cased, one of the alternatives |
| LevelDetector.FirstWordEndAt | services/level_detector.py:8 | the first alternative, in the order the regex engine tries them, that matches is the one reported |
| LevelDetector.WordsClash | services/level_detector.py:8 | two words that differ at a position they both have cannot both match at the same place |
| LevelDetector.DateTokenEnd | services/level_detector.py:17 | a token the scanner reports is a date token of the pattern and starts with a digit |
| LevelDetector.DateTokenEndComplete | services/level_detector.py:17 | a date token at a position is exactly the one the scanner reports there |
| LevelDetector.PresentWordEnd | services/level_detector.py:17 | a token the scanner reports is a present word in some letter case |
| LevelDetector.PresentWordEndComplete | services/level_detector.py:17 | a present word at a position is exactly the one the scanner reports there |
| LevelDetector.UnitEnd | services/level_detector.py:8 | a unit the scanner reports is `năm`, `year`, `years` or `yr` in some letter case |
| LevelDetector.UnitEndLongest | services/level_detector.py:8 | the scanner reports a unit wherever one starts, and no shorter than any unit there |
| LevelDetector.ConnectorEnd | services/level_detector.py:56 | a connector the scanner reports is `đến`, `to`, '–' or '-' |
| LevelDetector.ConnectorEndComplete | services/level_detector.py:56 | a connector at a position is exactly the one the scanner reports there |
| LevelDetector.FromWordEnd | services/level_detector.py:56 | a word the scanner reports is `từ` or `from` in some letter case |
| LevelDetector.FromWordEndComplete | services/level_detector.py:56 | a from-word at a position is exactly the one the scanner reports there |
| LevelDetector.EndTokenEnd | services/level_detector.py:56 | an end token the scanner reports is four digits or a present word |
| LevelDetector.EndTokenEndComplete | services/level_detector.py:56 | an end token at a position is exactly the one the scanner reports there |
| LevelDetector.WordStart | services/level_detector.py:8-56 | a word of the alternatives starts with a character that is no digit, space or '.' |
| LevelDetector.PresentStart | services/level_detector.py:17 | a present word starts with a character that is no digit, space or '.', so it never extends a date |
| LevelDetector.UnitStart | services/level_detector.py:8 | a unit starts with a character that is no digit, space or '.', so it never extends the number |
| LevelDetector.ConnectorStart | services/level_detector.py:56 | a connector does not start with a space, so the spaces before it stop where it begins |
| LevelDetector.DecimalEnd | services/level_detector.py:8 | the scanned number `\d+(?:\.\d+)?` is a decimal |
| LevelDetector.DecimalEndComplete | services/level_detector.py:8 | a decimal that no digit or '.' extends is exactly the number the scanner reports |
| LevelDetector.DecimalFractionFound | services/level_detector.py:8 | a decimal with a fraction that no digit extends is exactly the number the scanner reports |
| LevelDetector.DigitRunStops | services/level_detector.py:8 | a digit run followed by a non-digit is where the greedy `\d+` stops |
| LevelDetector.MatchAt | services/level_detector.py:8-57 | a reported match is a whole match of the pattern at that start: every part, the spaces between them and the end |
| LevelDetector.YearCountAt | services/level_detector.py:8 | a reported year mention is a whole match: a decimal, optional spaces and a unit |
| LevelDetector.YearCountAtComplete | services/level_detector.py:8 | wherever a year mention starts, the scanner reports one with the same number and a unit at least as long |
| LevelDetector.DateRangeAt | services/level_detector.py:17 | a reported range is a whole match: a date, spaces, a dash, spaces, and a date or a present word |
| LevelDetector.DateRangeAfterDash | services/level_detector.py:17 | after the start date and the dash, the scanner's report is a whole range match |
| LevelDetector.DateRangeAtComplete | services/level_detector.py:17 | a range match at a position is exactly the one the scanner reports there |
| LevelDetector.FromToAt | services/level_detector.py:56 | a reported phrase is a whole match: from-word, spaces, four digits, spaces, connector, spaces, end token |
| LevelDetector.FromToAfterWord | services/level_detector.py:56 | after the from-word, the scanner's report is a whole phrase match |
| LevelDetector.FromToAfterYear | services/level_detector.py:56 | after the start year, the scanner's report is a whole phrase match |
| LevelDetector.FromToAfterConnector | services/level_detector.py:56 | after the connector, the scanner's report is a whole phrase match |
| LevelDetector.FromToShapeOf | services/level_detector.py:56 | the parts the scanner found make up a whole phrase match |
| LevelDetector.FromToPartsFound | services/level_detector.py:56 | each sub-scanner, run where a phrase match puts its part, finds exactly that part |
| LevelDetector.FromToAtComplete | services/level_detector.py:56 | a phrase match at a position is exactly the one the scanner reports there |
| LevelDetector.MatchAtComplete | services/level_detector.py:8-57 | wherever a match starts, the scanner reports it: the same match for the date patterns, and for year mentions the same number with the longest unit |
| LevelDetector.ScannerSound | services/level_detector.py:9-57 | where no match starts, the scanner reports none |
| LevelDetector.NoMatchAt | services/level_detector.py:9-57 | where the scanner reports nothing, no match starts |
| LevelDetector.FindAll | services/level_detector.py:9 | every match found has the pattern's captured shapes |
| LevelDetector.FindAllEmpty | services/level_detector.py:9-57 | `re.findall` finds nothing exactly when no match starts anywhere in the text |
| LevelDetector.FindAllNone | services/level_detector.py:9-57 | where `re.findall` finds nothing, the scanner reports nothing at any later position |
| LevelDetector.FindAllSkips | services/level_detector.py:9-57 | `re.findall` passes over positions where no match starts |
| LevelDetector.FindAllLeftmost | services/level_detector.py:9-57 | the first match found starts at the leftmost position where the pattern matches, and is that match |
| LevelDetector.FractionValue | services/level_detector.py:12 | the digits after a decimal point are worth at least 0 and less than 1, and at least the first digit's tenths |
| LevelDetector.DecimalValue | services/level_detector.py:12 | `float()` of a captured decimal succeeds, is non-negative, and is the digits' value for a whole number |
| LevelDetector.DecimalWithFraction | services/level_detector.py:12 | `float("I.F")` is I plus the fraction F, so it lies between I and I + 1 |
| LevelDetector.TwoAndAHalf | services/level_detector.py:8-13 | "2.5" counts as 2.5 years |
| LevelDetector.DecimalShape | services/level_detector.py:8-12 | a decimal is a digit run, optionally followed by a dot and a digit run |
| LevelDetector.YearToken | services/level_detector.py:32-34 | a four-digit token is that year, with the default month (1 for a start, 12 for an end) |
| LevelDetector.SlashToken | services/level_detector.py:25-28 | an `MM/YYYY` token splits into month and year |
| LevelDetector.HyphenToken | services/level_detector.py:25-34 | a token with '-' that the pattern accepts fails to parse, so only its own span is dropped |
| LevelDetector.DateTokenShape | services/level_detector.py:17-34 | a date token parses exactly when it has no '-' |
| LevelDetector.PresentSpelling | services/level_detector.py:36-38 | any spelling of a present word that lower-cases to it ends at the supplied current month |
| LevelDetector.RangeYears | services/level_detector.py:23-54 | a range adds a non-negative amount, which is positive exactly when both tokens parse and the month-exact span is positive, and is then that span |
| LevelDetector.YearToYearRange | services/level_detector.py:33-50 | "YYYY – YYYY" adds the year difference plus 11/12 when that is positive |
| LevelDetector.MonthToPresentRange | services/level_detector.py:25-50 | "MM/YYYY – present" adds the years and months up to the current month when that is positive |
| LevelDetector.CapturedRange | services/level_detector.py:17-54 | for a captured range, the start parses exactly when it has no '-', and the end exactly when it is a present word or has no '-' |
| LevelDetector.PhraseYears | services/level_detector.py:58-70 | a from-to phrase adds a non-negative amount |
| LevelDetector.CapturedPhrase | services/level_detector.py:56-70 | a captured from-to phrase adds the whole-year difference when positive, and nothing otherwise |
| LevelDetector.Contribution | services/level_detector.py:10-70 | each match adds a non-negative amount |
| LevelDetector.PassTotal | services/level_detector.py:10-70 | a pass adds a non-negative amount |
| LevelDetector.YearsInText | services/level_detector.py:5-72 | the unrounded total of the three passes is non-negative |
| LevelDetector.YearCountIgnoresNow | services/level_detector.py:10-15 | year mentions do not depend on the current date |
| LevelDetector.PassTotalAppend | services/level_detector.py:23-54 | a pass over two lists of matches adds up their separate totals |
| LevelDetector.PassTotalRemove | services/level_detector.py:23-54 | each match's contribution is a separate summand of its pass |
| LevelDetector.NoDeduplication | services/level_detector.py:6-72 | a year mention and a date range count both, even when they describe the same period |
| LevelDetector.AddYearCounts | services/level_detector.py:10-15 | the first loop adds the pass total of the year mentions |
| LevelDetector.AddDateRanges | services/level_detector.py:23-54 | the second loop adds the pass total of the date ranges |
| LevelDetector.AddFromToPhrases | services/level_detector.py:58-70 | the third loop adds the pass total of the from-to phrases |
| LevelDetector.ParseYearsFromText | services/level_detector.py:5-72 | the result is the three pass totals rounded to one decimal, and non-negative |
| LevelDetector.FindWord | services/level_detector.py:91 | the reported keyword occurrence, letter case ignored, is the leftmost, and None means there is none |
| LevelDetector.SectionEnd | services/level_detector.py:90 | the section ends at the first section boundary after the keyword |
| LevelDetector.KeywordSection | services/level_detector.py:90-93 | a keyword's section exists exactly when the keyword occurs, and it starts with the keyword; when the search finds the keyword, the section is the text from there to the section end |
| LevelDetector.SectionFrom | services/level_detector.py:90-91 | the text taken from a match position begins with the matched keyword |
| LevelDetector.KeywordSectionAt | services/level_detector.py:90-93 | the section runs from the keyword's leftmost occurrence to the first section boundary after the keyword |
| LevelDetector.FindWordLeftmost | services/level_detector.py:90-93 | the search for a keyword finds its leftmost occurrence |
| LevelDetector.FirstKeywordWins | services/level_detector.py:89-94 | the first keyword in list order that occurs decides the section |
| LevelDetector.SkipAbsentKeywords | services/level_detector.py:89-94 | keywords that do not occur are skipped |
| LevelDetector.NoKeywordWholeText | services/level_detector.py:96-97 | with no keyword the whole text is the section |
| LevelDetector.LevelForYears | services/level_detector.py:101-108 | the thresholds never give fresher |
| LevelDetector.LevelForYearsMonotone | services/level_detector.py:101-108 | more years never give a lower level |
| LevelDetector.DetectLevel | services/level_detector.py:75-108 | the level is the threshold of the rounded years of the chosen section, and never fresher |
| InfoExtractor.LastBoundary | services/info_extractor.py:6 | the largest word boundary in a range, or None when there is none |
| InfoExtractor.TldEnd | services/info_extractor.py:6 | the greatest end of a top-level domain of two or more letters at a word boundary, which is where `{2,}` stops giving characters back; None when no end works |
| InfoExtractor.DomainDot | services/info_extractor.py:6 | the rightmost dot that a working top-level domain follows, which is where the greedy domain stops giving characters back; None when no dot works |
| InfoExtractor.EmailAt | services/info_extractor.py:6 | a reported end makes the text between the start and it an e-mail match |
| InfoExtractor.EngineEmailUnique | services/info_extractor.py:6 | at a given start the engine's match (last working dot, then longest top-level domain) is unique |
| InfoExtractor.EmailAtIsEngine | services/info_extractor.py:6 | the end `EmailAt` reports is the engine's match at that start |
| InfoExtractor.EmailAtComplete | services/info_extractor.py:6 | whenever an e-mail match starts at a position, the scanner finds one there |
| InfoExtractor.NoMatchWhereNoneFound | services/info_extractor.py:6-7 | when the scanner finds nothing at a start, no match starts there |
| InfoExtractor.FirstEmail | services/info_extractor.py:7 | the leftmost start of an e-mail match with the end `EmailAt` reports there, or None when there is none |
| InfoExtractor.ExtractEmail | services/info_extractor.py:5-10 | the result is "" exactly when nothing matches, and otherwise the engine's match at the leftmost start |
| InfoExtractor.ExtractEmailIs | services/info_extractor.py:5-10 | conversely, the engine's match at the leftmost start is the result |
| InfoExtractor.MultiLevelDomain | services/info_extractor.py:5-10 | in "x@hust.edu.vn" the shorter "x@hust.edu" also matches, but the whole address is found |
| InfoExtractor.EmailHasOneAt | services/info_extractor.py:5-10 | a non-empty e-mail contains exactly one '@' |
| InfoExtractor.ShapeHasOneAt | services/info_extractor.py:6 | a text of the e-mail shape holds its '@' at one place and nowhere else |
| InfoExtractor.Filter | services/info_extractor.py:14 | filtering keeps only characters of the input that pass the test |
| InfoExtractor.CleanPhoneText | services/info_extractor.py:14 | the cleaned text holds only digits, '+', whitespace, '-' and parentheses |
| InfoExtractor.CleanIdempotent | services/info_extractor.py:14 | cleaning twice is cleaning once |
| InfoExtractor.CleanKeepsPhoneChars | services/info_extractor.py:14 | text made of digits, '+' and separators is left unchanged by cleaning |
| InfoExtractor.VnDigitAt | services/info_extractor.py:15 | the position of the `[3-9]` digit after the `0` or `+84` prefix, which is unique |
| InfoExtractor.GroupsEnd | services/info_extractor.py:15 | the greedy run of separator-digit groups has the most groups possible |
| InfoExtractor.DigitGroupsOrder | services/info_extractor.py:15 | more groups end no earlier, and equally many groups end at the same place |
| InfoExtractor.DigitGroupsChars | services/info_extractor.py:15 | digit groups hold only digits and separators |
| InfoExtractor.VnMatchAt | services/info_extractor.py:15 | the longest mobile-number match at a start, or None when there is none |
| InfoExtractor.VnMatchAtAsWritten | services/info_extractor.py:15 | the longest match of the mobile pattern as written, or None when there is none |
| InfoExtractor.IntlMatchAt | services/info_extractor.py:16 | the longest international match at a start, or None when there is none |
| InfoExtractor.PlainMatchAt | services/info_extractor.py:17 | the longest 10-11 digit match at a start, or None when there is none |
| InfoExtractor.PhoneMatchAt | services/info_extractor.py:15-17 | a pattern's longest match at a start, or None when there is none |
| InfoExtractor.FirstPhoneMatch | services/info_extractor.py:26-27 | a pattern's first match: the leftmost start and the longest match there, or None when there is none |
| InfoExtractor.PhoneMatchChars | services/info_extractor.py:15-17 | every phone match holds only digits, '+' and separators |
| InfoExtractor.RemoveSeparators | services/info_extractor.py:28 | the result holds no whitespace and no '-' |
| InfoExtractor.DigitCount | services/info_extractor.py:29 | a string has no more digits than characters |
| InfoExtractor.PhoneFrom | services/info_extractor.py:26-30 | a contribution is some match of the pattern in the cleaned text with its separators removed, holding 10 to 15 digits and made of digits and '+' only |
| InfoExtractor.PhoneFromMatch | services/info_extractor.py:25-30 | only the pattern's leftmost, longest match counts: without separators it is the contribution when it holds 10 to 15 digits, and otherwise the pattern contributes nothing (no later match is tried) |
| InfoExtractor.PhoneFromNoMatch | services/info_extractor.py:25-27 | a pattern that matches nowhere contributes nothing |
| InfoExtractor.FirstPhone | services/info_extractor.py:19-32 | a non-empty result is the contribution of one of the patterns; it is "" or has 10 to 15 digits, made of digits and '+' |
| InfoExtractor.FirstPhoneIsFirst | services/info_extractor.py:25-31 | the result is the contribution of the first pattern, in list order, that contributes |
| InfoExtractor.FirstPhoneNonEmpty | services/info_extractor.py:25-31 | a pattern whose first match is accepted makes the result non-empty |
| InfoExtractor.FirstPhoneEmpty | services/info_extractor.py:25-32 | when no pattern's first match is accepted, the result is "" |
| InfoExtractor.PhoneOf | services/info_extractor.py:13-32 | with the patterns as written, a non-empty phone is a match of one of them in the cleaned text, with its separators removed; the phone is "" or has 10 to 15 digits and only digits and '+' |
| InfoExtractor.PhoneOfCorrected | services/info_extractor.py:13-32 | the same, with the corrected mobile pattern |
| InfoExtractor.ExtractPhone | services/info_extractor.py:13-32 | the loop over the patterns as written returns the phone, with its digit and character bounds |
| InfoExtractor.TenDigitsGivePhone | services/info_extractor.py:17-30 | any text with ten digits in a row yields a non-empty phone, with the patterns as written and with the corrected one |
| InfoExtractor.PlainDigitsAccepted | services/info_extractor.py:17-30 | ten digits in a row are accepted by the plain-digits pattern |
| InfoExtractor.CleanKeepsDigitRun | services/info_extractor.py:14 | cleaning keeps a run of ten digits |
| InfoExtractor.GroupedMobileLostAsWritten | services/info_extractor.py:15 | "0901 234 567" is a well-formed grouped mobile number, but the pipeline as written returns "" for it |
| InfoExtractor.NoPatternAsWritten | services/info_extractor.py:19-32 | clean text that no pattern accepts yields "" |
| InfoExtractor.AsWrittenFirstMatch | services/info_extractor.py:15 | the mobile pattern as written matches "0901 234 56" in "0901 234 567" |
| InfoExtractor.AsWrittenVnMatch | services/info_extractor.py:15 | that match has only nine digits and is rejected |
| InfoExtractor.AsWrittenIntlMatch | services/info_extractor.py:16 | the international pattern needs a '+' and finds nothing |
| InfoExtractor.AsWrittenPlainMatch | services/info_extractor.py:17 | the plain-digits pattern finds no run of ten digits |
| InfoExtractor.NoTenDigitWindow | services/info_extractor.py:17 | a twelve-character text with a non-digit at index 8 has no ten-digit run |
| InfoExtractor.GroupedMobileFound | services/info_extractor.py:13-32 | with the corrected pattern, a text that is a whole grouped mobile number yields that number without separators, with 10 to 12 digits |
| InfoExtractor.GroupedMobileKept | services/info_extractor.py:13-32 | with the corrected pattern, "0901 234 567" yields "0901234567" |
| InfoExtractor.GroupedDigitCount | services/info_extractor.py:28-29 | a grouped mobile number with k groups has k + 2 digits after "0" and k + 3 after "+84", so 10 to 12 |
| InfoExtractor.ZeroPrefixDigits | services/info_extractor.py:28-29 | a grouped number with the 0 prefix and k groups has k + 2 digits |
| InfoExtractor.DigitCountIgnoresSeparators | services/info_extractor.py:28-29 | removing separators keeps every digit |
| InfoExtractor.FilterDigitsAfterSeparators | services/info_extractor.py:28-29 | counting digits after removing separators counts the same digits |
| InfoExtractor.DigitGroupsDigits | services/info_extractor.py:15 | k digit groups hold exactly k digits |
| InfoExtractor.PrefixDigits | services/info_extractor.py:15 | the prefix up to the `[3-9]` digit holds exactly 2 digits after "0" and 3 after "+84" |
| InfoExtractor.FirstLines | services/info_extractor.py:38 | at most the first ten lines, as a prefix, and exactly ten when there are that many |
| InfoExtractor.NameAmongFirst | services/info_extractor.py:38-51 | the name is "" exactly when no stripped line passes, and otherwise the first stripped line that passes |
| InfoExtractor.NameProperties | services/info_extractor.py:35-51 | the name is the first passing stripped line among the first ten, and "" exactly when none of them passes |
| InfoExtractor.NameIsStripped | services/info_extractor.py:39 | a non-empty name is stripped and holds no line break |
| InfoExtractor.NameIgnoresLaterLines | services/info_extractor.py:36-38 | lines after the tenth never change the name |
| InfoExtractor.CvLineSkipped | services/info_extractor.py:44-47 | any line containing "cv" in any case is never a name |
| InfoExtractor.ExtractName | services/info_extractor.py:35-51 | the loop over the first ten lines returns the name |
| InfoExtractor.ExtractInfo | services/info_extractor.py:54-60 | the name, phone and e-mail fields are `NameOf`, `PhoneOf` (the patterns as written) and `ExtractEmail` of the text, and location is ""; so the name is "" or a passing line, the phone is "" or has 10 to 15 digits and only digits and '+', and the e-mail is "" exactly when nothing matches |

## Left out

- Not part of this model, because they do I/O or hold no logic:
  - services/llm_service.py (network clients).
  - main.py (HTTP routes).
  - services/extraction.py (PDF and DOCX decoding through foreign libraries).
  - services/prompt_builder.py (a fixed template).
  - config.py (environment variables).
  - models/schemas.py (declarations).
- The logging calls of `calculate_overall_score`, and the `missing_core` and `missing_bonus` lists that only feed them, are left out. They do not affect the result.
- A `None` level is modelled as the empty string, which is what `level or ""` makes of it.
- An infinite float score is left out. `int()` of it raises `OverflowError`, which the service does not catch. A NaN score is modelled: `int()` raises `ValueError`, which is caught, so it counts 0.
- Float representation error in `round(total_years, 1)` is left out. The total is kept exact and rounded half to even to tenths. The scoring mean is not exact as a float either, but its rounded value is: see the note on weights above.
- `datetime.now()` is the parameter `now`.
- The unused `text_lower` of `detect_level` is left out.
- Text is restricted to ASCII in several places:
  - `\d` means ASCII digits and `\s` ASCII whitespace. Unicode digits and spaces (such as U+00A0, U+0085 or U+001C–U+001F) are left out.
  - `int()` of a string accepts ASCII digits with an optional sign and surrounding ASCII whitespace. Underscores and Unicode digits are left out.
- `str.lower` covers ASCII, Latin-1 and the Vietnamese letters. Other case mappings and the special folds of `re.IGNORECASE` are left out.
- The `\w` of the e-mail pattern's `\b` covers ASCII letters, digits and `_`, Latin letters U+00C0–U+024F and U+1E00–U+1EFF. Other scripts are left out.
- LevelDetector.MatchAtComplete: for year mentions the scanner is proved to find the same number with a unit at least as long, not the very same match, because the greedy `years?` takes the longest unit while the match predicate admits any.
- LevelDetector.FindAll: its own contract states only that every match has the pattern's captured shapes. Which matches it finds is stated by `FindAllEmpty` and `FindAllLeftmost` about the first match; that it resumes after each match the way `re.findall` does is in its body.
- LevelDetector.SectionEnd: the end of the `detect_level` section is a specified boundary: a blank line, a line break followed by a letter with a ':' somewhere after it (`[^:]*` crosses lines), or the end of the text or its final line break. Regex backtracking through the lazy `.*?` is not modelled.
- InfoExtractor.PhoneOf: models the patterns as written, as `ExtractPhone` and `ExtractInfo` do. The corrected mobile pattern is `InfoExtractor.PhoneOfCorrected` (see Findings).

## Findings

| source | as written | input that shows it | evidently intended | confidence | as-written member | corrected member |
|---|---|---|---|---|---|---|
| services/info_extractor.py:15 | `[\d\s\-]{8,9}` counts separators as characters of the nine-character tail. So a grouped mobile number loses its last digits, is left with nine digits and is rejected. | "0901 234 567": the mobile pattern matches "0901 234 56" (nine digits). The international pattern needs a '+'. No ten digits stand in a row. `extract_phone` returns "". | `(?:[\s\-]?\d){8,9}`: eight or nine digits, each optionally preceded by a separator, so the grouped number yields "0901234567" | not executed | InfoExtractor.GroupedMobileLostAsWritten | InfoExtractor.GroupedMobileFound |
