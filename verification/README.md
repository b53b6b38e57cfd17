# Bank statement transaction reconstruction, modelled in Dafny

This project models the decision logic of a bank-statement parser. The
parser receives the text lines of a statement's pages. It keeps the
statement body. It folds multi-line entries into one text blob per
transaction. For each blob it works out the date, the amount, the
direction (debit, credit or unknown), a counterparty description, a
spending category and a bank reference number (UTR). It returns the
records whose rounded amount is positive.

Modules, in pipeline order:

- `Text`: character classes, ASCII case mapping, `str.strip()`, the
  whitespace collapse `re.sub(r'\s+', ' ', ...)`, and greedy run scanners.
- `Search`: `re.search` as the leftmost position where a matcher
  succeeds, and the "try these patterns in order, first match wins" chains.
- `Seqs`: generic sequence facts (first index, subsequence).
- `Cleaning`: header search, stripping, blank/header skipping and the
  stop at the first footer line; a loop-based method and its specification.
- `Grouping`: `group_transactions`; the accumulator loop, proved against a
  left-to-right definition, with the shape of the groups proved unique.
- `Dates`: the `DD MMM YYYY` signature scanner (proved against the
  declarative reading of the regex) and `%d %b %Y` parsing onto the
  Gregorian calendar; a signature that is not a date gives no date.
- `Numbers`: numeric tokens `\d+(?:,\d+)*(?:\.\d+)?` as exact decimals,
  and `round(amount, 2)` as half-even rounding to whole cents.
- `Description`: the three description patterns and the "UPI/" rule.
- `Categories`: the keyword table, tried in order.
- `Transactions`: direction, amount, reference and the record for a blob.
- `Pipeline`: cleaning, grouping, parsing and the `amount > 0` filter.

Each regex is a scanner function at a start position. Where a regex could
match more than one prefix at a start (the number pattern could stop after
any of its digits), the scanner returns the match `re` picks: every greedy
repetition runs as far as it can, and what follows it is something the
repetition cannot consume, so no backtracking changes that choice.

Behaviour of `main.py` worth noting:

- Shopping's keyword "store" comes before Healthcare in the keyword table,
  so a description holding "medical store" or "pharmacy store" is filed
  under Shopping, unless Recharge, Food & Dining or Fuel fires first
  (`Categories.StoreIsShopping`).
- Recharge is tried first, and its bare keyword "vi" fires on any
  description containing those two letters, such as "MOVIE" or "SERVICE"
  (`Categories.ViIsRecharge`).
- The capture `[^/]+` of the first description pattern runs to the next
  slash or the end of the text. Whatever follows the name in the blob,
  such as a "TRANSFER TO ..." tail, is part of the description
  (`Description.DescriptionIs`).
- The nested "UPI/" rule of `extract_description` never fires. The first
  pattern decides whenever any pattern matches, and its capture holds no
  slash (`Description.FirstPatternDecides`, `Description.NoSlashNoUpi`).
- The positional amount fallback counts the date's own day and year as
  numeric tokens. For a blob that starts with its date, it yields the day
  (two tokens) or the year (three or more) (`Transactions.FallbackReadsDate`).
- The category is always one of 13 labels: the 11 table labels,
  "Other Expense" and "Income / Transfer In" (`Categories.Categorize`).

## Model

| member | source | states |
|---|---|---|
| Text.Strip | main.py:215 | the result neither starts nor ends with whitespace, and is a slice of the input with only whitespace cut off either end |
| Text.StripTrimmed | main.py:215 | stripping a line that is already trimmed leaves it unchanged |
| Text.CollapseSpaces | main.py:92 | the collapsed text is never longer than the input |
| Text.CollapseSpacesCollapsed | main.py:92 | the result keeps every non-whitespace character in order, holds whitespace only as single spaces never adjacent, is empty exactly when the input is, and has whitespace at either end exactly where the input has |
| Text.CollapseAllSpace | main.py:92 | a non-empty run of whitespace becomes exactly one space |
| Text.CollapseAppend | main.py:92 | the collapse works run by run: cut where whitespace does not meet whitespace, the two pieces collapse independently and are concatenated |
| Text.CollapseFixed | main.py:92 | single-spaced text is left exactly as it is |
| Text.Normalize | main.py:92 | the normalised blob is trimmed, single-spaced and has the same non-whitespace characters as the raw blob |
| Text.StripKeepsNonSpace | main.py:92 | stripping removes only whitespace |
| Text.NormalizeFixed | main.py:92 | a trimmed, single-spaced blob is its own normal form |
| Text.NormalizeIdempotent | main.py:92 | normalising a normalised blob changes nothing |
| Search.Leftmost | main.py:153 | `re.search`: the match found is at the leftmost position where the pattern matches, none matches to its left, and there is no result exactly when the pattern matches nowhere |
| Search.FirstCapture | main.py:152-156 | the pattern chain has no result exactly when no pattern of the list matches anywhere |
| Search.FirstCaptureIs | main.py:152-156 | the first pattern in list order that matches anywhere supplies the capture |
| Search.FirstCaptureFrom | main.py:152-156 | every result comes from the first pattern that matches, with all earlier patterns failing |
| Cleaning.FindHeader | main.py:196-200 | the header search loop returns the index of the first line matching the column header, or none |
| Cleaning.FilterBody | main.py:213-222 | the filtering loop with its `continue`s and `break` computes the per-line pass over the body |
| Cleaning.CleanLines | main.py:196-222 | the cleaning code computes the cleaned lines: the body after the first header, filtered |
| Cleaning.KeptByWellFormed | main.py:213-222 | whatever a per-line pass keeps is neither skipped nor a stop line, and is an in-order subsequence of the cleaned-up body |
| Cleaning.KeptLinesWellFormed | main.py:213-222 | surviving lines are non-empty, trimmed, neither header nor footer lines, and an in-order subsequence of the stripped body |
| Cleaning.CleanLinesWellFormed | main.py:213-222 | every surviving line is non-empty, is its own strip, and matches neither the header pattern nor a footer phrase |
| Cleaning.CleanAfterHeader | main.py:196-203 | the survivors are an in-order subsequence of the stripped lines after the first header line, so nothing at or before the header survives |
| Cleaning.CleanStopsAtFooter | main.py:213-222 | from the first footer line of the body on, nothing affects the result |
| Cleaning.PreambleIgnored | main.py:196-203 | lines before the first header line, whatever they hold, do not affect the result |
| Cleaning.CleanKeeps | main.py:213-222 | conversely, a non-blank body line that is neither header nor footer survives, stripped, unless a footer line precedes it |
| Grouping.GroupTransactions | main.py:71-88 | the accumulator loop returns the space-joined groups of the left-to-right grouping |
| Grouping.AccumulatedStep | main.py:77-83 | one loop iteration keeps `transactions` and `current` in step with one more grouping step |
| Grouping.AccumulatedFlush | main.py:85-86 | the final flush of `current` gives the blobs of all the groups |
| Grouping.GroupsFlatten | main.py:77-86 | concatenating the groups gives back the input lines, in order, with nothing lost or duplicated |
| Grouping.GroupsWellGrouped | main.py:77-83 | no group is empty, every group after the first begins with a start line, and no other line of a group is a start line |
| Grouping.GroupsUnique | main.py:71-88 | any grouping of the lines with that shape is the one the grouper builds |
| Grouping.GroupsCount | main.py:77-86 | the number of blobs is the number of start lines, plus one when the input is non-empty and its first line is not a start line |
| Grouping.GroupsSplit | main.py:78-81 | a start line begins a new blob: the lines before it and the lines from it on are grouped separately |
| Grouping.GroupsAppend | main.py:78-81 | lines beginning with a start line are grouped apart from whatever precedes them |
| Grouping.GroupsNoStart | main.py:82-83 | lines without any start line form a single group |
| Grouping.LeadingGroup | main.py:77-83 | the leading group is exactly the run of lines before the first start line |
| Grouping.PeelStep | main.py:77-83 | taking the last line off a well-shaped grouping leaves a well-shaped grouping that one grouper step extends back |
| Dates.SignatureAt | main.py:75 | the scanner's match satisfies the declarative reading of `\d{2}\s+[A-Z]{3}\s+\d{4}` |
| Dates.SignatureAtComplete | main.py:98 | the scanner finds every match of the regex at a position, with the same split |
| Dates.MonthNumber | main.py:104 | `%b`: a month number from 1 to 12 whose abbreviation is the upper-cased text, and 0 exactly when the text names no month |
| Dates.DateOf | main.py:98-106 | a date is reported only when it is a valid calendar date read from a signature in the text; a failed parse gives no date rather than an error |
| Dates.DateOfLeftmost | main.py:98-106 | only the leftmost signature is read: the date is that signature's date when it is a valid calendar date and none otherwise, whatever signatures follow |
| Dates.DateOfNoSignature | main.py:98-100 | a text without any signature has no date |
| Dates.StatementDateSignature | main.py:75 | a printed statement date is a start line |
| Dates.DateOfStatementDate | main.py:98-106 | a printed statement date, whatever follows it, is read back as the same calendar date |
| Numbers.NumberAt | main.py:109 | a numeric token starts exactly where a digit is, and never ends in front of a digit |
| Numbers.NumberAtValue | main.py:109-110 | a token is a digit run with further ",digits" groups, every comma followed by a digit, then optionally a point and digits; it takes every following ",digits" group and a following ".digits" fraction; its value is its digits with the commas removed, scaled by the number of fraction digits |
| Numbers.TokenShapeUnique | main.py:109 | two readings of that shape from one start that both stop in front of a non-digit have the same end and value, so the token is the greedy match |
| Numbers.CommaAmount | main.py:109-110 | the token "1,234.50" is the whole text and denotes 1234.50 exactly |
| Numbers.RemoveCommas | main.py:110 | `replace(",", "")` leaves no comma |
| Numbers.RemoveCommasNoComma | main.py:110 | text without a comma is left unchanged |
| Numbers.RemoveCommasAppend | main.py:110 | comma removal distributes over concatenation, so every other character is kept in order |
| Numbers.DigitRunToken | main.py:109-110 | a bare digit run is one whole-number token of its digits' value |
| Numbers.AmountTokenAt | main.py:109-110 | a printed amount followed by a space or the end is one token whose value is exactly the printed amount |
| Numbers.TokensSkip | main.py:109 | text without digits contributes no token |
| Numbers.Round2 | main.py:163 | `round(amount, 2)`: the whole number of cents nearest the amount, even on a tie, and exact for at most two decimals |
| Numbers.RoundsToZero | main.py:163 | an amount rounds to 0.00 exactly when it is at most half a cent |
| Description.CrDrAt | main.py:25 | a match of the first description pattern is a slash, "CR" or "DR" in any case, a slash, digits and a slash, and captures a non-empty slash-free run that ends at a slash or the end of the text |
| Description.SegmentAt | main.py:25 | the first pattern matches exactly where its marker scan succeeds, and its capture is the non-empty, slash-free text between the bounds that scan finds |
| Description.UpiSegmentAt | main.py:26 | the second pattern matches only where the first matches three characters further on, with the same capture |
| Description.TransferUpiAt | main.py:27 | the third pattern matches only where, further on, "UPI" in any case is followed by a match of the first pattern |
| Description.UpiGroupAt | main.py:27 | a UPI group is there only where the first pattern matches just after its "UPI" |
| Description.LastSegmentAt | main.py:38 | `/([^/]+)$` captures the non-empty slash-free text after a slash up to the end |
| Description.UpiSegmentDominated | main.py:25-26 | wherever the second pattern matches, the first matches somewhere too |
| Description.UpiGroupDominated | main.py:25-27 | wherever the third pattern's group is, the first pattern matches somewhere too |
| Description.TransferUpiDominated | main.py:25-27 | wherever the third pattern matches, the first pattern matches somewhere too |
| Description.FirstPatternDecides | main.py:24-32 | the pattern chain's result is always the first pattern's leftmost capture, or none |
| Description.NoSlashNoUpi | main.py:36 | slash-free text never contains "UPI/", so the nested rule cannot fire |
| Description.DescriptionIs | main.py:22-43 | the description is "Unknown" when the first pattern matches nowhere, and otherwise the stripped capture of its leftmost match |
| Description.DescriptionHasNoSlash | main.py:22-43 | a description never contains a slash |
| Description.NarrationSegment | main.py:25 | the first pattern matches a narration "/DR/<ref>/<name>" at its marker, capturing the name |
| Description.MarkerRead | main.py:25 | a printed marker followed by a name up to a slash or the end is matched, capturing the name |
| Description.NoMarkerWithoutSlash | main.py:25 | the first pattern cannot match where there is no slash |
| Description.DescriptionOfNarration | main.py:22-43 | a narration whose prefix has no slash yields exactly its trimmed name |
| Categories.FiringFrom | main.py:65-67 | the first rule, from a given one on, whose keywords occur in the description; no earlier rule fires |
| Categories.FirstRuleFrom | main.py:65-69 | the label chosen is a known label, and is "Other Expense" exactly when no rule fires |
| Categories.Categorize | main.py:45-69 | a credit is always "Income / Transfer In"; otherwise a table label or "Other Expense", the latter exactly when no keyword occurs in the lower-cased description; the result is always one of the 13 labels |
| Categories.CategorizeFirstMatch | main.py:51-67 | a non-credit gets rule k's label exactly when rule k fires and no earlier rule does |
| Categories.StoreIsShopping | main.py:55-67 | a description with "store" that matches none of the first three rules is Shopping, even when it also says "medical" or "pharmacy" |
| Categories.ViIsRecharge | main.py:52-67 | any non-credit description containing "vi" is a Recharge |
| Transactions.FallbackAmount | main.py:123-129 | fewer than two tokens give 0, exactly two give the first, three or more give the second |
| Transactions.TransferTailEnd | main.py:120 | the shared tail reads whitespace, digits, whitespace, then the given number of separators `-\s+`, and ends strictly after its start |
| Transactions.SeparatorsEnd | main.py:120 | the scanned text is exactly the given number of separators, each a dash followed by whitespace |
| Transactions.MarkerRefAt | main.py:146 | a match is a "/CR/" or "/DR/" marker and captures the whole digit run after it, at least six digits |
| Transactions.TransferRefAt | main.py:147 | a match is "TRANSFER FROM" or "TRANSFER TO", whitespace, and captures the whole digit run that follows, at least ten digits |
| Transactions.LongNumberAt | main.py:148 | the capture is the whole digit run at the position, at least twelve digits, with no word character just before or just after it |
| Transactions.RefLabelAt | main.py:149 | a match is "Ref No", any points and colons, any whitespace, and captures the whole digit run that follows, at least six digits |
| Transactions.ReferenceOf | main.py:144-156 | the reference is either absent or a run of at least six digits |
| Transactions.CaptureIsDigits | main.py:144-156 | whichever reference pattern decides, its capture is at least six digits |
| Transactions.MarkerReferenceFirst | main.py:145-156 | a "/CR/" or "/DR/" marker followed by six or more digits supplies the reference, whatever else the text holds |
| Transactions.ReferenceOfNarration | main.py:146-156 | the reference of a narration is its marker's digits |
| Transactions.NarrationMarkerRef | main.py:146 | at a narration's marker, the first reference pattern captures the marker's digits |
| Transactions.TransferReads | main.py:120 | after a printed "TRANSFER TO" or "TRANSFER FROM" head, the structural pattern's tail reads exactly the printed amount |
| Transactions.DebitPatternAt | main.py:120 | the debit pattern matches a printed debit tail and captures its amount |
| Transactions.CreditPatternAt | main.py:134 | the credit pattern matches a printed credit tail and captures its amount |
| Transactions.DebitFound | main.py:117-122 | when the debit pattern's leftmost match captures an amount, the transaction is a debit of that amount; earlier "TRANSFER TO"s that the pattern does not match are passed over |
| Transactions.CreditFound | main.py:131-136 | with no debit marker, when the credit pattern's leftmost match captures an amount, the transaction is a credit of that amount |
| Transactions.DebitAmount | main.py:117-122 | a text where the debit pattern first matches at a printed debit tail is a debit of exactly the printed amount |
| Transactions.CreditAmount | main.py:131-136 | with no debit marker, a text where the credit pattern first matches at a printed credit tail is a credit of exactly the printed amount |
| Transactions.ParseDebit | main.py:117-163 | such a blob is parsed as a debit whose rounded amount equals the printed amount |
| Transactions.ParseCredit | main.py:131-167 | such a blob is parsed as income whose rounded amount equals the printed amount |
| Transactions.DateLedTokens | main.py:109-110 | a blob led by a statement date has the date's day and year as its first two numeric tokens |
| Transactions.TwoLeadingTokens | main.py:109 | two tokens with no digit between them are the first two tokens |
| Transactions.DateDayToken | main.py:109 | the day of a printed statement date is a token of its own |
| Transactions.DateYearToken | main.py:109 | the year of a printed statement date is a token of its own |
| Transactions.FallbackReadsDate | main.py:123-129 | for a blob led by its date, the positional fallback yields the day when no other number follows, else the year |
| Transactions.DirectionAndAmount | main.py:114-141 | the branches set the direction by the debit test first and the amount from the structural pattern, else the positional fallback; an unknown direction keeps amount 0 |
| Transactions.FindReference | main.py:144-156 | the loop over the reference patterns returns the capture of the first that matches, which is absent or at least six digits |
| Transactions.ParseTransaction | main.py:90-171 | the record: DEBIT exactly when a debit marker is present, CREDIT exactly when only a credit marker is, amount 0 when UNKNOWN, every credit filed as income, the reference absent or digits |
| Pipeline.KeepPositive | main.py:229-233 | every record kept has a positive amount |
| Pipeline.KeepPositiveSubseq | main.py:229-233 | the filter keeps records in their original order and keeps every record with a positive amount |
| Pipeline.ParseAndFilter | main.py:229-233 | the parse-and-filter loop returns the positive records in blob order, and every credit among them is income |
| Pipeline.CreditsAreIncome | main.py:48-49 | among the records returned, every credit is filed as income |
| Pipeline.ParsePdfLines | main.py:196-233 | the handler's pipeline returns the statement's records, each with a positive amount, credits filed as income |
| Pipeline.StatementFromBlobs | main.py:226-233 | every returned record is the parse of a blob, in blob order |
| Pipeline.StatementComplete | main.py:229-233 | every blob whose parse has a positive rounded amount is returned |
| Pipeline.StatementIgnoresPreamble | main.py:196-203 | lines before the first header line never affect the result |
| Pipeline.StatementStopsAtFooter | main.py:213-222 | nothing from the first footer line of the body on affects the result |

## Left out

- The web application, the CORS middleware, the upload handler's I/O and
  the temporary file (`main.py:9-18`, `174-194`, `235`): transport and
  filesystem plumbing. The model takes the statement's text lines as input.
- PDF opening and page text extraction (`pdfplumber`): a foreign library.
  The lines it produces are the pipeline's input.
- The `print` diagnostics: no behavioural effect.
- Floating point: `float(...)` and `round(amount, 2)` are modelled on exact
  decimals, with half-even rounding to cents. A binary float can differ
  where the decimal value has no exact binary form: `round(0.005, 2)` is
  0.01 in Python but 0.00 in the model, so Python keeps such a record and
  the model drops it at the `amount > 0` filter; `round(2.675, 2)` is 2.67
  in Python and 2.68 in the model.
- Dates.DateOf: pandas' Timestamp range (years 1677 to 2262) is not
  modelled. Any year from 1 on with a valid month and day gives a date.
- The output date format (`strftime("%d-%b-%Y")`): the record holds the
  calendar date itself.
- Text.IsDigit, Text.IsWordChar, Text.Lower, Text.Upper: `\d`, the word
  boundary `\b`, `re.I`, `lower()` and `upper()` are modelled on ASCII only. Non-ASCII digits and letters are
  treated as other characters.
- Transactions.TransferReads: stated for printed amounts without thousands
  separators, with single spaces between the pieces. For a comma-grouped
  amount, the value the pattern captures is given only through the token
  scanner's own lemma `Numbers.NumberAtValue`.
- Transactions.ParseDebit, Transactions.ParseCredit: stated for printed
  amounts with at most two decimals, where rounding is exact.
- Dates.DateOfStatementDate: stated for years up to 9999, the years a
  four-digit signature can print.
