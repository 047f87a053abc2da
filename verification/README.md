# Claims pipeline model

A Dafny model of the core of an insurance first-notice-of-loss pipeline. The
text of a claim document goes through three stages:

1. The **extractor** turns line feeds into spaces. It then runs five
   case-insensitive, label-anchored, leftmost searches (policy number, date
   of loss, time of loss, estimate amount, description of accident) and
   classifies the claim type as injury, vehicle or property.
2. The **validator** lists the mandatory attributes that are absent or
   empty. It also checks that the estimated damage is a positive number.
3. The **router** applies a six-rule, first-match decision table. The result
   is a route, a reasoning sentence and a fixed confidence.

Modules, one per concern:

- `Wrappers`: `Option`.
- `Text`:
  - ASCII character classes and lower-casing;
  - substring occurrence, with an executable search proved equal to its
    definition;
  - `str.strip()` with a uniqueness characterisation;
  - `sep.join(...)`;
  - character replacement and deletion.
- `Numbers`:
  - the decimal subset of `float(...)`, parsed into an exact `real`;
  - the fixed-notation `repr` of a float that the fast-track reasoning
    prints, proved to read back as the same value.
- `Models`: the sixteen-attribute `ClaimData` record and its dictionary view
  (`__dict__`, `.get`).
- `Extractor`: every regular expression written out as an explicit scanner.
  - `Capture` is the value grammar at one position.
  - `MatchAfterLabel` handles the optional separator, with its
    backtracking.
  - `Search`/`Find` are the leftmost scan of `re.search`.
  - `ClassifyType` and `Extract` are the classifier and the whole
    extractor.
- `Validator`: `MandatoryFields`, `FindMissingFields`, `ValidateConsistency`.
- `Router`: `RouteClaim` (rules 1 and 2) over `RouteClean` (rules 3 to 6).
- `Pipeline`: `Process`, the three stages chained as the command-line entry
  point chains them. It comes with lemmas that relate what the router
  decides to the document text.
- `SampleClaim`: a four-line first-notice document followed through every
  stage. Its values are found where they are written, and the claim ends on
  the fast track at 0.92.

### Consequences of the patterns as written

- **A negative amount is never captured.** The amount pattern
  `\$?[\d,]+` (extractor.py:117) has no sign.
  - "ESTIMATE AMOUNT: -500" captures nothing. The claim is then routed for
    missing `estimated_damage` (confidence 0.60, router.py:15-21), never for
    an invalid amount (0.65, router.py:26-32).
  - "ESTIMATE AMOUNT -500" captures "500": the optional `[:\-]` takes the
    minus sign as the separator.
  - `Extractor.SignedAmountAfterLabel` proves both cases.
  - `Pipeline.InvalidIffZeroDamage` proves that on extracted data the only
    finding validator.py:21-24 can raise is for an amount made of zeros
    alone.
- **Policy numbers may contain lower-case letters.** The search passes
  `re.IGNORECASE` (extractor.py:86), and that flag applies to the character
  class `[A-Z0-9\-]` as well as to the label.
- **`time_of_loss` keeps the document's letter case** (for example "am"). The
  capture group is stored unchanged (extractor.py:111).
- **A clock time hides the meridiem.** `(AM|PM)` must follow the separator
  directly (extractor.py:106), so "TIME OF LOSS: 10:30 AM" leaves the time of
  loss unset. `Extractor.ClockTimeNotCaptured` proves this.

## Model

| member | source | states |
|---|---|---|
| Models.EmptyClaim | models.py:7-22 | a freshly built record has every attribute absent, whatever name is asked for |
| Models.Get | models.py:7-22 | a name that is not one of the sixteen attributes reads as absent |
| Models.Fields | extractor.py:147 | the dictionary view has one entry per attribute, in declaration order, each holding that attribute's value |
| Models.FieldsRoundTrip | models.py:5-22 | the record is recovered exactly from its dictionary view |
| Models.GetDeterminesRecord | models.py:7-22 | two records that agree on every attribute name are equal |
| Models.AttributeNamesDistinct | models.py:7-22 | the sixteen attribute names are pairwise different |
| Models.Present | validator.py:8 | an optional text is truthy exactly when reading it with `or ""` gives a non-empty text, and a truthy value is that text |
| Text.ReplaceChar | extractor.py:78 | the replacement keeps the length; every position that held the replaced character holds the replacement, every other position is unchanged, and no replaced character is left |
| Text.ReplaceCharAppend | extractor.py:78 | replacing in a concatenation is the concatenation of the replaced parts |
| Text.DeleteChar | extractor.py:122 | no deleted character is left, the result holds exactly the other characters of the input, it is never longer, and a text without the character is returned unchanged |
| Text.DeleteCharAppend | extractor.py:122 | deleting from a concatenation is the concatenation of the deletions, so the kept characters stay in their order |
| Text.DeleteCharBetween | extractor.py:122 | deleting the one character that joins two texts free of it gives the two texts joined directly |
| Text.Strip | extractor.py:133 | the stripped text starts and ends with a non-space and is the input with only whitespace removed around it |
| Text.StripUnique | extractor.py:133 | any non-space-bounded text that the input pads with whitespace equals the stripped text |
| Text.StripIdempotent | extractor.py:133 | stripping twice gives the same text as stripping once |
| Text.LowerChar | extractor.py:138 | a lower-cased character is never an upper-case letter; upper-case letters move to their lower-case partner and every other character is unchanged |
| Text.Lower | extractor.py:138 | the lower-cased text has the same length, lower-cases each character in place, and holds no upper-case letter |
| Text.Contains | router.py:40 | the executable substring test is true exactly when the word occurs at some position |
| Text.JoinMentions | router.py:19 | every item of a joined list occurs in the joined text, at its computed offset |
| Text.JoinSeparators | router.py:19 | the separator sits right after every item but the last, so with the parts at their offsets and the length every character of the joined text is fixed |
| Text.Join | router.py:19 | joining nothing gives the empty text, joining one item gives that item, and otherwise the length is the items' total plus one separator between each pair |
| Numbers.Parse | validator.py:22 | a value is read exactly when the text is a signed decimal literal; the sign and the digit parts are those of the text |
| Numbers.DigitsParse | validator.py:21-22 | a non-empty digit string reads as the integer it denotes |
| Numbers.WholeValueZero | validator.py:23 | a digit string denotes zero exactly when every digit is '0' |
| Numbers.Render | router.py:69 | the printed amount reads back as a number of the same sign and value, shows at least one fraction digit, and has no superfluous leading zero |
| Numbers.RenderExample | router.py:69 | 1200 prints as "1200.0" |
| Numbers.RenderCanonical | router.py:69 | the printed amount has no '+', starts with '-' exactly for a negative amount, and ends in a non-zero digit or in ".0", so "1200.00" is never printed |
| Extractor.Flatten | extractor.py:78 | the flattened text has the same length and no line feed; every line feed becomes a space and every other character is unchanged |
| Extractor.SameIgnoringCaseIffLower | extractor.py:86 | the case-insensitive label comparison agrees exactly when the lower-cased texts are equal |
| Extractor.DateAt | extractor.py:94-100 | a captured date has the shape 1-2 digits, '/', 1-2 digits, '/', 4 digits and starts at the tried position; a date is captured exactly when some length of text there has that shape |
| Extractor.DateScanComplete | extractor.py:95 | the date scan succeeds exactly when some prefix at the position has the date shape, and then reports such a prefix |
| Extractor.RunCapture | extractor.py:84 | a greedy run is captured exactly when the minimum count of class characters follows the position; it starts there, holds only class characters, and stops at the end or at the first character outside the class |
| Extractor.MeridiemAt | extractor.py:106 | a time is captured exactly when the next two characters are AM or PM in any case, and is taken from the text there |
| Extractor.Capture | extractor.py:83-133 | a capture has its pattern's value shape and is taken from the text where the value starts (after an optional '$' for amounts); the description grammar always matches, up to the end of a line-free text |
| Extractor.CaptureExactly | extractor.py:84-128 | each value grammar matches exactly when its leading characters are there (six policy characters, a date, AM/PM, one amount character after the optional '$'); greedy runs stop only at the end or at a character outside their class; the description stops only at a line feed or the end |
| Extractor.NoCaptureAtSpace | extractor.py:84-117 | no value grammar other than the description starts at a whitespace character |
| Extractor.MatchAfterLabel | extractor.py:83-133 | a match after the optional separator has the value shape and occurs in the text; the description always matches, and in a line-free text it is the suffix after the longest separator |
| Extractor.MatchAfterLabelSpan | extractor.py:84 | a match is the capture at the end of some separator span, and it is the capture after the longest separator whenever the grammar matches there |
| Extractor.MatchAfterLabelComplete | extractor.py:84 | the separator and value fail to match exactly when no separator span is followed by a capture, so trying the longest separator and then the bare whitespace misses nothing |
| Extractor.SpanEnd | extractor.py:84 | a separator span ends inside the leading whitespace, or inside the whitespace after a ':' or '-' that follows it |
| Extractor.MatchAfterLabelFails | extractor.py:84 | a failed match is never a description match, and the value grammar failed both after the whitespace and after any separator |
| Extractor.NoCaptureInsideSpan | extractor.py:84 | where the value grammar fails at both ends tried, it fails at every end of a separator span |
| Extractor.SignedAmountAfterLabel | extractor.py:116-122 | after "ESTIMATE AMOUNT:" a minus sign stops the match; without the colon the minus is the separator and "500" is captured |
| Extractor.ClockTimeNotCaptured | extractor.py:105-111 | "TIME OF LOSS: 10:30 AM" leaves the time of loss unset, because AM/PM must follow the separator directly |
| Extractor.FirstFrom | extractor.py:83-87 | the scan returns the first position in range that matches, or none when no position in range does |
| Extractor.Search | extractor.py:83-87 | a reported start position lies within the text and the whole pattern matches there |
| Extractor.SearchIsLeftmost | extractor.py:83-87 | the reported position is the leftmost match, and the search fails exactly when the pattern matches nowhere |
| Extractor.Find | extractor.py:83-89 | a found value has its pattern's value shape and occurs in the searched text |
| Extractor.FindIsLeftmostMatch | extractor.py:83-89 | the found value is what the value grammar captures after the leftmost label at which the whole pattern matches |
| Extractor.FindIsCaptureAtLeftmostHit | extractor.py:83-89 | a reported value is the capture after some position that is the leftmost match of the whole pattern |
| Extractor.FindNoneIffNoHit | extractor.py:88-89 | nothing is found exactly when the pattern matches at no position |
| Extractor.LabelStartsWith | extractor.py:84-86 | a label found ignoring case agrees with the anchor's first two characters ignoring case |
| Extractor.NoLabelWhereStartDiffers | extractor.py:84-86 | no label starts where the first or second character disagrees with it, ignoring case |
| Extractor.LabelAtOccurrence | extractor.py:84-86 | a label written verbatim is found where it is written |
| Extractor.FindAtFirstLabel | extractor.py:83-89 | where the label first occurs at a position and the value grammar matches after it, the search reports that value |
| Extractor.SearchAtFirstLabel | extractor.py:83-87 | where the whole pattern matches at a position and the label occurs nowhere before it, the search stops there |
| Extractor.ClassifyType | extractor.py:138-145 | the type is injury when "injury" occurs in the lower-cased text, else vehicle when "vehicle" occurs, else property |
| Extractor.CommasRemovedLeaveDigits | extractor.py:122 | removing the commas from a digits-and-commas capture leaves only digits |
| Extractor.Assemble | extractor.py:75 | the ten attributes the extractor never sets stay absent |
| Extractor.Extract | extractor.py:70-147 | policy numbers have at least six letters, digits or '-'; dates have the date shape; times are AM/PM in any case; damage is digits only; the description is stripped and line-free; the claim type is always one of the three; the other ten attributes are absent |
| Extractor.ExtractTakesSearchResults | extractor.py:78-145 | each attribute is what its search reports in the flattened text: policy, date and time unchanged, damage with the commas deleted, description stripped; the claim type is the classification |
| Extractor.DamageDigits | extractor.py:121-122 | damage is stored exactly when it was captured; it is the capture with its commas deleted, digits only |
| Extractor.StrippedDescription | extractor.py:132-133 | a description is stored exactly when it was captured, as the capture stripped, and is line-free |
| Extractor.AttributeFollowsFind | extractor.py:88-133 | each label-anchored attribute is set exactly when its search finds a match in the flattened text |
| Extractor.AttributeSetIffMatch | extractor.py:83-133 | each label-anchored attribute is set exactly when its whole pattern matches at some position |
| Extractor.NoLabelNoAttribute | extractor.py:83-133 | without its label anywhere in the flattened text (ignoring case), an attribute stays absent |
| Extractor.DescriptionHitIsLabel | extractor.py:128 | the description pattern matches exactly where its label occurs |
| Extractor.DescriptionFoundIffLabel | extractor.py:127-131 | the description search succeeds exactly when its label occurs |
| Extractor.DescriptionSetIffLabel | extractor.py:127-133 | the description is set exactly when "DESCRIPTION OF ACCIDENT" occurs, ignoring case |
| Extractor.DescriptionFindIsSuffix | extractor.py:127-131 | in a line-free text the description found is the suffix after the first label and its longest separator |
| Extractor.DescriptionIsStrippedSuffix | extractor.py:127-133 | a description is the stripped remainder of the flattened text after the first "DESCRIPTION OF ACCIDENT" label and its longest separator |
| Extractor.NoLineFeedInAttributes | extractor.py:78 | no extracted attribute holds a line feed |
| Validator.MandatoryFieldsAreAttributes | validator.py:32-38 | every mandatory name is a record attribute, and no name is listed twice |
| Validator.MissingAmong | validator.py:7-9 | the missing names keep the list's order and are exactly the listed names whose attribute is absent or empty |
| Validator.FindMissingFields | validator.py:1-11 | the result is an ordered, duplicate-free subsequence of the mandatory list, holds a name exactly when that attribute is absent or empty, and is empty exactly when all five are present |
| Validator.ValidateConsistency | validator.py:12-28 | at most one finding; none without damage; not-numeric exactly when the damage does not parse; invalid exactly when it parses to a value at most zero; none exactly otherwise |
| Validator.ConsistencyExamples | validator.py:20-26 | "0" and "-500" are invalid, "abc" is not numeric, "150.50" and absent damage raise nothing |
| Router.FirstKeyword | router.py:37-46 | nothing is reported exactly when no keyword occurs; a reported keyword occurs and no earlier keyword does |
| Router.LoweredDescription | router.py:6 | an absent description reads as empty; otherwise each character of the description is lower-cased in place, leaving no upper-case letter |
| Router.LoweredClaimType | router.py:7 | an absent claim type reads as empty; otherwise each character of the claim type is lower-cased in place, leaving no upper-case letter |
| Router.DamageValue | router.py:62-64 | a damage value exists exactly when the damage is present, non-empty and reads as a number, and it is then the damage text as read by the number parser |
| Router.RouteClean | router.py:37-83 | investigation exactly when a fraud keyword occurs, naming the first; specialist exactly when there is none and the type is injury, with the specialist message; fast-track exactly when neither applies and the damage reads below 25000, printing the amount; otherwise manual review; each route with its confidence |
| Router.RouteClaim | router.py:1-83 | missing fields give manual review at 0.60 with the joined names; otherwise inconsistencies give manual review at 0.65; with no findings the decision is the one rules 3 to 6 make; the confidence is always one of the six constants |
| Router.RouteReadsThreeAttributes | router.py:6-8 | records that agree on description, claim type and damage are routed identically |
| Router.FastTrackMonotone | router.py:62-71 | lowering the damage of a fast-tracked claim keeps it fast-tracked |
| Router.InjuryIgnoresDamage | router.py:51-57 | an injury claim without fraud keywords goes to the specialist queue whatever its damage |
| Router.FraudOverridesInjuryAndDamage | router.py:37-57 | a fraud keyword routes to investigation whatever the claim type and damage |
| Router.MissingFieldsExample | router.py:15-21 | two missing names are reported as "policy_number, claim_type" |
| Router.FastTrackExample | router.py:62-71 | a quiet vehicle claim with damage 1200 is fast-tracked at 0.92 with "Estimated damage 1200.0 is below 25,000 threshold." |
| Router.FraudExample | router.py:37-46 | the description "Staged crash" is flagged for investigation, quoting 'staged' |
| Pipeline.Process | app.py:21-36 | the report holds the extracted record's dictionary view (which rebuilds the record), the validator's ordered missing list, and the name, reasoning and confidence of the router's decision on the extracted record with the validator's findings; the route is one of the four names and the confidence one of the six constants |
| Pipeline.ClaimTypeNeverMissing | extractor.py:138-145 | claim_type is never reported missing for extracted data |
| Pipeline.DamageNeverNotNumeric | validator.py:20-26 | the not-numeric finding never arises from extracted data |
| Pipeline.InvalidIffZeroDamage | validator.py:21-24 | on extracted data the invalid finding arises exactly when the amount is made of zeros alone |
| Pipeline.ClaimTypeIsClassification | extractor.py:138-145 | the extracted claim type is the classification of the flattened text |
| Pipeline.RouteNamesDistinct | router.py:18-80 | two routes have the same name exactly when they are the same route |
| Pipeline.NoPolicyLabelManualReview | router.py:15-21 | a document without a policy-number label goes to manual review at 0.60, with policy_number first among the missing names |
| Pipeline.MissingMessageMentions | router.py:19 | the missing-fields message mentions every missing name |
| Pipeline.NoLabelReportedMissing | validator.py:7-9 | a mandatory attribute whose label is absent is reported missing |
| Pipeline.NoLabelManualReview | router.py:15-21 | a document lacking the label of a mandatory attribute goes to manual review at 0.60, and the reasoning names that attribute |
| Pipeline.ExtractedInjuryType | router.py:51 | the router's injury test on extracted data holds exactly when "injury" occurs in the lower-cased document |
| Pipeline.InjuryMentionDecidesSpecialist | router.py:51-71 | a fast-tracked document never mentions "injury", and a document in the specialist queue always does |
| Pipeline.FastTrackDamage | router.py:62-71 | a fast-tracked document carries a digit-string amount whose value is positive and below 25000 |
| SampleClaim.DocumentFlattens | extractor.py:78 | the four-line sample document flattens to its lines joined by spaces |
| SampleClaim.SearchesFind | extractor.py:83-133 | in the flattened sample each of the four labelled searches reports the value written after its label: "ABC123456", "5/1/2024", "1,200" and "minor fender bender vehicle" |
| SampleClaim.SampleExtracted | extractor.py:70-147 | the sample's record holds the policy number, the date, the damage "1200" with the comma dropped, the description and the claim type "vehicle" |
| SampleClaim.SampleValidated | validator.py:1-28 | a record with the sample's values has no missing field and no inconsistency |
| SampleClaim.SampleRouted | router.py:37-71 | a record with the sample's values is fast-tracked at 0.92 with "Estimated damage 1200.0 is below 25,000 threshold." |
| SampleClaim.SampleTextFastTracked | app.py:21-27 | any document whose record holds the sample's values is reported with no missing field, on the fast track at 0.92 with the 1200.0 message |
| SampleClaim.SampleFastTracked | app.py:22-27 | the sample document goes through extraction, validation and routing to the fast track at 0.92, with no missing field and the 1200.0 message |

## Left out

- File reading (extractor.py:6-68) is left out: PDF text extraction, plain-text reading, carriage-return removal, line trimming and file-type dispatch are I/O. `Extract` starts from the document text.
- The command-line layer in app.py is left out: argument checks, JSON printing and the catch-all exception handler. `Pipeline.Process` models only the chaining of the stages (app.py:22-27).
- Numbers.Parse: covers only the decimal literals `float(...)` accepts: an optional sign, digits, an optional point and fraction. `nan`, `inf`, exponents, underscores and surrounding whitespace are read as not a number, and values are exact reals without binary rounding. On extracted data only digit strings arise. Python rounds those above 2^53 to the nearest binary float and the model does not, but the two never disagree on `<= 0` or on `< 25000`, and every amount that is fast-tracked is small enough to be read exactly.
- The printed amount in the fast-track message is modelled in fixed notation only (`Render`). Python prints in exponent form when the magnitude is 1e16 or more or below 1e-4, and rounds to the nearest binary float. Extracted amounts are whole numbers below 25000 when fast-tracked, and for them fixed notation is what Python prints.
- Character classes and case-insensitivity are ASCII only: `\d`, `\s`, `.lower()` and IGNORECASE on non-ASCII text are left out.
- The router's initial confidence 0.95 is overwritten on every path. The model has no such value, and `Router.RouteClaim` proves the confidence is always one of the six constants.
- Determinism of the extractor (the same text gives the same record) holds by construction, since every member is a function. It is not stated as a separate lemma.
