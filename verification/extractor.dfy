/** The field extractor: newline flattening, five label-anchored searches and
    the claim-type classifier.

    Each regular expression of the form `LABEL\s*[:\-]?\s*(VALUE)`, searched
    case-insensitively with leftmost-match semantics, is written out as an
    explicit scanner. Backtracking over the separator reduces to two tries:
    let `q` be the end of the whitespace run after the label; when `s[q]` is
    ':' or '-' the value is tried after that separator and any further
    whitespace, and then (the optional separator matching nothing) at `q`
    itself; otherwise it is tried at `q` only. No value can start with
    whitespace, so shorter whitespace runs add no further candidates. */
module Extractor {
  import opened Wrappers
  import opened Text
  import opened Models

  /** The five label-anchored searches, in the order the extractor runs them. */
  datatype Pattern = PolicyNumber | DateOfLoss | TimeOfLoss | EstimateAmount | Description

  function Label(p: Pattern): (anchor: string)
    ensures |anchor| > 0
  {
    match p
    case PolicyNumber => "POLICY NUMBER"
    case DateOfLoss => "DATE OF LOSS"
    case TimeOfLoss => "TIME OF LOSS"
    case EstimateAmount => "ESTIMATE AMOUNT"
    case Description => "DESCRIPTION OF ACCIDENT"
  }

  /** The record attribute each search fills. */
  function Attribute(p: Pattern): string {
    match p
    case PolicyNumber => "policy_number"
    case DateOfLoss => "date_of_loss"
    case TimeOfLoss => "time_of_loss"
    case EstimateAmount => "estimated_damage"
    case Description => "description"
  }

  /** The attributes the extractor ever sets. */
  const ExtractedAttributes: set<string> :=
    {"policy_number", "date_of_loss", "time_of_loss", "estimated_damage", "description", "claim_type"}

  // ---------------------------------------------------------------------
  // Character classes of the value grammars
  // ---------------------------------------------------------------------

  /** `[A-Z0-9\-]` (with IGNORECASE), `[\d,]`, and `.` (anything but a
      line feed). */
  datatype CharClass = PolicyChars | AmountChars | LineChars {
    predicate Has(c: char) {
      match this
      case PolicyChars => IsLetter(c) || IsDigit(c) || c == '-'
      case AmountChars => IsDigit(c) || c == ','
      case LineChars => c != '\n'
    }
  }

  /** The end of the longest run of `cls` characters starting at `i`
      (a greedy `cls*`). */
  function RunEnd(s: string, i: nat, cls: CharClass): (j: nat)
    requires i <= |s|
    ensures i <= j <= |s|
    ensures forall k :: i <= k < j ==> cls.Has(s[k])
    ensures j < |s| ==> !cls.Has(s[j])
    decreases |s| - i
  {
    if i < |s| && cls.Has(s[i]) then RunEnd(s, i + 1, cls) else i
  }

  // ---------------------------------------------------------------------
  // Shapes of the captured values
  // ---------------------------------------------------------------------

  /** `v` is `a` digits, '/', `b` digits, '/', four digits. */
  predicate DateSplit(v: string, a: nat, b: nat) {
    && |v| == a + b + 6
    && (forall k :: 0 <= k < a ==> IsDigit(v[k]))
    && v[a] == '/'
    && (forall k :: a + 1 <= k < a + 1 + b ==> IsDigit(v[k]))
    && v[a + 1 + b] == '/'
    && (forall k :: a + b + 2 <= k < |v| ==> IsDigit(v[k]))
  }

  /** The shape `\d{1,2}/\d{1,2}/\d{4}`. */
  predicate DateShape(v: string) {
    DateSplit(v, 1, 1) || DateSplit(v, 1, 2) || DateSplit(v, 2, 1) || DateSplit(v, 2, 2)
  }

  /** "AM" or "PM" in any case. */
  predicate IsMeridiem(v: string) {
    Lower(v) == "am" || Lower(v) == "pm"
  }

  /** What the capture group of each search can hold. */
  predicate CaptureShape(p: Pattern, v: string) {
    match p
    case PolicyNumber => |v| >= 6 && forall k :: 0 <= k < |v| ==> PolicyChars.Has(v[k])
    case DateOfLoss => DateShape(v)
    case TimeOfLoss => IsMeridiem(v)
    case EstimateAmount => |v| >= 1 && forall k :: 0 <= k < |v| ==> AmountChars.Has(v[k])
    case Description => '\n' !in v
  }

  // ---------------------------------------------------------------------
  // Value grammars
  // ---------------------------------------------------------------------

  /** `\d{1,2}/` at `i`: the position after the slash. The two-digit try
      comes first; the one-digit try can only succeed when it fails. */
  function SlashField(s: string, i: nat): (r: Option<nat>)
    requires i <= |s|
    ensures r.Some? ==> (r.value == i + 2 || r.value == i + 3) && r.value <= |s|
    ensures r.Some? ==> s[r.value - 1] == '/' && forall k :: i <= k < r.value - 1 ==> IsDigit(s[k])
  {
    if i + 2 < |s| && IsDigit(s[i]) && IsDigit(s[i + 1]) && s[i + 2] == '/' then Some(i + 3)
    else if i + 1 < |s| && IsDigit(s[i]) && s[i + 1] == '/' then Some(i + 2)
    else None
  }

  /** When one or two digits and a slash do start at `i`, `SlashField`
      finds them: the digit count is fixed by where the slash is. */
  lemma SlashFieldComplete(s: string, i: nat, a: nat)
    requires 1 <= a <= 2 && i + a < |s|
    requires forall k :: i <= k < i + a ==> IsDigit(s[k])
    requires s[i + a] == '/'
    ensures SlashField(s, i) == Some(i + a + 1)
  {
  }

  /** The date scan at `i` succeeds: two `\d{1,2}/` fields, then four digits. */
  predicate DateScan(s: string, i: nat)
    requires i <= |s|
  {
    && SlashField(s, i).Some?
    && SlashField(s, SlashField(s, i).value).Some?
    && SlashField(s, SlashField(s, i).value).value + 4 <= |s|
    && AllDigits(s[SlashField(s, SlashField(s, i).value).value..SlashField(s, SlashField(s, i).value).value + 4])
  }

  /** A date-shaped text of length `n` at `i` (the `\d{1,2}` fields are
      written out as `a` and `b` digits). */
  predicate DateOfLength(s: string, i: nat, n: nat) {
    i + n <= |s| && DateShape(s[i..i + n])
  }

  /** A date written with `a` and `b` digits in its first two fields, found
      at `i`, passes the scan. */
  lemma DateSplitAccepted(s: string, i: nat, v: string, a: nat, b: nat)
    requires 1 <= a <= 2 && 1 <= b <= 2 && DateSplit(v, a, b)
    requires OccursAt(s, v, i)
    ensures DateScan(s, i)
  {
    forall t | 0 <= t < |v| ensures s[i + t] == v[t] {
      assert s[i..i + |v|][t] == s[i + t];
    }
    SlashFieldComplete(s, i, a);
    SlashFieldComplete(s, i + a + 1, b);
    var k := i + a + b + 2;
    forall m | k <= m < k + 4 ensures IsDigit(s[m]) {
      assert s[m] == v[m - i];
    }
    assert AllDigits(s[k..k + 4]);
  }

  /** Every date-shaped text at `i` passes the scan. */
  lemma DateShapeAccepted(s: string, i: nat, n: nat)
    requires DateOfLength(s, i, n)
    ensures DateScan(s, i)
  {
    var v := s[i..i + n];
    assert OccursAt(s, v, i);
    if DateSplit(v, 1, 1) {
      DateSplitAccepted(s, i, v, 1, 1);
    } else if DateSplit(v, 1, 2) {
      DateSplitAccepted(s, i, v, 1, 2);
    } else if DateSplit(v, 2, 1) {
      DateSplitAccepted(s, i, v, 2, 1);
    } else {
      DateSplitAccepted(s, i, v, 2, 2);
    }
  }

  /** The scan succeeds exactly when a date-shaped text starts at `i`, and
      then that text ends where the scan's four digits end. */
  lemma DateScanComplete(s: string, i: nat)
    requires i <= |s|
    ensures DateScan(s, i) <==> exists n: nat :: DateOfLength(s, i, n)
    ensures DateScan(s, i) ==>
      DateOfLength(s, i, SlashField(s, SlashField(s, i).value).value + 4 - i)
  {
    if DateScan(s, i) {
      var j := SlashField(s, i).value;
      var k := SlashField(s, j).value;
      var v := s[i..k + 4];
      forall m | k <= m < k + 4 ensures IsDigit(s[m]) {
        assert s[k..k + 4][m - k] == s[m];
      }
      assert v[j - i - 1] == s[j - 1];
      assert v[k - i - 1] == s[k - 1];
      assert DateSplit(v, j - i - 1, k - j - 1);
      assert DateOfLength(s, i, k + 4 - i);
    }
    forall n: nat | DateOfLength(s, i, n) ensures DateScan(s, i) {
      DateShapeAccepted(s, i, n);
    }
  }

  /** `(\d{1,2}/\d{1,2}/\d{4})` at `i`: a date is captured exactly when a
      date-shaped text starts at `i`, and the capture is that text. */
  function DateAt(s: string, i: nat): (r: Option<string>)
    requires i <= |s|
    ensures r.Some? ==> DateShape(r.value) && OccursAt(s, r.value, i)
    ensures r.Some? <==> exists n: nat :: DateOfLength(s, i, n)
  {
    DateScanComplete(s, i);
    if DateScan(s, i) then
      var k := SlashField(s, SlashField(s, i).value).value;
      assert OccursAt(s, s[i..k + 4], i);
      Some(s[i..k + 4])
    else None
  }

  /** Where the value of pattern `p` tried at `i` starts: after the
      optional `$` of the amount grammar, which is matched but not captured. */
  function ValueStart(p: Pattern, s: string, i: nat): (j: nat)
    requires i <= |s|
    ensures i <= j <= |s|
  {
    if p == EstimateAmount && i < |s| && s[i] == '$' then i + 1 else i
  }

  /** A greedy `cls{min,}` at `i`: it matches exactly when `min` characters
      of the class follow, and then takes the whole run. */
  function RunCapture(s: string, i: nat, cls: CharClass, min: nat): (r: Option<string>)
    requires i <= |s|
    ensures r.Some? <==> i + min <= |s| && forall k :: i <= k < i + min ==> cls.Has(s[k])
    ensures r.Some? ==> OccursAt(s, r.value, i) && |r.value| >= min
    ensures r.Some? ==> forall k :: 0 <= k < |r.value| ==> cls.Has(r.value[k])
    ensures r.Some? ==> i + |r.value| == |s| || !cls.Has(s[i + |r.value|])
  {
    var j := RunEnd(s, i, cls);
    if j - i >= min then
      assert OccursAt(s, s[i..j], i);
      Some(s[i..j])
    else None
  }

  /** `(AM|PM)` at `i`, in any letter case. */
  function MeridiemAt(s: string, i: nat): (r: Option<string>)
    requires i <= |s|
    ensures r.Some? <==> i + 2 <= |s| && IsMeridiem(s[i..i + 2])
    ensures r.Some? ==> IsMeridiem(r.value) && OccursAt(s, r.value, i)
  {
    if i + 2 <= |s| && IsMeridiem(s[i..i + 2]) then Some(s[i..i + 2]) else None
  }

  /** The capture group of pattern `p` when its value starts at `i`, or
      None when the value grammar does not match there. A capture is taken
      from the text at the value's start and has the grammar's shape; the
      description grammar always matches. `CaptureExactly` states when each
      grammar matches and how far it reaches:
      - policy: matches when six policy characters follow, and takes the
        whole run of them;
      - date: matches when a date-shaped text starts at `i` (see `DateAt`);
      - time: matches when the next two characters are AM or PM in any case;
      - amount: matches when a digit or comma follows the optional `$`, and
        takes the whole run of them;
      - description: always matches, and takes everything up to the next
        line feed. */
  function Capture(p: Pattern, s: string, i: nat): (r: Option<string>)
    requires i <= |s|
    ensures r.Some? ==> CaptureShape(p, r.value) && OccursAt(s, r.value, ValueStart(p, s, i))
    ensures r.Some? ==> Occurs(s, r.value)
    ensures p == Description ==> r.Some?
    ensures p == Description && '\n' !in s ==> r == Some(s[i..])
  {
    var r := match p
      case PolicyNumber => RunCapture(s, i, PolicyChars, 6)
      case DateOfLoss => DateAt(s, i)
      case TimeOfLoss => MeridiemAt(s, i)
      case EstimateAmount => RunCapture(s, ValueStart(p, s, i), AmountChars, 1)
      case Description => RunCapture(s, i, LineChars, 0);
    assert r.Some? ==> OccursAt(s, r.value, ValueStart(p, s, i));
    assert p == Description && r.Some? && i + |r.value| < |s| ==> s[i + |r.value|] in s;
    assert p == Description && r.Some? && '\n' !in s ==> r.value == s[i..i + |r.value|] == s[i..];
    r
  }

  /** When each value grammar matches at `i`, and where the greedy runs
      stop: at the first character outside their class. */
  lemma CaptureExactly(p: Pattern, s: string, i: nat)
    requires i <= |s|
    ensures var r := Capture(p, s, i);
      && (p == PolicyNumber ==>
            (r.Some? <==> i + 6 <= |s| && forall k :: i <= k < i + 6 ==> PolicyChars.Has(s[k])))
      && (p == PolicyNumber && r.Some? ==> i + |r.value| == |s| || !PolicyChars.Has(s[i + |r.value|]))
      && (p == DateOfLoss ==> r == DateAt(s, i))
      && (p == TimeOfLoss ==> (r.Some? <==> i + 2 <= |s| && IsMeridiem(s[i..i + 2])))
      && (p == EstimateAmount ==>
            (r.Some? <==> ValueStart(p, s, i) < |s| && AmountChars.Has(s[ValueStart(p, s, i)])))
      && (p == EstimateAmount && r.Some? ==>
            ValueStart(p, s, i) + |r.value| == |s| || !AmountChars.Has(s[ValueStart(p, s, i) + |r.value|]))
      && (p == Description ==> i + |r.value| == |s| || s[i + |r.value|] == '\n')
  {
  }

  /** No value other than a description starts with whitespace. */
  lemma NoCaptureAtSpace(p: Pattern, s: string, j: nat)
    requires p != Description && j < |s| && IsSpace(s[j])
    ensures Capture(p, s, j).None?
  {
    if p == TimeOfLoss && j + 2 <= |s| {
      assert Lower(s[j..j + 2])[0] == LowerChar(s[j]);
    }
  }

  /** The end of `\s*[:\-]?\s*` after `i` when every part takes as much as
      it can: the whitespace, then a ':' or '-' if one follows, then the
      whitespace after it. */
  function AfterSeparator(s: string, i: nat): (j: nat)
    requires i <= |s|
    ensures i <= j <= |s|
  {
    var q := SkipSpaces(s, i);
    if q < |s| && (s[q] == ':' || s[q] == '-') then SkipSpaces(s, q + 1) else q
  }

  /** `s[i..j]` matches `\s*[:\-]?\s*`: whitespace, with at most one ':' or
      '-' among it. */
  ghost predicate SeparatorSpan(s: string, i: nat, j: nat) {
    && i <= j <= |s|
    && ((forall k :: i <= k < j ==> IsSpace(s[k]))
        || exists m :: i <= m < j && (s[m] == ':' || s[m] == '-')
                       && forall k :: i <= k < j && k != m ==> IsSpace(s[k]))
  }

  /** `\s*[:\-]?\s*(VALUE)` right after a label ending at `i`. The value is
      taken after the longest separator when the grammar matches there, and
      otherwise after the whitespace alone (the optional ':' or '-' matching
      nothing); either way its start is the end of a separator span. */
  function MatchAfterLabel(p: Pattern, s: string, i: nat): (r: Option<string>)
    requires i <= |s|
    ensures r.Some? ==> CaptureShape(p, r.value) && Occurs(s, r.value)
    ensures p == Description ==> r.Some?
    ensures p == Description && '\n' !in s ==> r == Some(s[AfterSeparator(s, i)..])
  {
    var q := SkipSpaces(s, i);
    if q < |s| && (s[q] == ':' || s[q] == '-') then
      var afterSeparator := Capture(p, s, SkipSpaces(s, q + 1));
      if afterSeparator.Some? then afterSeparator else Capture(p, s, q)
    else
      Capture(p, s, q)
  }

  /** The value is captured at the end of a separator span, and after the
      longest separator whenever the grammar matches there. */
  lemma MatchAfterLabelSpan(p: Pattern, s: string, i: nat)
    requires i <= |s|
    ensures var r := MatchAfterLabel(p, s, i);
      && (r.Some? ==> exists j :: SeparatorSpan(s, i, j) && r == Capture(p, s, j))
      && (Capture(p, s, AfterSeparator(s, i)).Some? ==> r == Capture(p, s, AfterSeparator(s, i)))
  {
    var q := SkipSpaces(s, i);
    assert SeparatorSpan(s, i, q);
    if q < |s| && (s[q] == ':' || s[q] == '-') {
      assert SeparatorSpan(s, i, SkipSpaces(s, q + 1));
    }
  }

  /** The separator and value match after a label exactly when the value
      grammar matches at the end of some separator span: trying the longest
      separator and then the bare whitespace misses nothing. */
  lemma MatchAfterLabelComplete(p: Pattern, s: string, i: nat)
    requires i <= |s|
    ensures MatchAfterLabel(p, s, i).None? <==>
      forall j :: SeparatorSpan(s, i, j) ==> Capture(p, s, j).None?
  {
    if MatchAfterLabel(p, s, i).Some? {
      MatchAfterLabelSpan(p, s, i);
    } else {
      MatchAfterLabelFails(p, s, i);
      forall j | SeparatorSpan(s, i, j) ensures Capture(p, s, j).None? {
        SpanEnd(s, i, j);
        NoCaptureInsideSpan(p, s, i, j);
      }
    }
  }

  /** Where the value grammar fails after the whitespace, and after the
      ':' or '-' when one follows it, it fails at every end of a separator
      span: the other ends are whitespace. */
  lemma NoCaptureInsideSpan(p: Pattern, s: string, i: nat, j: nat)
    requires i <= j && i <= |s| && p != Description
    requires Capture(p, s, SkipSpaces(s, i)).None?
    requires var q := SkipSpaces(s, i);
      q < |s| && (s[q] == ':' || s[q] == '-') ==> Capture(p, s, SkipSpaces(s, q + 1)).None?
    requires var q := SkipSpaces(s, i);
      || j <= q
      || (q < |s| && (s[q] == ':' || s[q] == '-') && q < j <= SkipSpaces(s, q + 1))
    ensures Capture(p, s, j).None?
  {
    var q := SkipSpaces(s, i);
    if j < q {
      NoCaptureAtSpace(p, s, j);
    } else if j > q {
      var e := SkipSpaces(s, q + 1);
      if j < e {
        NoCaptureAtSpace(p, s, j);
      } else {
        assert j == e;
      }
    }
  }

  /** A failed match after a label tried the value grammar after the
      whitespace, and after the ':' or '-' when one follows it. */
  lemma MatchAfterLabelFails(p: Pattern, s: string, i: nat)
    requires i <= |s| && MatchAfterLabel(p, s, i).None?
    ensures p != Description
    ensures Capture(p, s, SkipSpaces(s, i)).None?
    ensures var q := SkipSpaces(s, i);
      q < |s| && (s[q] == ':' || s[q] == '-') ==> Capture(p, s, SkipSpaces(s, q + 1)).None?
  {
  }

  /** A separator span ends inside the leading whitespace, or inside the
      whitespace after a ':' or '-' that follows it. */
  lemma SpanEnd(s: string, i: nat, j: nat)
    requires i <= |s| && SeparatorSpan(s, i, j)
    ensures var q := SkipSpaces(s, i);
      || j <= q
      || (q < |s| && (s[q] == ':' || s[q] == '-') && q < j <= SkipSpaces(s, q + 1))
  {
    var q := SkipSpaces(s, i);
    if !forall k :: i <= k < j ==> IsSpace(s[k]) {
      var m :| i <= m < j && (s[m] == ':' || s[m] == '-')
               && forall k :: i <= k < j && k != m ==> IsSpace(s[k]);
      assert !IsSpace(s[m]);
      assert m == q;
    }
  }

  // ---------------------------------------------------------------------
  // Leftmost search
  // ---------------------------------------------------------------------

  /** Character-by-character comparison ignoring ASCII case (IGNORECASE). */
  predicate SameIgnoringCase(a: string, b: string) {
    |a| == |b| && (a == [] || (LowerChar(a[0]) == LowerChar(b[0]) && SameIgnoringCase(a[1..], b[1..])))
  }

  /** Two texts agree ignoring case exactly when their lower-case forms are
      equal. */
  lemma {:induction false} SameIgnoringCaseIffLower(a: string, b: string)
    ensures SameIgnoringCase(a, b) <==> Lower(a) == Lower(b)
  {
    if |a| == |b| && a != [] {
      SameIgnoringCaseIffLower(a[1..], b[1..]);
      LowerSlice(a, 1, |a|);
      LowerSlice(b, 1, |b|);
      if Lower(a) == Lower(b) {
        assert Lower(a)[0] == Lower(b)[0];
      }
      if SameIgnoringCase(a, b) {
        assert Lower(a) == [Lower(a)[0]] + Lower(a)[1..];
        assert Lower(b) == [Lower(b)[0]] + Lower(b)[1..];
      }
    } else if |a| != |b| {
      assert |Lower(a)| != |Lower(b)|;
    }
  }

  /** The label at position `i`, compared ignoring ASCII case. */
  predicate LabelAt(s: string, anchor: string, i: int) {
    0 <= i && i + |anchor| <= |s| && SameIgnoringCase(s[i..i + |anchor|], anchor)
  }

  ghost predicate LabelOccurs(s: string, anchor: string) {
    exists i :: LabelAt(s, anchor, i)
  }

  /** The whole pattern `p` matches starting at position `j`. */
  predicate Hit(p: Pattern, s: string, j: int)
    ensures Hit(p, s, j) ==> 0 <= j < |s|
  {
    LabelAt(s, Label(p), j) && MatchAfterLabel(p, s, j + |Label(p)|).Some?
  }

  /** `j` is the first position at or after `i` where `p` matches. */
  ghost predicate LeftmostHit(p: Pattern, s: string, i: int, j: int) {
    i <= j && Hit(p, s, j) && forall k :: i <= k < j ==> !Hit(p, s, k)
  }

  /** The first position in `[i, n)` where `hit` holds: the scan that
      `re.search` makes, trying each start position in turn. */
  function FirstFrom(hit: int -> bool, i: nat, n: nat): (r: Option<nat>)
    requires i <= n
    ensures r.Some? ==> i <= r.value < n && hit(r.value)
    ensures r.Some? ==> forall k :: i <= k < r.value ==> !hit(k)
    ensures r.None? ==> forall k :: i <= k < n ==> !hit(k)
    decreases n - i
  {
    if i == n then None
    else if hit(i) then Some(i)
    else FirstFrom(hit, i + 1, n)
  }

  /** The scan stops at the first position where `hit` holds. */
  lemma FirstFromAt(hit: int -> bool, i: nat, n: nat, j: nat)
    requires i <= j < n && hit(j)
    requires forall k :: i <= k < j ==> !hit(k)
    ensures FirstFrom(hit, i, n) == Some(j)
  {
  }

  /** `re.search`: the leftmost start position of pattern `p` in `s`. */
  function Search(p: Pattern, s: string): (r: Option<nat>)
    ensures r.Some? ==> r.value < |s| && Hit(p, s, r.value)
  {
    FirstFrom(j => Hit(p, s, j), 0, |s|)
  }

  /** The search finds the leftmost match, and fails only when there is none. */
  lemma SearchIsLeftmost(p: Pattern, s: string)
    ensures Search(p, s).Some? ==> LeftmostHit(p, s, 0, Search(p, s).value)
    ensures Search(p, s).None? <==> forall j :: !Hit(p, s, j)
  {
    var hit := j => Hit(p, s, j);
    var r := FirstFrom(hit, 0, |s|);
    if r.Some? {
      forall k | 0 <= k < r.value ensures !Hit(p, s, k) {
        assert !hit(k);
      }
    } else {
      forall j ensures !Hit(p, s, j) {
        if 0 <= j < |s| {
          assert !hit(j);
        }
      }
    }
  }

  /** The capture group of the leftmost match of pattern `p` in `s`
      (`match.group(1)`), or None when `re.search` finds nothing. */
  function Find(p: Pattern, s: string): (r: Option<string>)
    ensures r.Some? ==> CaptureShape(p, r.value) && Occurs(s, r.value)
  {
    match Search(p, s)
    case Some(j) => MatchAfterLabel(p, s, j + |Label(p)|)
    case None => None
  }

  /** `Find` reports nothing exactly when the pattern matches nowhere. */
  lemma FindNoneIffNoHit(p: Pattern, s: string)
    ensures Find(p, s).None? <==> forall j :: !Hit(p, s, j)
  {
    SearchIsLeftmost(p, s);
    if Search(p, s).Some? {
      assert Hit(p, s, Search(p, s).value);
    }
  }

  /** `Find` reports the capture of the leftmost position where the label
      and the value both match, and nothing when there is no such position. */
  lemma FindIsLeftmostMatch(p: Pattern, s: string)
    ensures Find(p, s).None? <==> forall j :: !Hit(p, s, j)
    ensures Find(p, s).Some? ==>
      exists j :: LeftmostHit(p, s, 0, j) && Find(p, s) == MatchAfterLabel(p, s, j + |Label(p)|)
  {
    FindNoneIffNoHit(p, s);
    FindIsCaptureAtLeftmostHit(p, s);
  }

  /** What `Find` reports is the capture after the leftmost hit. */
  lemma FindIsCaptureAtLeftmostHit(p: Pattern, s: string)
    ensures Find(p, s).Some? ==>
      exists j :: LeftmostHit(p, s, 0, j) && Find(p, s) == MatchAfterLabel(p, s, j + |Label(p)|)
  {
    var r := Search(p, s);
    if r.Some? {
      SearchIsLeftmost(p, s);
      FindAtSearch(p, s, r.value);
      assert LeftmostHit(p, s, 0, r.value);
    }
  }

  /** Once the search has stopped at `j`, `Find` reports the capture after
      the label there. */
  lemma FindAtSearch(p: Pattern, s: string, j: nat)
    requires Search(p, s) == Some(j)
    ensures Find(p, s) == MatchAfterLabel(p, s, j + |Label(p)|)
  {
  }

  /** The search stops at the first position where the label occurs and
      the value grammar matches after it. */
  lemma SearchAtFirstLabel(p: Pattern, s: string, j: nat)
    requires Hit(p, s, j)
    requires forall k :: 0 <= k < j ==> !LabelAt(s, Label(p), k)
    ensures Search(p, s) == Some(j)
  {
    var hit := k => Hit(p, s, k);
    forall k | 0 <= k < j ensures !hit(k) {
      assert !LabelAt(s, Label(p), k);
    }
    FirstFromAt(hit, 0, |s|, j);
  }

  /** A label occurrence fixes its first two characters, ignoring case. */
  lemma LabelStartsWith(s: string, anchor: string, k: int)
    requires LabelAt(s, anchor, k) && |anchor| >= 2
    ensures LowerChar(s[k]) == LowerChar(anchor[0])
    ensures LowerChar(s[k + 1]) == LowerChar(anchor[1])
  {
    var a := s[k..k + |anchor|];
    assert SameIgnoringCase(a[1..], anchor[1..]);
    assert a[1..][0] == s[k + 1] && anchor[1..][0] == anchor[1];
  }

  /** No label starts where the first or second character disagrees with
      it, ignoring case. */
  lemma NoLabelWhereStartDiffers(s: string, anchor: string, lo: nat, hi: nat)
    requires lo <= hi <= |s| && |anchor| >= 2
    requires forall k :: lo <= k < hi ==>
      LowerChar(s[k]) != LowerChar(anchor[0]) || (k + 1 < |s| && LowerChar(s[k + 1]) != LowerChar(anchor[1]))
    ensures forall k :: lo <= k < hi ==> !LabelAt(s, anchor, k)
  {
    forall k | lo <= k < hi ensures !LabelAt(s, anchor, k) {
      if LabelAt(s, anchor, k) {
        LabelStartsWith(s, anchor, k);
      }
    }
  }

  /** A label written out verbatim is found where it occurs. */
  lemma LabelAtOccurrence(s: string, anchor: string, k: int)
    requires OccursAt(s, anchor, k)
    ensures LabelAt(s, anchor, k)
  {
    SameIgnoringCaseIffLower(anchor, anchor);
  }

  /** Where the label occurs at `j` and nowhere before, and the value
      grammar matches after it, the search reports that value. */
  lemma FindAtFirstLabel(p: Pattern, s: string, j: nat, v: string)
    requires LabelAt(s, Label(p), j)
    requires MatchAfterLabel(p, s, j + |Label(p)|) == Some(v)
    requires forall k :: 0 <= k < j ==> !LabelAt(s, Label(p), k)
    ensures Find(p, s) == Some(v)
  {
    assert Hit(p, s, j);
    SearchAtFirstLabel(p, s, j);
    FindAtSearch(p, s, j);
  }

  // ---------------------------------------------------------------------
  // Claim type
  // ---------------------------------------------------------------------

  /** The priority classifier over the lower-cased text. */
  function ClassifyType(text: string): (t: string)
    ensures t == "injury" <==> Occurs(Lower(text), "injury")
    ensures t == "vehicle" <==> !Occurs(Lower(text), "injury") && Occurs(Lower(text), "vehicle")
    ensures t == "property" <==> !Occurs(Lower(text), "injury") && !Occurs(Lower(text), "vehicle")
  {
    var lowered := Lower(text);
    if Contains(lowered, "injury") then "injury"
    else if Contains(lowered, "vehicle") then "vehicle"
    else "property"
  }

  // ---------------------------------------------------------------------
  // The extractor
  // ---------------------------------------------------------------------

  /** `text.replace("\n", " ")`. */
  function Flatten(text: string): (flat: string)
    ensures |flat| == |text| && '\n' !in flat
    ensures forall i :: 0 <= i < |text| ==> flat[i] == if text[i] == '\n' then ' ' else text[i]
  {
    ReplaceChar(text, '\n', ' ')
  }

  /** Removing the commas from a `[\d,]+` capture leaves only digits. */
  lemma CommasRemovedLeaveDigits(v: string)
    requires forall k :: 0 <= k < |v| ==> AmountChars.Has(v[k])
    ensures AllDigits(DeleteChar(v, ','))
  {
    var r := DeleteChar(v, ',');
    forall k | 0 <= k < |r| ensures IsDigit(r[k]) {
      assert r[k] in r;
      var m :| 0 <= m < |v| && v[m] == r[k];
    }
  }

  /** The record the extractor returns: the six attributes it sets, every
      other attribute left at its default. */
  function Assemble(policy: Option<string>, date: Option<string>, time: Option<string>,
                    damage: Option<string>, description: Option<string>, claimType: string): (c: ClaimData)
    ensures forall name :: name !in ExtractedAttributes ==> Get(c, name) == None
  {
    EmptyClaim().(policyNumber := policy, dateOfLoss := date, timeOfLoss := time,
                  estimatedDamage := damage, description := description, claimType := Some(claimType))
  }

  /** `extract_fields`: the record built from one document's text. */
  function Extract(text: string): (c: ClaimData)
    ensures c.policyNumber.Some? ==> CaptureShape(PolicyNumber, c.policyNumber.value)
    ensures c.dateOfLoss.Some? ==> DateShape(c.dateOfLoss.value)
    ensures c.timeOfLoss.Some? ==> IsMeridiem(c.timeOfLoss.value)
    ensures c.estimatedDamage.Some? ==> AllDigits(c.estimatedDamage.value)
    ensures c.description.Some? ==> IsStripped(c.description.value) && '\n' !in c.description.value
    ensures c.claimType.Some? && c.claimType.value in {"injury", "vehicle", "property"}
    ensures forall name :: name !in ExtractedAttributes ==> Get(c, name) == None
  {
    var flat := Flatten(text);
    Assemble(Find(PolicyNumber, flat), Find(DateOfLoss, flat), Find(TimeOfLoss, flat),
             DamageDigits(Find(EstimateAmount, flat)), StrippedDescription(Find(Description, flat)),
             ClassifyType(flat))
  }

  /** The stored damage: the capture with its commas removed. */
  function DamageDigits(capture: Option<string>): (r: Option<string>)
    requires capture.Some? ==> CaptureShape(EstimateAmount, capture.value)
    ensures r.Some? <==> capture.Some?
    ensures r.Some? ==> AllDigits(r.value) && r.value == DeleteChar(capture.value, ',')
  {
    match capture
    case None => None
    case Some(v) =>
      CommasRemovedLeaveDigits(v);
      Some(DeleteChar(v, ','))
  }

  /** The stored description: the capture with surrounding whitespace stripped. */
  function StrippedDescription(capture: Option<string>): (r: Option<string>)
    requires capture.Some? ==> '\n' !in capture.value
    ensures r.Some? <==> capture.Some?
    ensures r.Some? ==> r.value == Strip(capture.value)
    ensures r.Some? ==> IsStripped(r.value) && '\n' !in r.value
  {
    match capture
    case None => None
    case Some(v) =>
      var a: nat :| PaddedAt(v, Strip(v), a);
      assert forall m :: 0 <= m < |Strip(v)| ==> Strip(v)[m] == v[a + m];
      Some(Strip(v))
  }

  // ---------------------------------------------------------------------
  // Properties of the extracted record
  // ---------------------------------------------------------------------

  /** Each label-anchored attribute is set exactly when its search finds a
      match. */
  lemma AttributeFollowsFind(text: string, p: Pattern)
    ensures Get(Extract(text), Attribute(p)).Some? <==> Find(p, Flatten(text)).Some?
  {
    var flat := Flatten(text);
    var c := Extract(text);
    assert c == Assemble(Find(PolicyNumber, flat), Find(DateOfLoss, flat), Find(TimeOfLoss, flat),
                         DamageDigits(Find(EstimateAmount, flat)), StrippedDescription(Find(Description, flat)),
                         ClassifyType(flat));
    match p
    case PolicyNumber =>
      assert Get(c, "policy_number") == c.policyNumber;
    case DateOfLoss =>
      assert Get(c, "date_of_loss") == c.dateOfLoss;
    case TimeOfLoss =>
      assert Get(c, "time_of_loss") == c.timeOfLoss;
    case EstimateAmount =>
      assert Get(c, "estimated_damage") == c.estimatedDamage;
    case Description =>
      assert Get(c, "description") == c.description;
  }

  /** A label-anchored attribute is set exactly when its pattern matches
      somewhere in the flattened text. */
  lemma AttributeSetIffMatch(text: string, p: Pattern)
    ensures Get(Extract(text), Attribute(p)).Some? <==> exists j :: Hit(p, Flatten(text), j)
  {
    AttributeFollowsFind(text, p);
    FindIsLeftmostMatch(p, Flatten(text));
  }

  /** Without its label (compared ignoring case) anywhere in the flattened
      text, an attribute stays absent. */
  lemma NoLabelNoAttribute(text: string, p: Pattern)
    requires !LabelOccurs(Flatten(text), Label(p))
    ensures Get(Extract(text), Attribute(p)) == None
  {
    AttributeSetIffMatch(text, p);
  }

  /** The description value grammar `.*` matches anywhere, so its pattern
      matches exactly where its label does. */
  lemma DescriptionHitIsLabel(s: string)
    ensures forall j :: Hit(Description, s, j) <==> LabelAt(s, Label(Description), j)
  {
    forall j ensures Hit(Description, s, j) <==> LabelAt(s, Label(Description), j) {
      if LabelAt(s, Label(Description), j) {
        assert MatchAfterLabel(Description, s, j + |Label(Description)|).Some?;
      }
    }
  }

  /** The description search succeeds exactly when its label occurs. */
  lemma DescriptionFoundIffLabel(s: string)
    ensures Find(Description, s).Some? <==> LabelOccurs(s, Label(Description))
  {
    FindIsLeftmostMatch(Description, s);
    DescriptionHitIsLabel(s);
  }

  /** The description is set exactly when its label occurs. */
  lemma DescriptionSetIffLabel(text: string)
    ensures Extract(text).description.Some? <==> LabelOccurs(Flatten(text), Label(Description))
  {
    AttributeFollowsFind(text, Description);
    DescriptionFoundIffLabel(Flatten(text));
  }

  /** `j` is the first position where `anchor` occurs, ignoring case. */
  ghost predicate LeftmostLabel(s: string, anchor: string, j: int) {
    LabelAt(s, anchor, j) && forall k :: 0 <= k < j ==> !LabelAt(s, anchor, k)
  }

  /** On line-free text, the description search reports everything after the
      first description label and the separator that follows it. */
  lemma DescriptionFindIsSuffix(s: string)
    requires '\n' !in s && Find(Description, s).Some?
    ensures exists j ::
              LeftmostLabel(s, Label(Description), j)
              && Find(Description, s) == Some(s[AfterSeparator(s, j + |Label(Description)|)..])
  {
    FindIsLeftmostMatch(Description, s);
    DescriptionHitIsLabel(s);
    var j :| LeftmostHit(Description, s, 0, j)
      && Find(Description, s) == MatchAfterLabel(Description, s, j + |Label(Description)|);
    assert LeftmostLabel(s, Label(Description), j);
  }

  /** A description is the stripped remainder of the flattened text after
      the first description label and its separator: everything that
      follows, however unrelated. */
  lemma DescriptionIsStrippedSuffix(text: string)
    requires Extract(text).description.Some?
    ensures var flat := Flatten(text);
      exists j :: LeftmostLabel(flat, Label(Description), j)
        && Extract(text).description.value == Strip(flat[AfterSeparator(flat, j + |Label(Description)|)..])
  {
    var flat := Flatten(text);
    var found := Find(Description, flat);
    ExtractTakesSearchResults(text);
    DescriptionFindIsSuffix(flat);
    var j :| LeftmostLabel(flat, Label(Description), j)
      && found == Some(flat[AfterSeparator(flat, j + |Label(Description)|)..]);
  }

  /** Each attribute of the record comes from the search for its pattern in
      the flattened text: policy, date and time as captured, the damage
      with its commas removed, the description stripped; the claim type is
      the classifier's verdict on the flattened text. */
  lemma ExtractTakesSearchResults(text: string)
    ensures var flat := Flatten(text); var c := Extract(text);
      && c.policyNumber == Find(PolicyNumber, flat)
      && c.dateOfLoss == Find(DateOfLoss, flat)
      && c.timeOfLoss == Find(TimeOfLoss, flat)
      && (c.estimatedDamage.Some? <==> Find(EstimateAmount, flat).Some?)
      && (c.estimatedDamage.Some? ==> c.estimatedDamage.value == DeleteChar(Find(EstimateAmount, flat).value, ','))
      && (c.description.Some? <==> Find(Description, flat).Some?)
      && (c.description.Some? ==> c.description.value == Strip(Find(Description, flat).value))
      && c.claimType == Some(ClassifyType(flat))
  {
  }

  /** The amount grammar has no sign: after "ESTIMATE AMOUNT: " a minus
      sign stops the match, while without the colon the minus is taken as
      the separator and the digits after it are captured. */
  lemma SignedAmountAfterLabel()
    ensures MatchAfterLabel(EstimateAmount, ": -500", 0) == None
    ensures MatchAfterLabel(EstimateAmount, " -500", 0) == Some("500")
  {
    assert SkipSpaces(": -500", 0) == 0;
    assert SkipSpaces(": -500", 1) == 2;
    assert RunEnd(": -500", 2, AmountChars) == 2;
    assert RunEnd(": -500", 0, AmountChars) == 0;
    assert SkipSpaces(" -500", 0) == 1;
    assert SkipSpaces(" -500", 2) == 2;
    assert RunEnd(" -500", 2, AmountChars) == 5;
    assert " -500"[2..5] == "500";
  }

  /** The time grammar is `(AM|PM)` right after the separator: a clock
      time written before the meridiem leaves the time of loss unset. */
  lemma ClockTimeNotCaptured()
    ensures Find(TimeOfLoss, "TIME OF LOSS: 10:30 AM") == None
  {
    var s := "TIME OF LOSS: 10:30 AM";
    assert Label(TimeOfLoss) == "TIME OF LOSS" && |Label(TimeOfLoss)| == 12;
    assert SkipSpaces(s, 12) == 12;
    assert SkipSpaces(s, 13) == 14;
    assert Lower(s[14..16]) == "10";
    assert Lower(s[12..14]) == ": ";
    assert MatchAfterLabel(TimeOfLoss, s, 12) == None;
    forall k | 1 <= k < 11 ensures LowerChar(s[k]) != 't' {
    }
    NoLabelWhereStartDiffers(s, "TIME OF LOSS", 1, 11);
    forall j ensures !Hit(TimeOfLoss, s, j) {
      if j == 0 {
        assert MatchAfterLabel(TimeOfLoss, s, j + |Label(TimeOfLoss)|) == None;
      }
    }
    FindNoneIffNoHit(TimeOfLoss, s);
  }

  /** No capture of any pattern holds a line feed. */
  lemma CaptureHasNoLineFeed(p: Pattern, v: string)
    requires CaptureShape(p, v)
    ensures '\n' !in v
  {
    match p
    case TimeOfLoss =>
      forall i | 0 <= i < |v| ensures v[i] != '\n' {
        assert Lower(v)[i] == LowerChar(v[i]);
      }
    case DateOfLoss =>
      forall i | 0 <= i < |v| ensures v[i] != '\n' {
        assert IsDigit(v[i]) || v[i] == '/';
      }
    case PolicyNumber =>
      forall i | 0 <= i < |v| ensures v[i] != '\n' {
        assert PolicyChars.Has(v[i]);
      }
    case EstimateAmount =>
      forall i | 0 <= i < |v| ensures v[i] != '\n' {
        assert AmountChars.Has(v[i]);
      }
    case Description =>
  }

  /** No attribute of the extracted record contains a line feed. */
  lemma NoLineFeedInAttributes(text: string)
    ensures var c := Extract(text);
      && (c.policyNumber.Some? ==> '\n' !in c.policyNumber.value)
      && (c.dateOfLoss.Some? ==> '\n' !in c.dateOfLoss.value)
      && (c.timeOfLoss.Some? ==> '\n' !in c.timeOfLoss.value)
      && (c.estimatedDamage.Some? ==> '\n' !in c.estimatedDamage.value)
      && (c.description.Some? ==> '\n' !in c.description.value)
      && (c.claimType.Some? ==> '\n' !in c.claimType.value)
  {
    var c := Extract(text);
    NoLineFeedInShapes(c.policyNumber, c.dateOfLoss, c.timeOfLoss, c.estimatedDamage);
    NoLineFeedInClaimType(c.claimType.value);
  }

  /** None of the three claim types holds a line feed. */
  lemma NoLineFeedInClaimType(t: string)
    requires t in {"injury", "vehicle", "property"}
    ensures '\n' !in t
  {
  }

  /** Values of the policy, date, time and damage shapes hold no line feed. */
  lemma NoLineFeedInShapes(policy: Option<string>, date: Option<string>,
                           time: Option<string>, damage: Option<string>)
    requires policy.Some? ==> CaptureShape(PolicyNumber, policy.value)
    requires date.Some? ==> DateShape(date.value)
    requires time.Some? ==> IsMeridiem(time.value)
    requires damage.Some? ==> AllDigits(damage.value)
    ensures policy.Some? ==> '\n' !in policy.value
    ensures date.Some? ==> '\n' !in date.value
    ensures time.Some? ==> '\n' !in time.value
    ensures damage.Some? ==> '\n' !in damage.value
  {
    if policy.Some? {
      CaptureHasNoLineFeed(PolicyNumber, policy.value);
    }
    if date.Some? {
      CaptureHasNoLineFeed(DateOfLoss, date.value);
    }
    if time.Some? {
      CaptureHasNoLineFeed(TimeOfLoss, time.value);
    }
    if damage.Some? {
      var v := damage.value;
      assert forall m :: 0 <= m < |v| ==> v[m] != '\n';
    }
  }
}
