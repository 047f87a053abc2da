/** The router: an ordered decision table over the record and the
    validator's findings. The first rule whose condition holds decides the
    route, the reasoning text and a fixed confidence. */
module Router {
  import opened Wrappers
  import opened Text
  import opened Numbers
  import opened Models

  datatype Route = ManualReview | InvestigationFlag | SpecialistQueue | FastTrack {
    /** The route name as it is reported. */
    function Name(): string {
      match this
      case ManualReview => "Manual Review"
      case InvestigationFlag => "Investigation Flag"
      case SpecialistQueue => "Specialist Queue"
      case FastTrack => "Fast-track"
    }
  }

  /** The (route, reasoning, confidence) triple. */
  datatype Decision = Decision(route: Route, reasoning: string, confidence: real)

  /** Checked against the lower-cased description, in this order. */
  const FraudKeywords: seq<string> := ["fraud", "staged", "inconsistent"]

  /** Damage strictly below this amount is fast-tracked. */
  const FastTrackLimit: real := 25000.0

  /** The confidences the router can report. The initial 0.95 of the source
      is overwritten on every path and is not among them. */
  const Confidences: set<real> := {0.60, 0.65, 0.85, 0.90, 0.92, 0.75}

  /** The first word of `words` that occurs in `text`, if any. */
  function FirstKeyword(words: seq<string>, text: string): (r: Option<string>)
    ensures r.None? <==> forall k :: 0 <= k < |words| ==> !Occurs(text, words[k])
    ensures r.Some? ==> exists k :: 0 <= k < |words| && words[k] == r.value && Occurs(text, words[k])
                          && forall m :: 0 <= m < k ==> !Occurs(text, words[m])
  {
    if words == [] then None
    else if Contains(text, words[0]) then Some(words[0])
    else
      var r := FirstKeyword(words[1..], text);
      assert forall k :: 1 <= k < |words| ==> words[k] == words[1..][k - 1];
      assert r.Some? ==> exists k :: 0 <= k < |words| && words[k] == r.value && Occurs(text, words[k])
                          && forall m :: 0 <= m < k ==> !Occurs(text, words[m]) by {
        if r.Some? {
          var k :| 0 <= k < |words[1..]| && words[1..][k] == r.value && Occurs(text, words[1..][k])
                   && forall m :: 0 <= m < k ==> !Occurs(text, words[1..][m]);
          assert words[k + 1] == r.value;
          assert forall m :: 1 <= m < k + 1 ==> words[m] == words[1..][m - 1];
        }
      }
      r
  }

  /** No fraud keyword occurs in the lower-cased description. */
  predicate FraudFree(c: ClaimData) {
    forall k :: 0 <= k < |FraudKeywords| ==> !Contains(LoweredDescription(c), FraudKeywords[k])
  }

  /** `(claim_data.get("description") or "").lower()`. */
  function LoweredDescription(c: ClaimData): (r: string)
    ensures c.description.None? ==> r == []
    ensures |r| == |OrEmpty(c.description)|
    ensures forall i :: 0 <= i < |r| ==> r[i] == LowerChar(c.description.value[i])
    ensures forall i :: 0 <= i < |r| ==> !IsUpper(r[i])
  {
    Lower(OrEmpty(c.description))
  }

  /** `(claim_data.get("claim_type") or "").lower()`. */
  function LoweredClaimType(c: ClaimData): (r: string)
    ensures c.claimType.None? ==> r == []
    ensures |r| == |OrEmpty(c.claimType)|
    ensures forall i :: 0 <= i < |r| ==> r[i] == LowerChar(c.claimType.value[i])
    ensures forall i :: 0 <= i < |r| ==> !IsUpper(r[i])
  {
    Lower(OrEmpty(c.claimType))
  }

  /** The damage amount when it is present and reads as a number. */
  function DamageValue(c: ClaimData): (r: Option<Decimal>)
    ensures r.Some? ==> WellFormed(r.value)
    ensures r.Some? <==> Present(c.estimatedDamage) && Parse(c.estimatedDamage.value).Some?
    ensures r.Some? ==> r == Parse(c.estimatedDamage.value)
  {
    if Present(c.estimatedDamage) then Parse(c.estimatedDamage.value) else None
  }

  /** Rules 3 to 6 of `route_claim`, for a claim with no findings: fraud
      keywords first, then injury claims, then small damage, else manual
      review. A damage text that does not parse makes the fast-track rule
      not apply; it never makes the router fail. */
  function RouteClean(c: ClaimData): (d: Decision)
    ensures d.route == InvestigationFlag <==> !FraudFree(c)
    ensures d.route == SpecialistQueue <==> FraudFree(c) && LoweredClaimType(c) == "injury"
    ensures d.route == FastTrack <==>
      FraudFree(c) && LoweredClaimType(c) != "injury"
      && DamageValue(c).Some? && Value(DamageValue(c).value) < FastTrackLimit
    ensures d.route == InvestigationFlag ==>
      exists k :: 0 <= k < |FraudKeywords| && Occurs(LoweredDescription(c), FraudKeywords[k])
        && (forall m :: 0 <= m < k ==> !Occurs(LoweredDescription(c), FraudKeywords[m]))
        && d.reasoning == "Description contains suspicious keyword: '" + FraudKeywords[k] + "'."
    ensures d.route == FastTrack ==>
      d.reasoning == "Estimated damage " + Render(DamageValue(c).value) + " is below 25,000 threshold."
    ensures d.route == SpecialistQueue ==> d.reasoning == "Claim type is injury and requires specialist handling."
    ensures d.route == ManualReview ==> d.reasoning == "Claim does not meet fast-track criteria."
    ensures d.confidence == (match d.route
                             case InvestigationFlag => 0.85
                             case SpecialistQueue => 0.90
                             case FastTrack => 0.92
                             case ManualReview => 0.75)
  {
    match FirstKeyword(FraudKeywords, LoweredDescription(c))
    case Some(word) =>
      Decision(InvestigationFlag, "Description contains suspicious keyword: '" + word + "'.", 0.85)
    case None =>
      if LoweredClaimType(c) == "injury" then
        Decision(SpecialistQueue, "Claim type is injury and requires specialist handling.", 0.90)
      else if DamageValue(c).Some? && Value(DamageValue(c).value) < FastTrackLimit then
        Decision(FastTrack, "Estimated damage " + Render(DamageValue(c).value) + " is below 25,000 threshold.", 0.92)
      else
        Decision(ManualReview, "Claim does not meet fast-track criteria.", 0.75)
  }

  /** `route_claim`: missing fields first, then inconsistencies, then the
      rules for a claim with no findings. */
  function RouteClaim(c: ClaimData, missing: seq<string>, inconsistencies: seq<string>): (d: Decision)
    ensures d.confidence in Confidences
    ensures missing != [] ==>
      d == Decision(ManualReview, "Mandatory fields missing: " + Join(", ", missing) + ".", 0.60)
    ensures missing == [] && inconsistencies != [] ==>
      d == Decision(ManualReview, "Data inconsistencies detected: " + Join(", ", inconsistencies) + ".", 0.65)
    ensures missing == [] && inconsistencies == [] ==> d == RouteClean(c)
    ensures d.route == InvestigationFlag <==> missing == [] && inconsistencies == [] && !FraudFree(c)
    ensures d.route == SpecialistQueue <==>
      missing == [] && inconsistencies == [] && FraudFree(c) && LoweredClaimType(c) == "injury"
    ensures d.route == FastTrack <==>
      missing == [] && inconsistencies == [] && FraudFree(c) && LoweredClaimType(c) != "injury"
      && DamageValue(c).Some? && Value(DamageValue(c).value) < FastTrackLimit
  {
    if missing != [] then
      Decision(ManualReview, "Mandatory fields missing: " + Join(", ", missing) + ".", 0.60)
    else if inconsistencies != [] then
      Decision(ManualReview, "Data inconsistencies detected: " + Join(", ", inconsistencies) + ".", 0.65)
    else RouteClean(c)
  }

  /** The decision reads the record only through its description, claim
      type and estimated damage: the other thirteen attributes never matter. */
  lemma RouteReadsThreeAttributes(c: ClaimData, e: ClaimData, missing: seq<string>, inconsistencies: seq<string>)
    requires c.description == e.description && c.claimType == e.claimType
    requires c.estimatedDamage == e.estimatedDamage
    ensures RouteClaim(c, missing, inconsistencies) == RouteClaim(e, missing, inconsistencies)
  {
  }

  /** Lowering the damage of a fast-tracked claim keeps it fast-tracked. */
  lemma FastTrackMonotone(c: ClaimData, v: string)
    requires RouteClaim(c, [], []).route == FastTrack
    requires Present(Some(v)) && Parse(v).Some?
    requires Value(Parse(v).value) <= Value(DamageValue(c).value)
    ensures RouteClaim(c.(estimatedDamage := Some(v)), [], []).route == FastTrack
  {
    var e := c.(estimatedDamage := Some(v));
    assert LoweredDescription(e) == LoweredDescription(c);
    assert LoweredClaimType(e) == LoweredClaimType(c);
    assert DamageValue(e) == Parse(v);
  }

  /** An injury claim, in any letter case, goes to the specialists whatever
      its damage, unless a fraud keyword or a finding comes first. */
  lemma InjuryIgnoresDamage(c: ClaimData, v: Option<string>)
    requires LoweredClaimType(c) == "injury"
    requires FraudFree(c)
    ensures RouteClaim(c.(estimatedDamage := v), [], []).route == SpecialistQueue
  {
    var e := c.(estimatedDamage := v);
    assert LoweredDescription(e) == LoweredDescription(c);
    assert LoweredClaimType(e) == LoweredClaimType(c);
  }

  /** A fraud keyword overrides both the injury rule and the fast-track rule. */
  lemma FraudOverridesInjuryAndDamage(c: ClaimData, t: Option<string>, v: Option<string>)
    requires !FraudFree(c)
    ensures RouteClaim(c.(claimType := t, estimatedDamage := v), [], []).route == InvestigationFlag
  {
    var e := c.(claimType := t, estimatedDamage := v);
    assert LoweredDescription(e) == LoweredDescription(c);
  }

  /** Missing fields are listed in the reasoning, joined by ", ". */
  lemma MissingFieldsExample(c: ClaimData)
    ensures RouteClaim(c, ["policy_number", "claim_type"], []).reasoning
      == "Mandatory fields missing: policy_number, claim_type."
  {
    assert ["policy_number", "claim_type"][1..] == ["claim_type"];
    MissingFieldsMessage();
  }

  /** The manual-review message for two missing names. */
  lemma MissingFieldsMessage()
    ensures "Mandatory fields missing: " + ("policy_number" + ", " + "claim_type") + "."
      == "Mandatory fields missing: policy_number, claim_type."
  {
  }

  /** The damage text "1200" reads as the whole number 1200. */
  lemma DamageOf1200(c: ClaimData)
    requires c.estimatedDamage == Some("1200")
    ensures DamageValue(c) == Some(Decimal(false, "1200", ""))
    ensures Value(DamageValue(c).value) == 1200.0
  {
    DigitsParse("1200");
    assert WholeValue("1200") == 1200 by {
      assert "1200"[..3] == "120" && "120"[..2] == "12" && "12"[..1] == "1" && "1"[..0] == "";
    }
  }

  /** A description with no fraud keyword, on a vehicle claim. */
  lemma QuietVehicle(c: ClaimData)
    requires c.description == Some("rear-ended at a light") && c.claimType == Some("vehicle")
    ensures FirstKeyword(FraudKeywords, LoweredDescription(c)) == None
    ensures LoweredClaimType(c) == "vehicle"
  {
    LowerOfLower("rear-ended at a light");
    LowerOfLower("vehicle");
    AbsentCharNoOccurrence("rear-ended at a light", "fraud", 'f');
    AbsentCharNoOccurrence("rear-ended at a light", "staged", 's');
    AbsentCharNoOccurrence("rear-ended at a light", "inconsistent", 'c');
  }

  /** The fast-track message for a damage of 1200. */
  lemma FastTrackMessage1200()
    ensures "Estimated damage " + Render(Decimal(false, "1200", "")) + " is below 25,000 threshold."
      == "Estimated damage 1200.0 is below 25,000 threshold."
  {
    RenderExample();
    FastTrackMessageText("1200.0");
  }

  /** The fast-track message around the printed amount "1200.0". */
  lemma FastTrackMessageText(shown: string)
    requires shown == "1200.0"
    ensures "Estimated damage " + shown + " is below 25,000 threshold."
      == "Estimated damage 1200.0 is below 25,000 threshold."
  {
  }

  /** A small vehicle claim with no fraud keyword is fast-tracked, and its
      amount is shown the way a float prints. */
  lemma FastTrackExample(c: ClaimData)
    requires c.description == Some("rear-ended at a light") && c.claimType == Some("vehicle")
    requires c.estimatedDamage == Some("1200")
    ensures RouteClaim(c, [], []).route == FastTrack
    ensures RouteClaim(c, [], []).reasoning == "Estimated damage 1200.0 is below 25,000 threshold."
    ensures RouteClaim(c, [], []).confidence == 0.92
  {
    DamageOf1200(c);
    QuietVehicle(c);
    var d := RouteClaim(c, [], []);
    assert d.route == FastTrack;
    assert d.reasoning == "Estimated damage " + Render(Decimal(false, "1200", "")) + " is below 25,000 threshold.";
    FastTrackMessage1200();
  }

  /** Lower-casing the sample description only changes its first letter. */
  lemma LowerStagedDescription()
    ensures Lower("Staged crash") == "staged crash"
  {
    var s := "Staged crash";
    assert LowerChar('S') == 's';
    assert forall i :: 1 <= i < |s| ==> !IsUpper(s[i]);
  }

  /** Of the three keywords, "staged" is the first the sample description holds. */
  lemma StagedIsFirstKeyword()
    ensures FirstKeyword(FraudKeywords, "staged crash") == Some("staged")
  {
    var lowered := "staged crash";
    AbsentCharNoOccurrence(lowered, "fraud", 'f');
    assert OccursAt(lowered, "staged", 0);
    assert FraudKeywords[1..] == ["staged", "inconsistent"];
  }

  /** The fraud check is case-insensitive and names the keyword it found. */
  lemma FraudExample(c: ClaimData)
    requires c.description == Some("Staged crash")
    ensures RouteClaim(c, [], []).route == InvestigationFlag
    ensures RouteClaim(c, [], []).reasoning == "Description contains suspicious keyword: 'staged'."
  {
    LowerStagedDescription();
    StagedIsFirstKeyword();
    StagedMessage();
  }

  /** The investigation message for the keyword "staged". */
  lemma StagedMessage()
    ensures "Description contains suspicious keyword: '" + "staged" + "'."
      == "Description contains suspicious keyword: 'staged'."
  {
  }
}
