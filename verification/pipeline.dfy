/** The three stages chained: extraction, validation, routing. The record
    passed between the stages is the extractor's output, so the validator and
    the router only ever see what the extractor can produce. */
module Pipeline {
  import opened Wrappers
  import opened Text
  import opened Numbers
  import opened Models
  import opened Extractor
  import opened Validator
  import opened Router

  /** The final report: the extracted record in its dictionary view, the
      missing mandatory names, and the routing decision. */
  datatype Report = Report(
    extractedFields: seq<(string, Option<string>)>,
    missingFields: seq<string>,
    recommendedRoute: string,
    reasoning: string,
    confidenceScore: real
  )

  /** Runs the stages on the text of one claim document. */
  function Process(text: string): (r: Report)
    ensures |r.extractedFields| == |AttributeNames|
    ensures FromFields(r.extractedFields) == Extract(text)
    ensures forall n :: n in r.missingFields <==> n in MandatoryFields && !Present(Get(Extract(text), n))
    ensures r.recommendedRoute in {"Manual Review", "Investigation Flag", "Specialist Queue", "Fast-track"}
    ensures r.confidenceScore in Confidences
    ensures r.extractedFields == Fields(Extract(text))
    ensures r.missingFields == FindMissingFields(Extract(text))
    ensures var data := Extract(text);
      var d := RouteClaim(data, FindMissingFields(data), ValidateConsistency(data));
      && r.recommendedRoute == d.route.Name()
      && r.reasoning == d.reasoning
      && r.confidenceScore == d.confidence
  {
    var data := Extract(text);
    var missing := FindMissingFields(data);
    var inconsistencies := ValidateConsistency(data);
    var d := RouteClaim(data, missing, inconsistencies);
    FieldsRoundTrip(data);
    Report(Fields(data), missing, d.route.Name(), d.reasoning, d.confidence)
  }

  /** The extractor always sets a non-empty claim type, so the validator
      never reports it missing. */
  lemma ClaimTypeNeverMissing(text: string)
    ensures "claim_type" !in FindMissingFields(Extract(text))
  {
    var c := Extract(text);
    assert Get(c, "claim_type") == c.claimType;
  }

  /** The extractor stores damage as a digit string, and a non-empty digit
      string always reads as a number: the not-numeric finding cannot arise
      from extracted data. */
  lemma DamageNeverNotNumeric(text: string)
    ensures NotNumericDamage !in ValidateConsistency(Extract(text))
  {
    var c := Extract(text);
    if Present(c.estimatedDamage) {
      DigitsParse(c.estimatedDamage.value);
    }
  }

  /** On extracted data the only possible finding is an amount made of
      zeros alone. */
  lemma InvalidIffZeroDamage(text: string)
    ensures ValidateConsistency(Extract(text)) == [InvalidDamage] <==>
      var damage := Extract(text).estimatedDamage;
      Present(damage) && forall i :: 0 <= i < |damage.value| ==> damage.value[i] == '0'
  {
    var damage := Extract(text).estimatedDamage;
    if Present(damage) {
      DigitsParse(damage.value);
      WholeValueZero(damage.value);
    }
  }

  /** The claim type the router reads is the classification of the
      flattened text. */
  lemma ClaimTypeIsClassification(text: string)
    ensures Extract(text).claimType == Some(ClassifyType(Flatten(text)))
  {
    var flat := Flatten(text);
    assert Extract(text) == Assemble(Find(PolicyNumber, flat), Find(DateOfLoss, flat), Find(TimeOfLoss, flat),
                                     DamageDigits(Find(EstimateAmount, flat)),
                                     StrippedDescription(Find(Description, flat)), ClassifyType(flat));
  }

  /** The route names are pairwise different, so a report names its route
      unambiguously. */
  lemma RouteNamesDistinct(a: Route, b: Route)
    ensures a.Name() == b.Name() <==> a == b
  {
  }

  /** A document without a policy-number label is sent to manual review,
      with policy_number reported first among the missing fields. */
  lemma NoPolicyLabelManualReview(text: string)
    requires !LabelOccurs(Flatten(text), Label(PolicyNumber))
    ensures Process(text).recommendedRoute == "Manual Review"
    ensures Process(text).confidenceScore == 0.60
    ensures |Process(text).missingFields| > 0 && Process(text).missingFields[0] == "policy_number"
  {
    var c := Extract(text);
    NoLabelNoAttribute(text, PolicyNumber);
    assert !Present(Get(c, "policy_number"));
    var missing := FindMissingFields(c);
    assert "policy_number" in missing;
    assert missing[0] == "policy_number" by {
      assert MissingAmong(c, MandatoryFields) == ["policy_number"] + MissingAmong(c, MandatoryFields[1..]);
    }
  }

  /** The router's injury test on extracted data is a search for "injury"
      in the lower-cased flattened document. */
  lemma ExtractedInjuryType(text: string)
    ensures LoweredClaimType(Extract(text)) == "injury" <==> Occurs(Lower(Flatten(text)), "injury")
  {
    ClaimTypeIsClassification(text);
    var t := ClassifyType(Flatten(text));
    LowerOfLower(t);
  }

  /** The manual-review message names every missing attribute. */
  lemma MissingMessageMentions(missing: seq<string>, name: string)
    requires name in missing
    ensures Occurs("Mandatory fields missing: " + Join(", ", missing) + ".", name)
  {
    var k :| 0 <= k < |missing| && missing[k] == name;
    JoinMentions(", ", missing, k);
    var joined := Join(", ", missing);
    var reasoning := "Mandatory fields missing: " + joined + ".";
    var o := JoinOffset(", ", missing, k);
    assert reasoning[26 + o..26 + o + |name|] == joined[o..o + |name|];
    assert OccursAt(reasoning, name, 26 + o);
  }

  /** A mandatory attribute whose label is absent is reported missing. */
  lemma NoLabelReportedMissing(text: string, p: Pattern)
    requires p != TimeOfLoss
    requires !LabelOccurs(Flatten(text), Label(p))
    ensures Attribute(p) in FindMissingFields(Extract(text))
  {
    NoLabelNoAttribute(text, p);
  }

  /** A document missing the label of a mandatory attribute is sent to
      manual review, and the reasoning names that attribute. */
  lemma NoLabelManualReview(text: string, p: Pattern)
    requires p != TimeOfLoss
    requires !LabelOccurs(Flatten(text), Label(p))
    ensures Attribute(p) in Process(text).missingFields
    ensures Process(text).recommendedRoute == "Manual Review"
    ensures Process(text).confidenceScore == 0.60
    ensures Occurs(Process(text).reasoning, Attribute(p))
  {
    var c := Extract(text);
    var missing := FindMissingFields(c);
    NoLabelReportedMissing(text, p);
    MissingMessageMentions(missing, Attribute(p));
  }

  /** Any mention of "injury", in any letter case, anywhere in the document
      keeps it off the fast track; and a claim reaches the specialist queue
      only through such a mention. */
  lemma InjuryMentionDecidesSpecialist(text: string)
    ensures Process(text).recommendedRoute == "Fast-track" ==> !Occurs(Lower(Flatten(text)), "injury")
    ensures Process(text).recommendedRoute == "Specialist Queue" ==> Occurs(Lower(Flatten(text)), "injury")
  {
    var c := Extract(text);
    var d := RouteClaim(c, FindMissingFields(c), ValidateConsistency(c));
    assert Process(text).recommendedRoute == d.route.Name();
    ExtractedInjuryType(text);
    RouteNamesDistinct(d.route, FastTrack);
    RouteNamesDistinct(d.route, SpecialistQueue);
  }

  /** A fast-tracked document carries a positive whole-number amount below
      the threshold, taken from the digits after its estimate label. */
  lemma FastTrackDamage(text: string)
    requires Process(text).recommendedRoute == "Fast-track"
    ensures var damage := Extract(text).estimatedDamage;
      damage.Some? && damage.value != [] && AllDigits(damage.value)
      && 0 < WholeValue(damage.value) < 25000
  {
    var c := Extract(text);
    var d := RouteClaim(c, FindMissingFields(c), ValidateConsistency(c));
    RouteNamesDistinct(d.route, FastTrack);
    assert d.route == FastTrack;
    DigitsParse(c.estimatedDamage.value);
  }
}
