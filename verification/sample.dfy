/** A small vehicle claim followed through the whole pipeline: the policy
    number, date of loss, estimate and description each on a line of their
    own, no injury and no fraud keyword. Every mandatory attribute is
    extracted, nothing is inconsistent, and the claim is fast-tracked. */
module SampleClaim {
  import opened Wrappers
  import opened Text
  import opened Numbers
  import opened Models
  import opened Extractor
  import opened Validator
  import opened Router
  import opened Pipeline

  const PolicyLine: string := "POLICY NUMBER" + ": " + "ABC123456"
  const DateLine: string := "DATE OF LOSS" + ": " + "5/1/2024"
  const AmountLine: string := "ESTIMATE AMOUNT" + ": " + "$1,200"
  const DescriptionLine: string := "DESCRIPTION OF ACCIDENT" + ": " + "minor fender bender vehicle"

  /** The document, one attribute per line. */
  const Document: string := PolicyLine + "\n" + DateLine + "\n" + AmountLine + "\n" + DescriptionLine

  /** The document with its line feeds turned into spaces. Its labels start
      at 0, 25, 48 and 72, and their values at 15, 39, 65 and 97. */
  const Flat: string := PolicyLine + " " + DateLine + " " + AmountLine + " " + DescriptionLine

  // ---------------------------------------------------------------------
  // Flattening
  // ---------------------------------------------------------------------

  /** None of the four lines holds a line feed. */
  lemma LinesHaveNoLineFeed()
    ensures '\n' !in PolicyLine && '\n' !in DateLine && '\n' !in AmountLine
    ensures '\n' !in DescriptionLine
  {
    assert '\n' !in "POLICY NUMBER" && '\n' !in "ABC123456";
    assert '\n' !in "DATE OF LOSS" && '\n' !in "5/1/2024";
    assert '\n' !in "ESTIMATE AMOUNT" && '\n' !in "$1,200";
    assert '\n' !in "DESCRIPTION OF ACCIDENT";
    DescriptionValueOneLine();
  }

  lemma DescriptionValueOneLine()
    ensures '\n' !in "minor fender bender vehicle"
  {
    assert "minor fender bender vehicle" == "minor fender" + " bender vehicle";
  }

  /** The extractor searches the document with its lines joined by spaces. */
  lemma DocumentFlattens()
    ensures Flatten(Document) == Flat
  {
    LinesHaveNoLineFeed();
    ReplaceCharAppend(PolicyLine + "\n" + DateLine + "\n" + AmountLine + "\n", DescriptionLine, '\n', ' ');
    ReplaceCharAppend(PolicyLine + "\n" + DateLine + "\n" + AmountLine, "\n", '\n', ' ');
    ReplaceCharAppend(PolicyLine + "\n" + DateLine + "\n", AmountLine, '\n', ' ');
    ReplaceCharAppend(PolicyLine + "\n" + DateLine, "\n", '\n', ' ');
    ReplaceCharAppend(PolicyLine + "\n", DateLine, '\n', ' ');
    ReplaceCharAppend(PolicyLine, "\n", '\n', ' ');
    ReplaceCharAbsent(PolicyLine, '\n', ' ');
    ReplaceCharAbsent(DateLine, '\n', ' ');
    ReplaceCharAbsent(AmountLine, '\n', ' ');
    ReplaceCharAbsent(DescriptionLine, '\n', ' ');
    assert ReplaceChar("\n", '\n', ' ') == " ";
  }

  // ---------------------------------------------------------------------
  // Where the labels are
  // ---------------------------------------------------------------------

  /** Each label is written where its line starts. */
  lemma LabelsWhereWritten()
    ensures LabelAt(Flat, Label(PolicyNumber), 0)
    ensures LabelAt(Flat, Label(DateOfLoss), 25)
    ensures LabelAt(Flat, Label(EstimateAmount), 48)
    ensures LabelAt(Flat, Label(Description), 72)
  {
    PolicyLabelWritten();
    DateLabelWritten();
    AmountLabelWritten();
    DescriptionLabelWritten();
  }

  lemma PolicyLabelWritten()
    ensures LabelAt(Flat, "POLICY NUMBER", 0)
  {
    assert OccursAt(Flat, "POLICY NUMBER", 0);
    LabelAtOccurrence(Flat, "POLICY NUMBER", 0);
  }

  lemma DateLabelWritten()
    ensures LabelAt(Flat, "DATE OF LOSS", 25)
  {
    assert OccursAt(Flat, "DATE OF LOSS", 25);
    LabelAtOccurrence(Flat, "DATE OF LOSS", 25);
  }

  lemma AmountLabelWritten()
    ensures LabelAt(Flat, "ESTIMATE AMOUNT", 48)
  {
    assert OccursAt(Flat, "ESTIMATE AMOUNT", 48);
    LabelAtOccurrence(Flat, "ESTIMATE AMOUNT", 48);
  }

  lemma DescriptionLabelWritten()
    ensures LabelAt(Flat, "DESCRIPTION OF ACCIDENT", 72)
  {
    assert OccursAt(Flat, "DESCRIPTION OF ACCIDENT", 72);
    LabelAtOccurrence(Flat, "DESCRIPTION OF ACCIDENT", 72);
  }

  /** The policy line holds no 'd', so the date label first occurs at 25. */
  lemma DateLabelFirst()
    ensures forall k :: 0 <= k < 25 ==> !LabelAt(Flat, Label(DateOfLoss), k)
  {
    assert 'D' !in "POLICY NUMBER" && 'd' !in "POLICY NUMBER";
    assert 'D' !in "ABC123456" && 'd' !in "ABC123456";
    forall k | 0 <= k < 25 ensures LowerChar(Flat[k]) != 'd' {
    }
    NoLabelWhereStartDiffers(Flat, "DATE OF LOSS", 0, 25);
  }

  /** Before 48 an 'e' occurs only at 11 and 28, followed by 'R' and a
      space, so the amount label first occurs at 48. */
  lemma AmountLabelFirst()
    ensures forall k :: 0 <= k < 48 ==> !LabelAt(Flat, Label(EstimateAmount), k)
  {
    AmountLabelNotBefore11();
    AmountLabelNotAt11Or28();
    AmountLabelNotFrom12To28();
    AmountLabelNotFrom29To48();
  }

  lemma AmountLabelNotBefore11()
    ensures forall k :: 0 <= k < 11 ==> !LabelAt(Flat, "ESTIMATE AMOUNT", k)
  {
    assert "POLICY NUMBER" == "POLICY NUMB" + "E" + "R";
    assert 'E' !in "POLICY NUMB" && 'e' !in "POLICY NUMB";
    forall k | 0 <= k < 11 ensures LowerChar(Flat[k]) != 'e' {
    }
    NoLabelWhereStartDiffers(Flat, "ESTIMATE AMOUNT", 0, 11);
  }

  lemma AmountLabelNotAt11Or28()
    ensures !LabelAt(Flat, "ESTIMATE AMOUNT", 11) && !LabelAt(Flat, "ESTIMATE AMOUNT", 28)
  {
    assert Flat[12] == 'R';
    NoLabelWhereStartDiffers(Flat, "ESTIMATE AMOUNT", 11, 12);
    assert Flat[29] == ' ';
    NoLabelWhereStartDiffers(Flat, "ESTIMATE AMOUNT", 28, 29);
  }

  lemma AmountLabelNotFrom12To28()
    ensures forall k :: 12 <= k < 28 ==> !LabelAt(Flat, "ESTIMATE AMOUNT", k)
  {
    assert "POLICY NUMBER" == "POLICY NUMB" + "E" + "R";
    assert "DATE OF LOSS" == "DAT" + "E" + " OF LOSS";
    assert 'E' !in "ABC123456" && 'e' !in "ABC123456";
    assert 'E' !in "DAT" && 'e' !in "DAT";
    forall k | 12 <= k < 28 ensures LowerChar(Flat[k]) != 'e' {
    }
    NoLabelWhereStartDiffers(Flat, "ESTIMATE AMOUNT", 12, 28);
  }

  lemma AmountLabelNotFrom29To48()
    ensures forall k :: 29 <= k < 48 ==> !LabelAt(Flat, "ESTIMATE AMOUNT", k)
  {
    assert "DATE OF LOSS" == "DAT" + "E" + " OF LOSS";
    assert 'E' !in " OF LOSS" && 'e' !in " OF LOSS";
    assert 'E' !in "5/1/2024" && 'e' !in "5/1/2024";
    forall k | 29 <= k < 48 ensures LowerChar(Flat[k]) != 'e' {
    }
    NoLabelWhereStartDiffers(Flat, "ESTIMATE AMOUNT", 29, 48);
  }

  /** Before 72 a 'd' occurs only at 25, followed by 'A', so the
      description label first occurs at 72. */
  lemma DescriptionLabelFirst()
    ensures forall k :: 0 <= k < 72 ==> !LabelAt(Flat, Label(Description), k)
  {
    var anchor := "DESCRIPTION OF ACCIDENT";
    DescriptionLabelNotBefore25();
    assert Flat[26] == 'A';
    NoLabelWhereStartDiffers(Flat, anchor, 25, 26);
    DescriptionLabelNotFrom26To48();
    DescriptionLabelNotFrom48To72();
  }

  lemma DescriptionLabelNotBefore25()
    ensures forall k :: 0 <= k < 25 ==> !LabelAt(Flat, "DESCRIPTION OF ACCIDENT", k)
  {
    assert 'D' !in "POLICY NUMBER" && 'd' !in "POLICY NUMBER";
    assert 'D' !in "ABC123456" && 'd' !in "ABC123456";
    forall k | 0 <= k < 25 ensures LowerChar(Flat[k]) != 'd' {
    }
    NoLabelWhereStartDiffers(Flat, "DESCRIPTION OF ACCIDENT", 0, 25);
  }

  lemma DescriptionLabelNotFrom26To48()
    ensures forall k :: 26 <= k < 48 ==> !LabelAt(Flat, "DESCRIPTION OF ACCIDENT", k)
  {
    assert "DATE OF LOSS" == "D" + "ATE OF LOSS";
    assert 'D' !in "ATE OF LOSS" && 'd' !in "ATE OF LOSS";
    assert 'D' !in "5/1/2024" && 'd' !in "5/1/2024";
    forall k | 26 <= k < 48 ensures LowerChar(Flat[k]) != 'd' {
    }
    NoLabelWhereStartDiffers(Flat, "DESCRIPTION OF ACCIDENT", 26, 48);
  }

  lemma DescriptionLabelNotFrom48To72()
    ensures forall k :: 48 <= k < 72 ==> !LabelAt(Flat, "DESCRIPTION OF ACCIDENT", k)
  {
    assert 'D' !in "ESTIMATE AMOUNT" && 'd' !in "ESTIMATE AMOUNT";
    assert 'D' !in "$1,200" && 'd' !in "$1,200";
    forall k | 48 <= k < 72 ensures LowerChar(Flat[k]) != 'd' {
    }
    NoLabelWhereStartDiffers(Flat, "DESCRIPTION OF ACCIDENT", 48, 72);
  }

  // ---------------------------------------------------------------------
  // The values after the labels
  // ---------------------------------------------------------------------

  /** After "POLICY NUMBER" comes ": ", then nine policy characters and a
      space. */
  lemma PolicyValue()
    ensures MatchAfterLabel(PolicyNumber, Flat, 13) == Some("ABC123456")
  {
    assert SkipSpaces(Flat, 13) == 13;
    assert SkipSpaces(Flat, 14) == 15;
    PolicyRun();
    assert Flat[15..24] == "ABC123456";
  }

  lemma PolicyRun()
    ensures RunEnd(Flat, 15, PolicyChars) == 24
  {
    assert forall k :: 15 <= k < 24 ==> PolicyChars.Has(Flat[k]);
    assert !PolicyChars.Has(Flat[24]);
  }

  /** After "DATE OF LOSS" comes ": ", then a one-digit day and month and
      a four-digit year. */
  lemma DateValue()
    ensures MatchAfterLabel(DateOfLoss, Flat, 37) == Some("5/1/2024")
  {
    assert SkipSpaces(Flat, 37) == 37;
    assert SkipSpaces(Flat, 38) == 39;
    DateFields();
    assert Flat[39..47] == "5/1/2024";
  }

  lemma DateFields()
    ensures SlashField(Flat, 39) == Some(41) && SlashField(Flat, 41) == Some(43)
    ensures AllDigits(Flat[43..47])
  {
    assert Flat[43..47] == "2024";
  }

  /** After "ESTIMATE AMOUNT" comes ": $", then the digits and comma of
      "1,200" and a space. */
  lemma AmountValue()
    ensures MatchAfterLabel(EstimateAmount, Flat, 63) == Some("1,200")
  {
    assert SkipSpaces(Flat, 63) == 63;
    assert SkipSpaces(Flat, 64) == 65;
    assert ValueStart(EstimateAmount, Flat, 65) == 66;
    AmountRun();
    assert Flat[66..71] == "1,200";
  }

  lemma AmountRun()
    ensures RunEnd(Flat, 66, AmountChars) == 71
  {
    assert forall k :: 66 <= k < 71 ==> AmountChars.Has(Flat[k]);
    assert !AmountChars.Has(Flat[71]);
  }

  /** After "DESCRIPTION OF ACCIDENT" comes ": ", then the rest of the
      text. */
  lemma DescriptionValue()
    ensures MatchAfterLabel(Description, Flat, 95) == Some("minor fender bender vehicle")
  {
    DocumentFlattens();
    assert AfterSeparator(Flat, 95) == 97 by {
      assert SkipSpaces(Flat, 95) == 95;
      assert SkipSpaces(Flat, 96) == 97;
    }
    assert Flat[97..] == "minor fender bender vehicle";
  }

  // ---------------------------------------------------------------------
  // The extracted record
  // ---------------------------------------------------------------------

  /** Each search reports the value written after its label. */
  lemma SearchesFind()
    ensures Find(PolicyNumber, Flat) == Some("ABC123456")
    ensures Find(DateOfLoss, Flat) == Some("5/1/2024")
    ensures Find(EstimateAmount, Flat) == Some("1,200")
    ensures Find(Description, Flat) == Some("minor fender bender vehicle")
  {
    PolicyFound();
    DateFound();
    AmountFound();
    DescriptionFound();
  }

  lemma PolicyFound()
    ensures Find(PolicyNumber, Flat) == Some("ABC123456")
  {
    PolicyLabelWritten();
    PolicyValue();
    assert Label(PolicyNumber) == "POLICY NUMBER" && |Label(PolicyNumber)| == 13;
    FindAtFirstLabel(PolicyNumber, Flat, 0, "ABC123456");
  }

  lemma DateFound()
    ensures Find(DateOfLoss, Flat) == Some("5/1/2024")
  {
    DateLabelWritten();
    DateValue();
    DateLabelFirst();
    assert Label(DateOfLoss) == "DATE OF LOSS" && |Label(DateOfLoss)| == 12;
    FindAtFirstLabel(DateOfLoss, Flat, 25, "5/1/2024");
  }

  lemma AmountFound()
    ensures Find(EstimateAmount, Flat) == Some("1,200")
  {
    AmountLabelWritten();
    AmountValue();
    AmountLabelFirst();
    assert Label(EstimateAmount) == "ESTIMATE AMOUNT" && |Label(EstimateAmount)| == 15;
    FindAtFirstLabel(EstimateAmount, Flat, 48, "1,200");
  }

  lemma DescriptionFound()
    ensures Find(Description, Flat) == Some("minor fender bender vehicle")
  {
    DescriptionLabelWritten();
    DescriptionValue();
    DescriptionLabelFirst();
    assert Label(Description) == "DESCRIPTION OF ACCIDENT" && |Label(Description)| == 23;
    FindAtFirstLabel(Description, Flat, 72, "minor fender bender vehicle");
  }

  /** The document never mentions an injury (it has no 'j'), and its last
      word is "vehicle". */
  lemma FlatIsVehicle()
    ensures ClassifyType(Flat) == "vehicle"
  {
    NoJInFlat();
    AbsentCharNoOccurrence(Lower(Flat), "injury", 'j');
    VehicleAtEnd();
  }

  lemma VehicleAtEnd()
    ensures OccursAt(Lower(Flat), "vehicle", 117)
  {
    assert "minor fender bender vehicle" == "minor fender bender " + "vehicle";
    assert Flat[117..124] == "vehicle";
    LowerSlice(Flat, 117, 124);
    LowerOfLower("vehicle");
  }

  lemma NoJInFlat()
    ensures 'j' !in Lower(Flat)
  {
    NoJInPolicyLine();
    NoJInDateLine();
    NoJInAmountLine();
    NoJInDescriptionLabel();
    NoJInDescriptionValue();
    forall k | 0 <= k < |Flat| ensures Lower(Flat)[k] != 'j' {
    }
  }

  lemma NoJInPolicyLine()
    ensures forall k :: 0 <= k < 25 ==> LowerChar(Flat[k]) != 'j'
  {
    assert 'j' !in "POLICY NUMBER" && 'J' !in "POLICY NUMBER";
    assert 'j' !in "ABC123456" && 'J' !in "ABC123456";
  }

  lemma NoJInDateLine()
    ensures forall k :: 25 <= k < 48 ==> LowerChar(Flat[k]) != 'j'
  {
    assert 'j' !in "DATE OF LOSS" && 'J' !in "DATE OF LOSS";
    assert 'j' !in "5/1/2024" && 'J' !in "5/1/2024";
  }

  lemma NoJInAmountLine()
    ensures forall k :: 48 <= k < 72 ==> LowerChar(Flat[k]) != 'j'
  {
    assert 'j' !in "ESTIMATE AMOUNT" && 'J' !in "ESTIMATE AMOUNT";
    assert 'j' !in "$1,200" && 'J' !in "$1,200";
  }

  lemma NoJInDescriptionLabel()
    ensures forall k :: 72 <= k < 97 ==> LowerChar(Flat[k]) != 'j'
  {
    assert 'j' !in "DESCRIPTION OF ACCIDENT" && 'J' !in "DESCRIPTION OF ACCIDENT";
  }

  lemma NoJInDescriptionValue()
    ensures forall k :: 97 <= k < |Flat| ==> LowerChar(Flat[k]) != 'j'
  {
    assert "minor fender bender vehicle" == "minor fender" + " bender vehicle";
    assert 'j' !in "minor fender" && 'J' !in "minor fender";
    assert 'j' !in " bender vehicle" && 'J' !in " bender vehicle";
  }

  /** The stored amount is the capture without its comma. */
  lemma CommaDropped()
    ensures DeleteChar("1,200", ',') == "1200"
  {
    assert "1,200" == "1" + [','] + "200";
    DeleteCharBetween("1", ',', "200");
    assert "1" + "200" == "1200";
  }

  /** The description has no surrounding whitespace to strip. */
  lemma DescriptionAlreadyStripped()
    ensures Strip("minor fender bender vehicle") == "minor fender bender vehicle"
  {
    var v := "minor fender bender vehicle";
    assert PaddedAt(v, v, 0);
    StripUnique(v, v, 0);
  }

  /** The record the extractor builds from the document. */
  lemma SampleExtracted()
    ensures var c := Extract(Document);
      && c.policyNumber == Some("ABC123456")
      && c.dateOfLoss == Some("5/1/2024")
      && c.estimatedDamage == Some("1200")
      && c.description == Some("minor fender bender vehicle")
      && c.claimType == Some("vehicle")
  {
    DocumentFlattens();
    ExtractTakesSearchResults(Document);
    SearchesFind();
    CommaDropped();
    DescriptionAlreadyStripped();
    FlatIsVehicle();
  }

  // ---------------------------------------------------------------------
  // Validation and routing
  // ---------------------------------------------------------------------

  /** A record holds the attribute values extracted from the document. */
  ghost predicate HoldsSample(c: ClaimData) {
    && c.policyNumber == Some("ABC123456")
    && c.dateOfLoss == Some("5/1/2024")
    && c.estimatedDamage == Some("1200")
    && c.description == Some("minor fender bender vehicle")
    && c.claimType == Some("vehicle")
  }

  /** All five mandatory attributes are present and the amount is a
      positive number, so the validator reports nothing. */
  lemma SampleValidated(c: ClaimData)
    requires HoldsSample(c)
    ensures FindMissingFields(c) == []
    ensures ValidateConsistency(c) == []
  {
    assert Get(c, "policy_number") == c.policyNumber;
    assert Get(c, "date_of_loss") == c.dateOfLoss;
    assert Get(c, "estimated_damage") == c.estimatedDamage;
    assert Get(c, "claim_type") == c.claimType;
    assert Get(c, "description") == c.description;
    DamageOf1200(c);
  }

  /** The description is already in lower case. */
  lemma DescriptionLowered()
    ensures Lower("minor fender bender vehicle") == "minor fender bender vehicle"
  {
    assert "minor fender bender vehicle" == "minor fender" + " bender vehicle";
    assert forall i :: 0 <= i < 12 ==> !IsUpper("minor fender"[i]);
    assert forall i :: 0 <= i < 15 ==> !IsUpper(" bender vehicle"[i]);
    LowerOfLower("minor fender bender vehicle");
  }

  /** The description has neither an 'a' nor an 's'. */
  lemma DescriptionLacksAAndS()
    ensures 'a' !in "minor fender bender vehicle" && 's' !in "minor fender bender vehicle"
  {
    assert "minor fender bender vehicle" == "minor fender" + " bender vehicle";
    assert 'a' !in "minor fender" && 's' !in "minor fender";
    assert 'a' !in " bender vehicle" && 's' !in " bender vehicle";
  }

  /** The description holds no fraud keyword: "fraud" needs an 'a', the
      other two an 's'. */
  lemma SampleQuiet(c: ClaimData)
    requires c.description == Some("minor fender bender vehicle")
    ensures FraudFree(c)
  {
    var d := "minor fender bender vehicle";
    DescriptionLowered();
    DescriptionLacksAAndS();
    AbsentCharNoOccurrence(d, "fraud", 'a');
    AbsentCharNoOccurrence(d, "staged", 's');
    AbsentCharNoOccurrence(d, "inconsistent", 's');
  }

  /** The router fast-tracks a record with the sample's values. */
  lemma SampleRouted(c: ClaimData)
    requires HoldsSample(c)
    ensures RouteClaim(c, [], []) ==
      Decision(FastTrack, "Estimated damage 1200.0 is below 25,000 threshold.", 0.92)
  {
    SampleQuiet(c);
    LowerOfLower("vehicle");
    DamageOf1200(c);
    FastTrackMessage1200();
  }

  /** The document goes through the whole pipeline to the fast track: no
      mandatory attribute is missing, the claim type is "vehicle", and the
      damage of 1200 is below the threshold. */
  lemma SampleFastTracked()
    ensures Extract(Document).claimType == Some("vehicle")
    ensures Process(Document).missingFields == []
    ensures Process(Document).recommendedRoute == "Fast-track"
    ensures Process(Document).reasoning == "Estimated damage 1200.0 is below 25,000 threshold."
    ensures Process(Document).confidenceScore == 0.92
  {
    SampleExtracted();
    SampleTextFastTracked(Document);
  }

  /** Any document whose record holds the sample's values is reported with
      no missing field, on the fast track at 0.92. */
  lemma SampleTextFastTracked(text: string)
    requires HoldsSample(Extract(text))
    ensures Process(text).missingFields == []
    ensures Process(text).recommendedRoute == "Fast-track"
    ensures Process(text).reasoning == "Estimated damage 1200.0 is below 25,000 threshold."
    ensures Process(text).confidenceScore == 0.92
  {
    var c := Extract(text);
    SampleValidated(c);
    SampleRouted(c);
  }
}
