/** The claim record: sixteen optional text attributes in declaration order,
    and the dictionary view (`claim.__dict__`, `dict.get`) through which the
    validator and the router read it. */
module Models {
  import opened Wrappers

  datatype ClaimData = ClaimData(
    policyNumber: Option<string>,
    policyholderName: Option<string>,
    effectiveDates: Option<string>,
    dateOfLoss: Option<string>,
    timeOfLoss: Option<string>,
    location: Option<string>,
    description: Option<string>,
    claimant: Option<string>,
    thirdParties: Option<string>,
    contactDetails: Option<string>,
    assetType: Option<string>,
    assetId: Option<string>,
    estimatedDamage: Option<string>,
    claimType: Option<string>,
    attachments: Option<string>,
    initialEstimate: Option<string>
  )

  /** The attribute names, in declaration order: the keys of the record's
      dictionary view. */
  const AttributeNames: seq<string> := [
    "policy_number", "policyholder_name", "effective_dates", "date_of_loss",
    "time_of_loss", "location", "description", "claimant",
    "third_parties", "contact_details", "asset_type", "asset_id",
    "estimated_damage", "claim_type", "attachments", "initial_estimate"
  ]

  /** `ClaimData()`: every attribute defaults to absent. */
  function EmptyClaim(): (c: ClaimData)
    ensures forall name :: Get(c, name) == None
  {
    ClaimData(None, None, None, None, None, None, None, None,
              None, None, None, None, None, None, None, None)
  }

  /** `claim_data.get(name)`: the attribute's value, or absent for a name
      that is not an attribute. */
  function Get(c: ClaimData, name: string): (v: Option<string>)
    ensures name !in AttributeNames ==> v == None
  {
    if name == "policy_number" then c.policyNumber
    else if name == "policyholder_name" then c.policyholderName
    else if name == "effective_dates" then c.effectiveDates
    else if name == "date_of_loss" then c.dateOfLoss
    else if name == "time_of_loss" then c.timeOfLoss
    else if name == "location" then c.location
    else if name == "description" then c.description
    else if name == "claimant" then c.claimant
    else if name == "third_parties" then c.thirdParties
    else if name == "contact_details" then c.contactDetails
    else if name == "asset_type" then c.assetType
    else if name == "asset_id" then c.assetId
    else if name == "estimated_damage" then c.estimatedDamage
    else if name == "claim_type" then c.claimType
    else if name == "attachments" then c.attachments
    else if name == "initial_estimate" then c.initialEstimate
    else None
  }

  /** `claim.__dict__`: the (name, value) pairs in declaration order. */
  function Fields(c: ClaimData): (kv: seq<(string, Option<string>)>)
    ensures |kv| == |AttributeNames|
    ensures forall k :: 0 <= k < |kv| ==> kv[k] == (AttributeNames[k], Get(c, AttributeNames[k]))
  {
    [("policy_number", c.policyNumber), ("policyholder_name", c.policyholderName),
     ("effective_dates", c.effectiveDates), ("date_of_loss", c.dateOfLoss),
     ("time_of_loss", c.timeOfLoss), ("location", c.location),
     ("description", c.description), ("claimant", c.claimant),
     ("third_parties", c.thirdParties), ("contact_details", c.contactDetails),
     ("asset_type", c.assetType), ("asset_id", c.assetId),
     ("estimated_damage", c.estimatedDamage), ("claim_type", c.claimType),
     ("attachments", c.attachments), ("initial_estimate", c.initialEstimate)]
  }

  /** Rebuilds a record from its dictionary view. */
  function FromFields(kv: seq<(string, Option<string>)>): (c: ClaimData)
    requires |kv| == |AttributeNames|
    ensures forall k :: 0 <= k < |kv| && kv[k].0 == AttributeNames[k] ==> Get(c, AttributeNames[k]) == kv[k].1
  {
    ClaimData(kv[0].1, kv[1].1, kv[2].1, kv[3].1, kv[4].1, kv[5].1, kv[6].1, kv[7].1,
              kv[8].1, kv[9].1, kv[10].1, kv[11].1, kv[12].1, kv[13].1, kv[14].1, kv[15].1)
  }

  /** The dictionary view loses nothing: the record is recovered from it. */
  lemma FieldsRoundTrip(c: ClaimData)
    ensures FromFields(Fields(c)) == c
  {
  }

  /** Two records that agree on every attribute name are the same record. */
  lemma GetDeterminesRecord(c: ClaimData, d: ClaimData)
    requires forall k :: 0 <= k < |AttributeNames| ==> Get(c, AttributeNames[k]) == Get(d, AttributeNames[k])
    ensures c == d
  {
    assert Fields(c) == Fields(d);
    FieldsRoundTrip(c);
    FieldsRoundTrip(d);
  }

  /** Attribute names are pairwise distinct, so the dictionary view has one
      entry per attribute. */
  lemma AttributeNamesDistinct()
    ensures forall i, j :: 0 <= i < j < |AttributeNames| ==> AttributeNames[i] != AttributeNames[j]
  {
  }

  /** Python truthiness of an optional string: present and non-empty. */
  predicate Present(v: Option<string>)
    ensures Present(v) <==> OrEmpty(v) != []
    ensures Present(v) ==> v == Some(OrEmpty(v))
  {
    v.Some? && v.value != []
  }

  /** `(v or "")`: the value, with absence read as the empty string. */
  function OrEmpty(v: Option<string>): string {
    v.GetOr("")
  }
}
