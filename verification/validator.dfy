/** The validator: which mandatory attributes are missing, and whether the
    estimated damage is usable. Both checks return ordered lists; an empty
    list means nothing was found. */
module Validator {
  import opened Wrappers
  import opened Numbers
  import opened Models

  /** `MANDATORY_FIELDS`, in the order missing names are reported. */
  const MandatoryFields: seq<string> :=
    ["policy_number", "date_of_loss", "estimated_damage", "claim_type", "description"]

  const InvalidDamage: string := "estimated_damage_invalid"
  const NotNumericDamage: string := "estimated_damage_not_numeric"

  /** `xs` is `ys` with some elements left out, the rest in the same order. */
  ghost predicate IsSubsequence(xs: seq<string>, ys: seq<string>)
    decreases |ys|
  {
    if xs == [] then true
    else if ys == [] then false
    else (xs[0] == ys[0] && IsSubsequence(xs[1..], ys[1..])) || IsSubsequence(xs, ys[1..])
  }

  predicate Distinct(xs: seq<string>) {
    forall i, j :: 0 <= i < j < |xs| ==> xs[i] != xs[j]
  }

  /** Every mandatory name is an attribute of the record, and none is
      listed twice. */
  lemma MandatoryFieldsAreAttributes()
    ensures forall n :: n in MandatoryFields ==> n in AttributeNames
    ensures Distinct(MandatoryFields)
  {
  }

  /** The names in `names` whose attribute is absent or empty, in order. */
  function MissingAmong(c: ClaimData, names: seq<string>): (missing: seq<string>)
    ensures IsSubsequence(missing, names)
    ensures forall n :: n in missing <==> n in names && !Present(Get(c, n))
  {
    if names == [] then []
    else
      var rest := MissingAmong(c, names[1..]);
      if !Present(Get(c, names[0])) then
        assert ([names[0]] + rest)[1..] == rest;
        [names[0]] + rest
      else rest
  }

  /** A subsequence holds only elements of the sequence it is taken from. */
  lemma {:induction false} SubsequenceMembers(xs: seq<string>, ys: seq<string>)
    requires IsSubsequence(xs, ys)
    ensures forall x :: x in xs ==> x in ys
    decreases |ys|
  {
    if xs != [] {
      if xs[0] == ys[0] && IsSubsequence(xs[1..], ys[1..]) {
        SubsequenceMembers(xs[1..], ys[1..]);
        assert xs == [xs[0]] + xs[1..];
      } else {
        SubsequenceMembers(xs, ys[1..]);
      }
    }
  }

  /** A subsequence of a list without duplicates has none either. */
  lemma {:induction false} SubsequenceOfDistinct(xs: seq<string>, ys: seq<string>)
    requires IsSubsequence(xs, ys) && Distinct(ys)
    ensures Distinct(xs)
    decreases |ys|
  {
    if xs != [] {
      assert Distinct(ys[1..]);
      if xs[0] == ys[0] && IsSubsequence(xs[1..], ys[1..]) {
        SubsequenceOfDistinct(xs[1..], ys[1..]);
        SubsequenceMembers(xs[1..], ys[1..]);
        forall i, j | 0 <= i < j < |xs| ensures xs[i] != xs[j] {
          if i == 0 {
            assert xs[j] == xs[1..][j - 1];
            assert xs[j] in ys[1..];
          } else {
            assert xs[i] == xs[1..][i - 1] && xs[j] == xs[1..][j - 1];
          }
        }
      } else {
        SubsequenceOfDistinct(xs, ys[1..]);
      }
    }
  }

  /** `find_missing_fields`: the mandatory attributes that are absent or
      empty, in the fixed mandatory order, each at most once. */
  function FindMissingFields(c: ClaimData): (missing: seq<string>)
    ensures IsSubsequence(missing, MandatoryFields)
    ensures Distinct(missing)
    ensures forall n :: n in missing <==> n in MandatoryFields && !Present(Get(c, n))
    ensures missing == [] <==> forall n :: n in MandatoryFields ==> Present(Get(c, n))
  {
    var missing := MissingAmong(c, MandatoryFields);
    MandatoryFieldsAreAttributes();
    SubsequenceOfDistinct(missing, MandatoryFields);
    assert missing != [] ==> missing[0] in missing;
    missing
  }

  /** `validate_consistency`: at most one finding about `estimated_damage`.
      Absent or empty damage is left to the missing-fields check; text that
      is not a number is reported as such; a number that is not positive is
      reported as invalid. */
  function ValidateConsistency(c: ClaimData): (issues: seq<string>)
    ensures |issues| <= 1
    ensures !Present(c.estimatedDamage) ==> issues == []
    ensures issues == [NotNumericDamage] <==>
      Present(c.estimatedDamage) && Parse(c.estimatedDamage.value).None?
    ensures issues == [InvalidDamage] <==>
      Present(c.estimatedDamage) && Parse(c.estimatedDamage.value).Some?
      && Value(Parse(c.estimatedDamage.value).value) <= 0.0
    ensures issues == [] <==>
      !Present(c.estimatedDamage)
      || (Parse(c.estimatedDamage.value).Some? && Value(Parse(c.estimatedDamage.value).value) > 0.0)
  {
    if Present(c.estimatedDamage) then
      match Parse(c.estimatedDamage.value)
      case Some(d) => if Value(d) <= 0.0 then [InvalidDamage] else []
      case None => [NotNumericDamage]
    else []
  }

  /** A record whose only attribute is the given estimated damage. */
  function WithDamage(v: string): (c: ClaimData)
    ensures c.estimatedDamage == Some(v)
  {
    EmptyClaim().(estimatedDamage := Some(v))
  }

  /** One damage text per outcome of the check: zero and negative amounts
      are invalid, letters are not numeric, a positive fraction passes, and
      a record without a damage has no finding. */
  lemma ConsistencyExamples()
    ensures ValidateConsistency(WithDamage("0")) == [InvalidDamage]
    ensures ValidateConsistency(WithDamage("-500")) == [InvalidDamage]
    ensures ValidateConsistency(WithDamage("abc")) == [NotNumericDamage]
    ensures ValidateConsistency(WithDamage("150.50")) == []
    ensures ValidateConsistency(EmptyClaim()) == []
  {
    ParsedDamageExample("0");
    ParsedDamageExample("-500");
    ParsedDamageExample("abc");
    ParsedDamageExample("150.50");
  }

  /** The finding for a record whose damage is the given text. */
  lemma ParsedDamageExample(v: string)
    requires v in {"0", "-500", "abc", "150.50"}
    ensures v == "0" ==> ValidateConsistency(WithDamage(v)) == [InvalidDamage]
    ensures v == "-500" ==> ValidateConsistency(WithDamage(v)) == [InvalidDamage]
    ensures v == "abc" ==> ValidateConsistency(WithDamage(v)) == [NotNumericDamage]
    ensures v == "150.50" ==> ValidateConsistency(WithDamage(v)) == []
  {
    if v == "0" {
      ZeroExample();
    } else if v == "-500" {
      NegativeExample();
    } else if v == "abc" {
      NotNumberExample();
    } else {
      FractionExample();
    }
  }
}
