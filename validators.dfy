/**
 * The normalisation of a patient's insurance category: an exact valid name is kept, an
 * "NHI ... insurance" spelling becomes "NHI General", a valid name in another case becomes
 * its canonical spelling, and anything else is refused with a `ValueError`.
 */
module Validators {
  import opened Wrappers
  import opened Strings

  const ValidPatientCategories: seq<string> := ["NHI General", "NHI Injury", "Self-Pay"]

  /** The message of the `ValueError` for an unknown category. */
  function InvalidCategoryMessage(category: string): string {
    "'" + category + "' is not a valid patient category. Valid options are: "
    + Join(ValidPatientCategories, ", ")
  }

  /** The loop over the valid categories: the first whose lower-case form equals the
      lower-cased category. */
  function CaseInsensitiveMatch(category: string, valid: seq<string>): (r: Option<string>)
    ensures r.Some? ==> r.value in valid && Lower(category) == Lower(r.value)
    ensures r.None? <==> forall i :: 0 <= i < |valid| ==> Lower(category) != Lower(valid[i])
  {
    if |valid| == 0 then None
    else if Lower(category) == Lower(valid[0]) then Some(valid[0])
    else
      var r := CaseInsensitiveMatch(category, valid[1..]);
      assert forall i :: 1 <= i < |valid| ==> valid[i] == valid[1..][i - 1];
      r
  }

  /** `validate_patient_category(category)`: the canonical category, or the message of the
      `ValueError` raised. */
  function ValidatePatientCategory(category: string): (r: Result<string, string>)
    ensures category == "" <==> r == Failure("Patient category is required")
    ensures r.Success? ==> r.value in ValidPatientCategories
    ensures category in ValidPatientCategories ==> r == Success(category)
    ensures r.Failure? <==>
              category == ""
              || (category !in ValidPatientCategories
                  && !(Contains(Lower(category), "insurance") && Contains(Lower(category), "nhi"))
                  && CaseInsensitiveMatch(category, ValidPatientCategories).None?)
    ensures r.Failure? && category != "" ==> r.error == InvalidCategoryMessage(category)
  {
    if category == "" then Failure("Patient category is required")
    else if category in ValidPatientCategories then Success(category)
    else
      var lower := Lower(category);
      if Contains(lower, "insurance") && Contains(lower, "nhi") then Success("NHI General")
      else match CaseInsensitiveMatch(category, ValidPatientCategories)
        case Some(valid) => Success(valid)
        case None => Failure(InvalidCategoryMessage(category))
  }

  /** A string without some character of `p` does not contain `p`. */
  lemma MissingCharNotContained(s: string, p: string, j: nat)
    requires j < |p| && p[j] !in s
    ensures !Contains(s, p)
  {
  }

  /** No valid category holds the word "insurance": none has a `c`. */
  lemma ValidHaveNoInsurance(i: nat)
    requires i < |ValidPatientCategories|
    ensures !Contains(Lower(ValidPatientCategories[i]), "insurance")
  {
    var v := ValidPatientCategories[i];
    assert forall j :: 0 <= j < |v| ==> v[j] != 'c' && v[j] != 'C';
    assert forall j :: 0 <= j < |v| ==> Lower(v)[j] != 'c';
    assert "insurance"[7] == 'c';
    MissingCharNotContained(Lower(v), "insurance", 7);
  }

  /** The valid categories differ even in lower case: their lengths differ. */
  lemma ValidLowerDistinct(i: nat, j: nat)
    requires i < |ValidPatientCategories| && j < |ValidPatientCategories|
    requires Lower(ValidPatientCategories[i]) == Lower(ValidPatientCategories[j])
    ensures i == j
  {
    assert |Lower(ValidPatientCategories[i])| == |ValidPatientCategories[i]|;
    assert |ValidPatientCategories[0]| == 11 && |ValidPatientCategories[1]| == 10
           && |ValidPatientCategories[2]| == 8;
  }

  /** Any category whose lower-case form holds both "insurance" and "nhi" is "NHI General". */
  lemma InsuranceIsGeneral(category: string)
    requires Contains(Lower(category), "insurance") && Contains(Lower(category), "nhi")
    ensures ValidatePatientCategory(category) == Success("NHI General")
  {
    if category in ValidPatientCategories {
      var i :| 0 <= i < |ValidPatientCategories| && ValidPatientCategories[i] == category;
      ValidHaveNoInsurance(i);
    }
  }

  /** A valid category in any letter case gives its canonical spelling. */
  lemma CaseInsensitiveCanonical(category: string, i: nat)
    requires i < |ValidPatientCategories| && Lower(category) == Lower(ValidPatientCategories[i])
    ensures ValidatePatientCategory(category) == Success(ValidPatientCategories[i])
  {
    ValidHaveNoInsurance(i);
    if category in ValidPatientCategories {
      var j :| 0 <= j < |ValidPatientCategories| && ValidPatientCategories[j] == category;
      ValidLowerDistinct(i, j);
    }
    var r := CaseInsensitiveMatch(category, ValidPatientCategories);
    var j :| 0 <= j < |ValidPatientCategories| && ValidPatientCategories[j] == r.value;
    ValidLowerDistinct(i, j);
  }

  /** Normalising a normalised category gives it back. */
  lemma ValidatePatientCategoryIdempotent(category: string)
    requires ValidatePatientCategory(category).Success?
    ensures ValidatePatientCategory(ValidatePatientCategory(category).value)
            == ValidatePatientCategory(category)
  {
  }
}
