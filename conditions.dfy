/**
 The four per-type match predicates of the rules engine, as pure functions,
 with the properties each promises.
 */
module Conditions {
  import opened RuleTypes

  // ---------------------------------------------------------------------------
  // cart_total
  // ---------------------------------------------------------------------------

  /** The five comparison operators a `cart_total` rule may name. */
  predicate IsKnownOperator(op: string) {
    op == ">" || op == ">=" || op == "<" || op == "<=" || op == "=="
  }

  /** Compares the cart total with `value`; an operator outside the five never matches. */
  function EvaluateCartTotal(total: real, operator: string, value: real): bool {
    if operator == ">" then total > value
    else if operator == ">=" then total >= value
    else if operator == "<" then total < value
    else if operator == "<=" then total <= value
    else if operator == "==" then total == value
    else false
  }

  /** How the five operators relate: the non-strict ones are the strict one or equality,
      each strict one is the negation of the opposite non-strict one, and exactly one of
      `>`, `==`, `<` holds. */
  lemma CartTotalOperatorsAgree(total: real, value: real)
    ensures EvaluateCartTotal(total, ">=", value)
            == (EvaluateCartTotal(total, ">", value) || EvaluateCartTotal(total, "==", value))
    ensures EvaluateCartTotal(total, "<=", value)
            == (EvaluateCartTotal(total, "<", value) || EvaluateCartTotal(total, "==", value))
    ensures EvaluateCartTotal(total, ">", value) == !EvaluateCartTotal(total, "<=", value)
    ensures EvaluateCartTotal(total, "<", value) == !EvaluateCartTotal(total, ">=", value)
    ensures (if EvaluateCartTotal(total, ">", value) then 1 else 0)
          + (if EvaluateCartTotal(total, "==", value) then 1 else 0)
          + (if EvaluateCartTotal(total, "<", value) then 1 else 0) == 1
  {
  }

  /** At equality the strict operators fail and the others hold; equality is exact. */
  lemma CartTotalAtEquality(total: real, value: real)
    ensures EvaluateCartTotal(total, "==", value) <==> total == value
    ensures total == value ==>
              !EvaluateCartTotal(total, ">", value) && !EvaluateCartTotal(total, "<", value)
              && EvaluateCartTotal(total, ">=", value) && EvaluateCartTotal(total, "<=", value)
  {
  }

  /** A matching `cart_total` condition always names one of the five operators. */
  lemma CartTotalUnknownOperator(total: real, operator: string, value: real)
    ensures EvaluateCartTotal(total, operator, value) ==> IsKnownOperator(operator)
  {
  }

  // ---------------------------------------------------------------------------
  // collection
  // ---------------------------------------------------------------------------

  /** Scans the items in order and stops at the first whose collections contain the id. */
  function EvaluateCollection(items: seq<Item>, collectionId: string): (r: bool)
    ensures r <==> exists i :: 0 <= i < |items| && collectionId in items[i].collectionIds
  {
    if items == [] then false
    else if collectionId in items[0].collectionIds then true
    else
      var rest := EvaluateCollection(items[1..], collectionId);
      assert rest ==> exists i :: 1 <= i < |items| && collectionId in items[i].collectionIds by {
        if rest {
          var j :| 0 <= j < |items[1..]| && collectionId in items[1..][j].collectionIds;
          assert items[1..][j] == items[j + 1];
        }
      }
      rest
  }

  // ---------------------------------------------------------------------------
  // customer_tag
  // ---------------------------------------------------------------------------

  /** Scans the customer's tags in order and stops at the first that equals the tag
      exactly. */
  function EvaluateCustomerTag(tags: seq<string>, tag: string): (r: bool)
    ensures r <==> exists i :: 0 <= i < |tags| && tags[i] == tag
  {
    if tags == [] then false
    else if tags[0] == tag then true
    else
      var rest := EvaluateCustomerTag(tags[1..], tag);
      assert rest ==> exists i :: 1 <= i < |tags| && tags[i] == tag by {
        if rest {
          var j :| 0 <= j < |tags[1..]| && tags[1..][j] == tag;
          assert tags[1..][j] == tags[j + 1];
        }
      }
      rest
  }

  // ---------------------------------------------------------------------------
  // country, with an ASCII case map
  // ---------------------------------------------------------------------------

  predicate IsAsciiLower(c: char) { 'a' <= c <= 'z' }
  predicate IsAsciiUpper(c: char) { 'A' <= c <= 'Z' }

  function UpperChar(c: char): char {
    if IsAsciiLower(c) then (c as int - 32) as char else c
  }

  function ToUpper(s: string): string {
    seq(|s|, i requires 0 <= i < |s| => UpperChar(s[i]))
  }

  /** Country codes match when they agree after both are upper-cased. */
  function EvaluateCountry(countryCode: string, country: string): bool {
    ToUpper(countryCode) == ToUpper(country)
  }

  /** Two characters are the same letter up to ASCII case, or simply equal. */
  predicate SameIgnoringCase(c: char, d: char) {
    c == d
    || (IsAsciiUpper(c) && IsAsciiLower(d) && d as int == c as int + 32)
    || (IsAsciiLower(c) && IsAsciiUpper(d) && c as int == d as int + 32)
  }

  /** Reference definition of case-insensitive equality, position by position. */
  predicate EqualIgnoringCase(a: string, b: string) {
    |a| == |b| && forall i :: 0 <= i < |a| ==> SameIgnoringCase(a[i], b[i])
  }

  lemma UpperCharSame(c: char, d: char)
    ensures UpperChar(c) == UpperChar(d) <==> SameIgnoringCase(c, d)
  {
  }

  /** `country` matches exactly when the two codes are equal ignoring ASCII case. */
  lemma EvaluateCountryIgnoresCase(countryCode: string, country: string)
    ensures EvaluateCountry(countryCode, country) <==> EqualIgnoringCase(countryCode, country)
  {
    var u, v := ToUpper(countryCode), ToUpper(country);
    if |countryCode| == |country| {
      forall i | 0 <= i < |countryCode|
        ensures u[i] == v[i] <==> SameIgnoringCase(countryCode[i], country[i])
      {
        UpperCharSame(countryCode[i], country[i]);
      }
      if EqualIgnoringCase(countryCode, country) {
        assert u == v;
      }
    }
  }

  /** Upper-casing is idempotent, so a code that is already upper-cased matches the same way. */
  lemma EvaluateCountryUpperInvariant(countryCode: string, country: string)
    ensures ToUpper(ToUpper(countryCode)) == ToUpper(countryCode)
    ensures EvaluateCountry(ToUpper(countryCode), country) == EvaluateCountry(countryCode, country)
    ensures EvaluateCountry(countryCode, country) == EvaluateCountry(country, countryCode)
  {
  }

  /** Unlike `country`, `customer_tag` folds no case: a tag holding a lower-case letter is
      found among no tags that are all already upper-case, although its upper-cased form
      matches it as a country code. */
  lemma CustomerTagIsCaseSensitive(tags: seq<string>, tag: string, i: nat)
    requires forall k :: 0 <= k < |tags| ==> ToUpper(tags[k]) == tags[k]
    requires i < |tag| && IsAsciiLower(tag[i])
    ensures !EvaluateCustomerTag(tags, tag)
    ensures EvaluateCountry(ToUpper(tag), tag)
  {
    assert ToUpper(tag)[i] != tag[i];
    EvaluateCountryUpperInvariant(tag, tag);
  }
}
