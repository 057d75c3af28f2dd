/**
 The rules engine: dispatch of a rule's condition to its match predicate, the
 first-match-wins scan as a specification function, and the `RulesEngine`
 class that sorts the caller's array in place, keeps it, and scans it.
 */
module Engine {
  import opened RuleTypes
  import opened Conditions
  import opened PrioritySort

  /** Dispatch on the rule's type; a type outside the four tags never matches. */
  predicate Matches(c: Condition, cart: Cart) {
    match c
    case CartTotal(operator, value) => EvaluateCartTotal(cart.total, operator, value)
    case Collection(collectionId) => EvaluateCollection(cart.items, collectionId)
    case CustomerTag(tag) => EvaluateCustomerTag(cart.customerTags, tag)
    case Country(country) => EvaluateCountry(cart.countryCode, country)
    case Unknown(_) => false
  }

  /** A rule fires when it is active and its condition matches. */
  predicate Fires(r: Rule, cart: Cart) {
    r.isActive && Matches(r.condition, cart)
  }

  /** The message of the first rule of `rules` that fires, if any. */
  function FirstMatch(rules: seq<Rule>, cart: Cart): Option<string> {
    if rules == [] then None
    else if Fires(rules[0], cart) then Some(rules[0].message)
    else FirstMatch(rules[1..], cart)
  }

  /** `k` is the position of the first rule that fires. */
  predicate FirstFiring(rules: seq<Rule>, cart: Cart, k: int) {
    0 <= k < |rules| && Fires(rules[k], cart)
    && forall j :: 0 <= j < k ==> !Fires(rules[j], cart)
  }

  /** The active rules of `s`, in order. */
  function Active(s: seq<Rule>): seq<Rule> {
    if s == [] then []
    else if s[0].isActive then [s[0]] + Active(s[1..])
    else Active(s[1..])
  }

  // ---------------------------------------------------------------------------
  // What the scan returns
  // ---------------------------------------------------------------------------

  /** The scan returns nothing exactly when no rule fires, and otherwise the message of
      the first rule that fires: no earlier rule is both active and matching. */
  lemma {:induction false} FirstMatchSpec(rules: seq<Rule>, cart: Cart)
    ensures FirstMatch(rules, cart).None? <==> forall k :: 0 <= k < |rules| ==> !Fires(rules[k], cart)
    ensures forall m :: FirstMatch(rules, cart) == Some(m) <==>
                          exists k :: FirstFiring(rules, cart, k) && rules[k].message == m
  {
    if rules != [] {
      var tail := rules[1..];
      FirstMatchSpec(tail, cart);
      if Fires(rules[0], cart) {
        assert FirstFiring(rules, cart, 0);
        forall m | exists k :: FirstFiring(rules, cart, k) && rules[k].message == m
          ensures FirstMatch(rules, cart) == Some(m)
        {
          var k :| FirstFiring(rules, cart, k) && rules[k].message == m;
          assert k == 0;
        }
      } else {
        forall k | 0 <= k < |tail| ensures rules[k + 1] == tail[k] { }
        forall m ensures FirstMatch(rules, cart) == Some(m) <==>
                           exists k :: FirstFiring(rules, cart, k) && rules[k].message == m
        {
          if FirstMatch(rules, cart) == Some(m) {
            var k :| FirstFiring(tail, cart, k) && tail[k].message == m;
            assert FirstFiring(rules, cart, k + 1);
          }
          if exists k :: FirstFiring(rules, cart, k) && rules[k].message == m {
            var k :| FirstFiring(rules, cart, k) && rules[k].message == m;
            assert FirstFiring(tail, cart, k - 1);
          }
        }
      }
    }
  }

  /** A rule whose type is none of the four tags never matches. */
  lemma MatchesOnlyKnownTags(c: Condition, cart: Cart)
    requires WellTagged(c)
    ensures Matches(c, cart) ==> IsKnownTag(TypeTag(c))
  {
  }

  /** A list (possibly empty) in which every rule is inactive or of an unknown type
      yields no message. */
  lemma {:induction false} NoFiringRuleNoMessage(rules: seq<Rule>, cart: Cart)
    requires forall k :: 0 <= k < |rules| ==> !rules[k].isActive || rules[k].condition.Unknown?
    ensures FirstMatch(rules, cart) == None
  {
    if rules != [] {
      NoFiringRuleNoMessage(rules[1..], cart);
    }
  }

  // ---------------------------------------------------------------------------
  // Inactive rules have no influence
  // ---------------------------------------------------------------------------

  lemma {:induction false} FirstMatchIgnoresInactive(rules: seq<Rule>, cart: Cart)
    ensures FirstMatch(Active(rules), cart) == FirstMatch(rules, cart)
  {
    if rules != [] {
      FirstMatchIgnoresInactive(rules[1..], cart);
      if rules[0].isActive {
        assert ([rules[0]] + Active(rules[1..]))[1..] == Active(rules[1..]);
      }
    }
  }

  lemma {:induction false} ActiveMember(s: seq<Rule>, x: Rule)
    ensures x in Active(s) ==> x in s && x.isActive
  {
    if s != [] {
      ActiveMember(s[1..], x);
    }
  }

  lemma {:induction false} ActiveSorted(s: seq<Rule>)
    requires SortedDesc(s)
    ensures SortedDesc(Active(s))
  {
    if s != [] {
      ActiveSorted(s[1..]);
      if s[0].isActive {
        var r := Active(s[1..]);
        forall i | 0 <= i < |r| ensures s[0].priority >= r[i].priority {
          ActiveMember(s[1..], r[i]);
          var k :| 0 <= k < |s[1..]| && s[1..][k] == r[i];
          assert s[k + 1] == r[i];
        }
      }
    }
  }

  lemma {:induction false} ActiveWithPriority(s: seq<Rule>, p: int)
    ensures WithPriority(Active(s), p) == Active(WithPriority(s, p))
  {
    if s != [] {
      ActiveWithPriority(s[1..], p);
      var rest := Active(s[1..]);
      if s[0].isActive {
        assert ([s[0]] + rest)[0] == s[0] && ([s[0]] + rest)[1..] == rest;
      }
      if s[0].priority == p {
        var w := WithPriority(s[1..], p);
        assert ([s[0]] + w)[0] == s[0] && ([s[0]] + w)[1..] == w;
      }
    }
  }

  /** Sorting and then dropping the inactive rules is the same as dropping them first. */
  lemma SortCommutesWithActive(s: seq<Rule>)
    ensures SortByPriority(Active(s)) == Active(SortByPriority(s))
  {
    SortByPriorityIsSorted(s);
    ActiveSorted(SortByPriority(s));
    forall p ensures WithPriority(Active(SortByPriority(s)), p) == WithPriority(Active(s), p) {
      ActiveWithPriority(SortByPriority(s), p);
      SortByPriorityIsStable(s, p);
      ActiveWithPriority(s, p);
    }
    StableSortIsUnique(Active(s), Active(SortByPriority(s)));
  }

  /** An engine built from the rules with the inactive ones removed gives the same answer
      as one built from all of them. */
  lemma EngineIgnoresInactive(input: seq<Rule>, cart: Cart)
    ensures FirstMatch(SortByPriority(Active(input)), cart) == FirstMatch(SortByPriority(input), cart)
  {
    SortCommutesWithActive(input);
    FirstMatchIgnoresInactive(SortByPriority(input), cart);
  }

  // ---------------------------------------------------------------------------
  // The engine object
  // ---------------------------------------------------------------------------

  class RulesEngine {
    /** The caller's array, kept for the engine's lifetime. */
    const rules: array<Rule>

    /** The stored rules are in descending priority order. This records the state right
        after construction only: the caller still holds the array and may change it, so
        no operation requires it. */
    ghost predicate Valid()
      reads this, rules
    {
      SortedDesc(rules[..])
    }

    /** Sorts the caller's array in place and keeps that same array. */
    constructor (input: array<Rule>)
      modifies input
      ensures rules == input
      ensures input[..] == SortByPriority(old(input[..]))
      ensures Valid()
    {
      SortByPriorityInPlace(input);
      SortByPriorityIsSorted(old(input[..]));
      rules := input;
    }

    /** Scans the stored rules in order, skips inactive ones, and returns the message
        of the first whose condition matches. */
    method EvaluateCart(cart: Cart) returns (message: Option<string>)
      ensures message == FirstMatch(rules[..], cart)
    {
      var i := 0;
      while i < rules.Length
        invariant 0 <= i <= rules.Length
        invariant FirstMatch(rules[..], cart) == FirstMatch(rules[i..], cart)
      {
        var rule := rules[i];
        assert rules[i..][0] == rule && rules[i..][1..] == rules[i + 1..];
        if !rule.isActive {
          i := i + 1;
          continue;
        }
        var matches := false;
        match rule.condition {
          case CartTotal(operator, value) =>
            matches := EvaluateCartTotal(cart.total, operator, value);
          case Collection(collectionId) =>
            matches := EvaluateCollection(cart.items, collectionId);
          case CustomerTag(tag) =>
            matches := EvaluateCustomerTag(cart.customerTags, tag);
          case Country(country) =>
            matches := EvaluateCountry(cart.countryCode, country);
          case Unknown(_) =>
        }
        if matches {
          return Some(rule.message);
        }
        i := i + 1;
      }
      return None;
    }
  }

  /** What a request handler does with a shop's rules: build an engine over them and
      evaluate one cart. The caller's array is left sorted. */
  method EvaluateRules(input: array<Rule>, cart: Cart) returns (message: Option<string>)
    modifies input
    ensures input[..] == SortByPriority(old(input[..]))
    ensures message == FirstMatch(SortByPriority(old(input[..])), cart)
  {
    var engine := new RulesEngine(input);
    message := engine.EvaluateCart(cart);
  }
}
