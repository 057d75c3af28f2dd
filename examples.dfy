/**
 Concrete instances of the engine's documented behaviour.
 */
module Examples {
  import opened RuleTypes
  import opened Conditions
  import opened PrioritySort
  import opened Engine

  lemma CartTotalExamples()
    ensures EvaluateCartTotal(150.0, ">", 100.0)
    ensures !EvaluateCartTotal(100.0, ">", 100.0)
    ensures EvaluateCartTotal(100.0, ">=", 100.0)
    ensures !EvaluateCartTotal(100.0, "=>", 100.0)
  {
  }

  lemma CollectionExample()
    ensures EvaluateCollection([Item("p1", "v1", 1, ["C2"]), Item("p2", "v2", 1, ["C1", "C3"])], "C1")
    ensures !EvaluateCollection([], "C1")
  {
    var items := [Item("p1", "v1", 1, ["C2"]), Item("p2", "v2", 1, ["C1", "C3"])];
    assert "C1" in items[1].collectionIds;
  }

  lemma CustomerTagExample()
    ensures !EvaluateCustomerTag(["vip"], "VIP")
    ensures EvaluateCustomerTag(["VIP"], "VIP")
  {
    assert "vip"[0] != "VIP"[0];
  }

  lemma CountryExample()
    ensures EvaluateCountry("US", "us")
    ensures !EvaluateCountry("CA", "us")
  {
    EvaluateCountryIgnoresCase("US", "us");
    EvaluateCountryIgnoresCase("CA", "us");
    assert !SameIgnoringCase("CA"[0], "us"[0]);
  }

  /** Two active rules that both match: the one of higher priority wins, whatever the
      order in which they were handed to the engine. */
  lemma HigherPriorityWins()
    ensures
      var shipping := Rule("r1", "s", CartTotal(">", 50.0), "Free shipping!", true, 10);
      var welcome := Rule("r2", "s", Country("US"), "Welcome US customer", true, 5);
      var cart := Cart(60.0, [], [], "US");
      FirstMatch(SortByPriority([welcome, shipping]), cart) == Some("Free shipping!")
  {
    var shipping := Rule("r1", "s", CartTotal(">", 50.0), "Free shipping!", true, 10);
    var welcome := Rule("r2", "s", Country("US"), "Welcome US customer", true, 5);
    assert SortByPriority([welcome]) == [welcome];
    assert [welcome, shipping][..1] == [welcome];
    assert Insert([welcome], shipping) == [shipping, welcome];
  }
}
