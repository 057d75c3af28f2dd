/**
 The records the rules engine reads: a merchant's rules and a snapshot of a
 storefront cart. The loosely typed `condition` payload of a rule becomes a
 tagged union with one constructor per rule type the engine understands and
 an `Unknown` arm for every other type string.
 */
module RuleTypes {

  datatype Option<T> = None | Some(value: T)

  /** One line of the cart; only `collectionIds` is consulted by the engine. */
  datatype Item = Item(productId: string, variantId: string, quantity: int, collectionIds: seq<string>)

  /** The cart snapshot. `total` is in major currency units, taken as an exact number. */
  datatype Cart = Cart(total: real, items: seq<Item>, customerTags: seq<string>, countryCode: string)

  /** The rule's `type` together with the payload that type selects. */
  datatype Condition =
    | CartTotal(operator: string, value: real)
    | Collection(collectionId: string)
    | CustomerTag(tag: string)
    | Country(country: string)
    | Unknown(kind: string)  // a `type` that is none of the four tags below

  /** A rule as the engine sees it; id, shop and timestamps are carried but never read. */
  datatype Rule = Rule(id: string, shopId: string, condition: Condition, message: string,
                       isActive: bool, priority: int)

  /** The four `type` strings the engine dispatches on. */
  predicate IsKnownTag(t: string) {
    t == "cart_total" || t == "collection" || t == "customer_tag" || t == "country"
  }

  /** The `type` string a condition was read from. */
  function TypeTag(c: Condition): (t: string)
    ensures WellTagged(c) ==> (IsKnownTag(t) <==> !c.Unknown?)
  {
    match c
    case CartTotal(_, _) => "cart_total"
    case Collection(_) => "collection"
    case CustomerTag(_) => "customer_tag"
    case Country(_) => "country"
    case Unknown(kind) => kind
  }

  /** An `Unknown` arm stands only for type strings the engine does not dispatch on. */
  predicate WellTagged(c: Condition) {
    c.Unknown? ==> !IsKnownTag(c.kind)
  }
}
