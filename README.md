# Cart-message rules engine

A Dafny model of the rule evaluator of a Shopify cart-message app
(`lib/rulesEngine.ts`). A merchant defines rules; each rule has a type
(`cart_total`, `collection`, `customer_tag`, `country`), a condition payload
for that type, a message, an `isActive` flag and an integer `priority`. The
`RulesEngine` constructor sorts the rules by descending priority. `evaluateCart`
then takes a cart snapshot and returns the message of the first active rule
whose condition matches, or `null`.

Files:

- `types.dfy` (module `RuleTypes`): rules, cart snapshots and `Option`. The
  untyped `condition` becomes the `Condition` datatype. It has one constructor
  per known type and an `Unknown(kind)` arm for every other type string.
- `conditions.dfy` (module `Conditions`): the four private match predicates as
  functions, plus lemmas about each.
- `priority_sort.dfy` (module `PrioritySort`): the ordering.
  - `SortByPriority` is the specification: an insertion sort on sequences.
  - `SortByPriorityInPlace` sorts an `array` in place and is proved to produce
    that same sequence.
  - The lemmas prove the result is descending, a permutation of the input, and
    stable.
  - `StableSortIsUnique` proves that any stable descending arrangement equals
    `SortByPriority`. So the result does not depend on which stable algorithm
    the JavaScript runtime uses.
- `rules_engine.dfy` (module `Engine`): the dispatch (`Matches`), the
  first-match scan as a function (`FirstMatch`), the class `RulesEngine`, and
  `EvaluateRules`, which is what the HTTP handler does with the engine.
- `examples.dfy` (module `Examples`): concrete instances of the documented
  behaviour.

The engine sorts the caller's array and keeps it. `Array.prototype.sort`
permutes its receiver and returns that same array. So the constructor takes an
`array<Rule>`, says `modifies input`, and ensures `rules == input` (the same
object, not a copy) and `input[..] == SortByPriority(old(input[..]))`.
`EvaluateCart` is specified against the array's contents at the moment of the
call (`FirstMatch(rules[..], cart)`). This matters because a caller that still
holds the array can change it after construction.

Where the documentation and the code disagree, the model follows the code:

- The documentation says the evaluator never mutates its input list. The code
  sorts it in place (`lib/rulesEngine.ts:31`), and the model shows this.
- The documentation says missing condition fields count as "no match". In the
  code, some missing fields throw instead: a null `condition` for most rule
  types, a missing `condition.country`, and a missing cart `items`,
  `customerTags` or `countryCode`. A typed condition or cart cannot be missing
  a field, so the model takes no position on untyped input (see "Left out").

## Model

| member | source | states |
|---|---|---|
| `Conditions.CartTotalOperatorsAgree` | lib/rulesEngine.ts:64-79 | `>=` is `>` or `==`; `<=` is `<` or `==`; `>` is not-`<=`; `<` is not-`>=`; exactly one of `>`, `==`, `<` holds |
| `Conditions.CartTotalAtEquality` | lib/rulesEngine.ts:66-75 | `==` is exact equality; at equality `>` and `<` fail and `>=`, `<=` hold |
| `Conditions.CartTotalUnknownOperator` | lib/rulesEngine.ts:76-77 | a matching `cart_total` condition always names one of the five operators; any other operator string never matches |
| `Conditions.EvaluateCollection` | lib/rulesEngine.ts:81-83 | the left-to-right scan is true iff some item's `collectionIds` contains the id; so an empty item list never matches |
| `Conditions.EvaluateCustomerTag` | lib/rulesEngine.ts:85-87 | the left-to-right scan that `includes` performs is true iff some customer tag is exactly equal to the rule's tag; so an empty tag list never matches |
| `Conditions.CustomerTagIsCaseSensitive` | lib/rulesEngine.ts:85-91 | for every list of tags that are already upper-case, a tag holding a lower-case ASCII letter never matches, although its upper-cased form matches it as a country code |
| `Conditions.EvaluateCountryIgnoresCase` | lib/rulesEngine.ts:89-91 | `country` matches iff the two codes are equal ignoring ASCII case, checked position by position (both directions) |
| `Conditions.EvaluateCountryUpperInvariant` | lib/rulesEngine.ts:89-91 | upper-casing is idempotent; upper-casing the cart's code first changes nothing; the match is symmetric |
| `PrioritySort.SortByPriorityIsSorted` | lib/rulesEngine.ts:31 | the sorted rules have non-increasing priority |
| `PrioritySort.SortByPriorityIsPermutation` | lib/rulesEngine.ts:31 | the sorted rules are the input rules with the same multiplicities |
| `PrioritySort.SortByPriorityIsStable` | lib/rulesEngine.ts:31 | for every priority, the rules of that priority keep their relative input order |
| `PrioritySort.SortedUnique` | lib/rulesEngine.ts:31 | two descending sequences with the same rules of every priority, in the same order, are equal |
| `PrioritySort.StableSortIsUnique` | lib/rulesEngine.ts:31 | every descending, stable arrangement of the input equals `SortByPriority` of it, so any stable sort gives the same list |
| `PrioritySort.InsertInPlace` | lib/rulesEngine.ts:31 | shifting one rule left in the array past lower-priority rules yields `Insert` of it into the prefix; the rest of the array is unchanged |
| `PrioritySort.SortByPriorityInPlace` | lib/rulesEngine.ts:31 | the array afterwards holds exactly `SortByPriority` of its old contents |
| `Engine.RulesEngine.constructor` | lib/rulesEngine.ts:30-32 | the engine keeps the caller's own array (`rules == input`), which is now sorted: the specified permutation of its old contents, in descending order |
| `Engine.RulesEngine.EvaluateCart` | lib/rulesEngine.ts:34-61 | the scan, with `continue` for inactive rules, a `matches` flag and an early return, returns `FirstMatch` of the stored rules |
| `Engine.FirstMatchSpec` | lib/rulesEngine.ts:34-61 | the result is absent iff no rule is active and matching; it is `Some(m)` iff `m` is the message of a firing rule that no earlier rule precedes in firing |
| `Engine.MatchesOnlyKnownTags` | lib/rulesEngine.ts:41-54 | a condition whose type is none of the four tags never matches |
| `Engine.NoFiringRuleNoMessage` | lib/rulesEngine.ts:35-61 | a list in which every rule is inactive or of unknown type, including the empty list, yields no message |
| `Engine.FirstMatchIgnoresInactive` | lib/rulesEngine.ts:36 | removing the inactive rules from the list does not change the result |
| `Engine.SortCommutesWithActive` | lib/rulesEngine.ts:30-36 | sorting and then dropping the inactive rules gives the same list as dropping them first and sorting |
| `Engine.EngineIgnoresInactive` | lib/rulesEngine.ts:30-36 | an engine built without the inactive rules returns the same message as one built with them, e.g. the handler's `isActive: true` pre-filter changes nothing |
| `Engine.EvaluateRules` | pages/api/evaluate-cart.ts:37-38 | building an engine over the handler's rules and evaluating one cart returns `FirstMatch` of the sorted rules, and leaves the handler's array sorted |

## Left out

- JavaScript `number` semantics. The cart total and the `cart_total` value are
  exact `real`s, so `==` is exact equality without rounding. The caller's
  `total_price / 100` conversion (`components/CartMessageBlock.tsx:23`) is not
  modelled; the total arrives already converted.
- Priorities are unbounded integers. In the source they are JavaScript numbers
  and the comparator is `b.priority - a.priority`. Fractional priorities are
  outside the `int` model. Distinct integers above 2^53 can round to the same
  JavaScript number, while the unbounded `int` keeps them apart. Only NaN
  priorities make the comparator inconsistent, and those are not modelled;
  infinite priorities do not (`Infinity - Infinity` is NaN, which the sort
  reads as "equal", and every pair with a finite priority gets the right sign).
- V8's sort algorithm is not modelled. The model uses insertion sort instead.
  `StableSortIsUnique` shows that every stable descending sort produces the
  same sequence, so the choice does not affect the result.
- Upper-casing is ASCII-only. The source uses full Unicode `toUpperCase`, which
  can change string length (for example, `ß` becomes `SS`). That is not
  modelled.
- Malformed condition payloads and cart snapshots are not modelled. A
  `Condition` value always carries the fields its type needs, and a `Cart`
  always has its items, tags and country code. In the source, a null or
  undefined `condition` throws in the `cart_total`, `customer_tag` and
  `country` predicates, and in `collection` only once the scan reaches an item
  (on an empty item list `some` never reads it and returns false). A missing
  cart `items`, `customerTags` or `countryCode` throws, as does a missing
  `condition.country` (`lib/rulesEngine.ts:82`, `:86`, `:90`). A missing item
  `collectionIds` throws only if the scan reaches that item before an earlier
  item matches. A missing `condition.collectionId`, `condition.tag` or
  `condition.value`, or a missing cart `total`, does not throw: the comparison
  or lookup is false and the rule does not match. A known `type` with a
  payload of another shape is outside the model too. `Unknown(kind)` stands
  only for type strings that are not one of the four tags (`WellTagged`).
- The rule fields `createdAt` and `updatedAt` are never read by the engine and
  are not part of `Rule`. `id`, `shopId` and the item fields other than
  `collectionIds` are carried along but never consulted.
- The HTTP handler's method and `shopId` checks, its Prisma query (which
  pre-filters active rules and orders them ascending), the script-tag and
  order-note endpoints, and the React components are outside the model. They
  are I/O, persistence, and UI. `EvaluateRules` takes the rules the query
  would return as its input array. `EngineIgnoresInactive` shows that the
  active-only pre-filter does not change the answer.
