/**
 * Rule tables as data: an ordered list of (tests, category) pairs read
 * top to bottom, the first rule with a passing test deciding the
 * category. The categorizers' if/elif chains are proved equal to such
 * tables.
 */
module RuleTables {
  import opened Wrappers
  import opened Text
  import opened Osm

  /** One condition on a tag set. */
  datatype Test =
    | OneOf(key: string, values: set<string>)   // `tags.get(key, '') in [...]`
    | Present(key: string)                      // `tags.get(key)` is truthy
    | LowerHas(key: string, sub: string)        // `sub in tags.get(key, '').lower()`
    | Both(left: Test, right: Test)             // `left and right`

  predicate TestHolds(t: Test, tags: TagMap) {
    match t
    case OneOf(key, values) => Get(tags, key) in values
    case Present(key) => IsSet(tags, key)
    case LowerHas(key, sub) => Contains(Lower(Get(tags, key)), sub)
    case Both(l, r) => TestHolds(l, tags) && TestHolds(r, tags)
  }

  /** A rule fires when any of its tests holds. */
  datatype Rule = Rule(anyOf: seq<Test>, category: string)

  predicate AnyHolds(tests: seq<Test>, tags: TagMap) {
    exists i | 0 <= i < |tests| :: TestHolds(tests[i], tags)
  }

  predicate RuleHolds(rule: Rule, tags: TagMap) {
    AnyHolds(rule.anyOf, tags)
  }

  /** Index of the first rule at or after `from` that fires, `|rules|` when none does. */
  function FirstIndexFrom(rules: seq<Rule>, tags: TagMap, from: nat): (i: nat)
    requires from <= |rules|
    ensures from <= i <= |rules|
    ensures forall j | from <= j < i :: !RuleHolds(rules[j], tags)
    ensures i < |rules| ==> RuleHolds(rules[i], tags)
    decreases |rules| - from
  {
    if from == |rules| then from
    else if RuleHolds(rules[from], tags) then from
    else FirstIndexFrom(rules, tags, from + 1)
  }

  /** First match wins: the category of the first rule that fires, if any. */
  function FirstMatch(rules: seq<Rule>, tags: TagMap): (r: Option<string>)
    ensures r.None? <==> forall j | 0 <= j < |rules| :: !RuleHolds(rules[j], tags)
    ensures r.Some? ==> exists i | 0 <= i < |rules| :: rules[i].category == r.value
                          && RuleHolds(rules[i], tags)
                          && forall j | 0 <= j < i :: !RuleHolds(rules[j], tags)
  {
    var i := FirstIndexFrom(rules, tags, 0);
    if i < |rules| then Some(rules[i].category) else None
  }
}
