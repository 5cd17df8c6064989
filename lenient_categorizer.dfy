/**
 * The lenient rule table of the XML-only converter: an if/elif chain over
 * `amenity`, `shop`, `tourism` and `healthcare` that falls back to
 * "other", so every entity gets a category.
 */
module LenientCategorizer {
  import opened Wrappers
  import opened Osm
  import opened RuleTables

  const FoodAmenities: set<string> := {"restaurant", "cafe", "fast_food", "bar", "pub", "food_court"}
  const LodgingAmenities: set<string> := {"hotel", "guest_house", "hostel", "motel"}
  const LodgingTourism: set<string> := {"hotel", "hostel", "guest_house"}
  const HealthAmenities: set<string> := {"hospital", "clinic", "pharmacy", "dentist", "doctors"}
  const TransportAmenities: set<string> := {"bus_station", "taxi", "fuel", "parking", "ferry_terminal"}
  const SchoolAmenities: set<string> := {"school", "university", "college", "library"}
  const MarketAmenities: set<string> := {"marketplace", "mall"}
  const BankAmenities: set<string> := {"bank", "atm"}
  const EmergencyAmenities: set<string> := {"police", "fire_station", "hospital"}
  const SightTourism: set<string> := {"attraction", "museum", "gallery", "zoo", "theme_park"}
  const NightAmenities: set<string> := {"cinema", "theatre", "casino", "nightclub"}

  const Fallback: string := "other"

  /** Every label the lenient table can produce, the fallback included. */
  const LenientCategories: set<string> :=
    {"restaurant", "hotel", "hospital", "transportation", "education", "shopping", "bank",
     "emergency", "tourism", "entertainment", "other"}

  /** The if/elif chain, branch by branch in source order. */
  function Categorize(tags: TagMap): (r: string)
    ensures r in LenientCategories
    ensures Get(tags, "amenity") in {"fuel", "parking"} ==> r in {"hotel", "hospital", "transportation"}
    ensures Get(tags, "amenity") in BankAmenities ==> r in {"hotel", "hospital", "shopping", "bank"}
    ensures Get(tags, "amenity") == "hospital" ==> r in {"hotel", "hospital"}
    ensures r == "emergency" ==> Get(tags, "amenity") in {"police", "fire_station"}
    ensures IsSet(tags, "healthcare") ==> r in {"restaurant", "hotel", "hospital"}
  {
    var amenity := Get(tags, "amenity");
    var tourism := Get(tags, "tourism");
    if amenity in FoodAmenities then "restaurant"
    else if amenity in LodgingAmenities || tourism in LodgingTourism then "hotel"
    else if amenity in HealthAmenities || IsSet(tags, "healthcare") then "hospital"
    else if amenity in TransportAmenities then "transportation"
    else if amenity in SchoolAmenities then "education"
    else if IsSet(tags, "shop") || amenity in MarketAmenities then "shopping"
    else if amenity in BankAmenities then "bank"
    else if amenity in EmergencyAmenities then "emergency"
    else if tourism in SightTourism then "tourism"
    else if amenity in NightAmenities then "entertainment"
    else Fallback
  }

  // The same precedence as an ordered table of rules.

  const FoodRule: Rule := Rule([OneOf("amenity", FoodAmenities)], "restaurant")
  const LodgingRule: Rule := Rule([OneOf("amenity", LodgingAmenities), OneOf("tourism", LodgingTourism)], "hotel")
  const HealthRule: Rule := Rule([OneOf("amenity", HealthAmenities), Present("healthcare")], "hospital")
  const TransportRule: Rule := Rule([OneOf("amenity", TransportAmenities)], "transportation")
  const SchoolRule: Rule := Rule([OneOf("amenity", SchoolAmenities)], "education")
  const ShoppingRule: Rule := Rule([Present("shop"), OneOf("amenity", MarketAmenities)], "shopping")
  const BankRule: Rule := Rule([OneOf("amenity", BankAmenities)], "bank")
  const EmergencyRule: Rule := Rule([OneOf("amenity", EmergencyAmenities)], "emergency")
  const SightRule: Rule := Rule([OneOf("tourism", SightTourism)], "tourism")
  const NightRule: Rule := Rule([OneOf("amenity", NightAmenities)], "entertainment")

  const LenientTable: seq<Rule> := [
    FoodRule,
    LodgingRule,
    HealthRule,
    TransportRule,
    SchoolRule,
    ShoppingRule,
    BankRule,
    EmergencyRule,
    SightRule,
    NightRule
  ]

  /** What each rule of the table tests, spelled out. */
  lemma LenientRuleMeanings(tags: TagMap)
    ensures RuleHolds(FoodRule, tags) <==> Get(tags, "amenity") in FoodAmenities
    ensures RuleHolds(LodgingRule, tags) <==> Get(tags, "amenity") in LodgingAmenities || Get(tags, "tourism") in LodgingTourism
    ensures RuleHolds(HealthRule, tags) <==> Get(tags, "amenity") in HealthAmenities || IsSet(tags, "healthcare")
    ensures RuleHolds(TransportRule, tags) <==> Get(tags, "amenity") in TransportAmenities
    ensures RuleHolds(SchoolRule, tags) <==> Get(tags, "amenity") in SchoolAmenities
    ensures RuleHolds(ShoppingRule, tags) <==> IsSet(tags, "shop") || Get(tags, "amenity") in MarketAmenities
    ensures RuleHolds(BankRule, tags) <==> Get(tags, "amenity") in BankAmenities
    ensures RuleHolds(EmergencyRule, tags) <==> Get(tags, "amenity") in EmergencyAmenities
    ensures RuleHolds(SightRule, tags) <==> Get(tags, "tourism") in SightTourism
    ensures RuleHolds(NightRule, tags) <==> Get(tags, "amenity") in NightAmenities
  {
    assert RuleHolds(FoodRule, tags) <==> TestHolds(FoodRule.anyOf[0], tags);
    assert RuleHolds(LodgingRule, tags) <==>
      (TestHolds(LodgingRule.anyOf[0], tags)
       || TestHolds(LodgingRule.anyOf[1], tags));
    assert RuleHolds(HealthRule, tags) <==>
      (TestHolds(HealthRule.anyOf[0], tags)
       || TestHolds(HealthRule.anyOf[1], tags));
    assert RuleHolds(TransportRule, tags) <==> TestHolds(TransportRule.anyOf[0], tags);
    assert RuleHolds(SchoolRule, tags) <==> TestHolds(SchoolRule.anyOf[0], tags);
    assert RuleHolds(ShoppingRule, tags) <==>
      (TestHolds(ShoppingRule.anyOf[0], tags)
       || TestHolds(ShoppingRule.anyOf[1], tags));
    assert RuleHolds(BankRule, tags) <==> TestHolds(BankRule.anyOf[0], tags);
    assert RuleHolds(EmergencyRule, tags) <==> TestHolds(EmergencyRule.anyOf[0], tags);
    assert RuleHolds(SightRule, tags) <==> TestHolds(SightRule.anyOf[0], tags);
    assert RuleHolds(NightRule, tags) <==> TestHolds(NightRule.anyOf[0], tags);
  }

  /** The if/elif chain is first-match over the lenient table, with "other" when no rule fires. */
  lemma LenientIsFirstMatch(tags: TagMap)
    ensures Categorize(tags) == FirstMatch(LenientTable, tags).GetOr(Fallback)
  {
    LenientRuleMeanings(tags);
    var T := LenientTable;
    assert T[0] == FoodRule && T[1] == LodgingRule && T[2] == HealthRule && T[3] == TransportRule && T[4] == SchoolRule;
    assert T[5] == ShoppingRule && T[6] == BankRule && T[7] == EmergencyRule && T[8] == SightRule && T[9] == NightRule;
    var i := FirstIndexFrom(T, tags, 0);
    forall k | 0 <= k < i ensures !RuleHolds(T[k], tags) { }
  }

  /** "other" comes out exactly when no rule of the table fires; no rule produces it. */
  lemma OtherIffNoRule(tags: TagMap)
    ensures Categorize(tags) == Fallback <==> forall j | 0 <= j < |LenientTable| :: !RuleHolds(LenientTable[j], tags)
  {
    LenientIsFirstMatch(tags);
    var T := LenientTable;
    assert forall j | 0 <= j < |T| :: T[j].category != Fallback;
  }

  /** The precedence scenarios: fuel and parking are transportation, bank and atm are bank, hospital is hospital, unknown tags are other. */
  lemma PrecedenceScenarios()
    ensures Categorize(map["amenity" := "fuel"]) == "transportation"
    ensures Categorize(map["amenity" := "parking"]) == "transportation"
    ensures Categorize(map["amenity" := "bank"]) == "bank"
    ensures Categorize(map["amenity" := "atm"]) == "bank"
    ensures Categorize(map["amenity" := "hospital"]) == "hospital"
    ensures Categorize(map["amenity" := "police"]) == "emergency"
    ensures Categorize(map["amenity" := "unknown_type"]) == Fallback
    ensures Categorize(map[]) == Fallback
  {
  }
}
