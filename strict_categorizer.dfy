/**
 * The strict rule table of the XML/PBF converter: an if/elif chain over
 * the `amenity`, `shop`, `tourism`, `healthcare`, `railway`, `aeroway`,
 * `highway`, `leisure`, `historic` and `name` tags whose first matching
 * branch names the category, and which yields no category at all when no
 * branch matches (the entity is then not a POI). `POIHandler.categorize_poi`
 * and `categorize_poi_xml` are two identical copies of this chain.
 */
module StrictCategorizer {
  import opened Wrappers
  import opened Text
  import opened Osm
  import opened RuleTables

  const FoodAmenities: set<string> := {"restaurant", "cafe", "fast_food", "bar", "pub", "food_court", "biergarten"}
  const LodgingAmenities: set<string> := {"hotel", "guest_house", "hostel", "motel"}
  const LodgingTourism: set<string> := {"hotel", "hostel", "guest_house", "motel"}
  const HealthAmenities: set<string> := {"hospital", "clinic", "pharmacy", "dentist", "doctors", "veterinary"}
  const TransportAmenities: set<string> := {"bus_station", "taxi", "fuel", "ferry_terminal"}
  const RailwayStops: set<string> := {"station", "halt", "tram_stop"}
  const Airfields: set<string> := {"aerodrome", "helipad"}
  const FuelAmenities: set<string> := {"fuel", "charging_station"}
  const MarketAmenities: set<string> := {"marketplace", "shopping_centre"}
  const LeisureGrounds: set<string> := {"park", "playground", "sports_centre", "stadium", "swimming_pool", "golf_course"}
  const StageAmenities: set<string> := {"theatre", "cinema", "arts_centre"}
  const ParkTourism: set<string> := {"zoo", "theme_park"}
  const SchoolAmenities: set<string> := {"school", "university", "college", "kindergarten", "library"}
  const SightTourism: set<string> := {"attraction", "museum", "monument", "viewpoint", "gallery", "information"}
  const ServiceAmenities: set<string> := {"bank", "atm", "post_office", "police", "fire_station", "courthouse", "townhall"}

  /** Every label the strict table can produce. */
  const StrictCategories: set<string> :=
    {"restaurant", "hotel", "hospital", "transportation", "gas_station", "shopping",
     "recreation", "education", "tourism", "services"}

  /** `tourism == 'attraction' and 'market' in tags.get('name', '').lower()`. */
  predicate MarketAttraction(tags: TagMap) {
    Get(tags, "tourism") == "attraction" && Contains(Lower(Get(tags, "name")), "market")
  }

  /** The if/elif chain, branch by branch in source order. */
  function Categorize(tags: TagMap): Option<string>
  {
    var amenity := Get(tags, "amenity");
    var tourism := Get(tags, "tourism");
    if amenity in FoodAmenities then Some("restaurant")
    else if amenity in LodgingAmenities || tourism in LodgingTourism then Some("hotel")
    else if amenity in HealthAmenities || IsSet(tags, "healthcare") then Some("hospital")
    else if amenity in TransportAmenities || Get(tags, "railway") in RailwayStops
         || Get(tags, "aeroway") in Airfields || Get(tags, "highway") == "bus_stop" then Some("transportation")
    else if amenity in FuelAmenities then Some("gas_station")
    else if IsSet(tags, "shop") || amenity in MarketAmenities || MarketAttraction(tags) then Some("shopping")
    else if Get(tags, "leisure") in LeisureGrounds || amenity in StageAmenities || tourism in ParkTourism then Some("recreation")
    else if amenity in SchoolAmenities then Some("education")
    else if tourism in SightTourism || amenity == "place_of_worship" || IsSet(tags, "historic") then Some("tourism")
    else if amenity in ServiceAmenities then Some("services")
    else None
  }

  /**
   * What the chain may answer: a label of the table; "gas_station" only
   * for a charging station (fuel is caught earlier, as transportation);
   * a healthcare or shop tag always gives a category no later than its
   * own branch; an attraction always gets one, and a market-named
   * attraction is shopping rather than tourism.
   */
  lemma CategorizeMeaning(tags: TagMap, r: Option<string>)
    requires r == Categorize(tags)
    ensures r.Some? ==> r.value in StrictCategories
    ensures r == Some("gas_station") ==> Get(tags, "amenity") == "charging_station"
    ensures Get(tags, "amenity") == "fuel" ==> r in {Some("hotel"), Some("hospital"), Some("transportation")}
    ensures IsSet(tags, "healthcare") ==> r in {Some("restaurant"), Some("hotel"), Some("hospital")}
    ensures IsSet(tags, "shop") ==>
      r in {Some("restaurant"), Some("hotel"), Some("hospital"), Some("transportation"), Some("gas_station"), Some("shopping")}
    ensures Get(tags, "tourism") == "attraction" ==> r.Some?
    ensures MarketAttraction(tags) ==> r.Some? && r.value != "tourism"
  {
  }

  // The same precedence written as an ordered table of (tests, category) rules.

  const FoodRule: Rule := Rule([OneOf("amenity", FoodAmenities)], "restaurant")
  const LodgingRule: Rule := Rule([OneOf("amenity", LodgingAmenities), OneOf("tourism", LodgingTourism)], "hotel")
  const HealthRule: Rule := Rule([OneOf("amenity", HealthAmenities), Present("healthcare")], "hospital")
  const TransportRule: Rule := Rule([OneOf("amenity", TransportAmenities), OneOf("railway", RailwayStops),
                                 OneOf("aeroway", Airfields), OneOf("highway", {"bus_stop"})], "transportation")
  const FuelRule: Rule := Rule([OneOf("amenity", FuelAmenities)], "gas_station")
  const ShoppingRule: Rule := Rule([Present("shop"), OneOf("amenity", MarketAmenities),
                                Both(OneOf("tourism", {"attraction"}), LowerHas("name", "market"))], "shopping")
  const RecreationRule: Rule := Rule([OneOf("leisure", LeisureGrounds), OneOf("amenity", StageAmenities),
                                  OneOf("tourism", ParkTourism)], "recreation")
  const SchoolRule: Rule := Rule([OneOf("amenity", SchoolAmenities)], "education")
  const SightRule: Rule := Rule([OneOf("tourism", SightTourism), OneOf("amenity", {"place_of_worship"}),
                             Present("historic")], "tourism")
  const ServiceRule: Rule := Rule([OneOf("amenity", ServiceAmenities)], "services")

  const StrictTable: seq<Rule> := [
    FoodRule,
    LodgingRule,
    HealthRule,
    TransportRule,
    FuelRule,
    ShoppingRule,
    RecreationRule,
    SchoolRule,
    SightRule,
    ServiceRule
  ]

  /** What each rule of the table tests, spelled out. */
  lemma StrictRuleMeanings(tags: TagMap)
    ensures RuleHolds(FoodRule, tags) <==> Get(tags, "amenity") in FoodAmenities
    ensures RuleHolds(LodgingRule, tags) <==> Get(tags, "amenity") in LodgingAmenities || Get(tags, "tourism") in LodgingTourism
    ensures RuleHolds(HealthRule, tags) <==> Get(tags, "amenity") in HealthAmenities || IsSet(tags, "healthcare")
    ensures RuleHolds(TransportRule, tags) <==>
      (Get(tags, "amenity") in TransportAmenities || Get(tags, "railway") in RailwayStops
       || Get(tags, "aeroway") in Airfields || Get(tags, "highway") == "bus_stop")
    ensures RuleHolds(FuelRule, tags) <==> Get(tags, "amenity") in FuelAmenities
    ensures RuleHolds(ShoppingRule, tags) <==> IsSet(tags, "shop") || Get(tags, "amenity") in MarketAmenities || MarketAttraction(tags)
    ensures RuleHolds(RecreationRule, tags) <==>
      (Get(tags, "leisure") in LeisureGrounds || Get(tags, "amenity") in StageAmenities
       || Get(tags, "tourism") in ParkTourism)
    ensures RuleHolds(SchoolRule, tags) <==> Get(tags, "amenity") in SchoolAmenities
    ensures RuleHolds(SightRule, tags) <==>
      (Get(tags, "tourism") in SightTourism || Get(tags, "amenity") == "place_of_worship"
       || IsSet(tags, "historic"))
    ensures RuleHolds(ServiceRule, tags) <==> Get(tags, "amenity") in ServiceAmenities
  {
    assert RuleHolds(FoodRule, tags) <==> TestHolds(FoodRule.anyOf[0], tags);
    assert RuleHolds(LodgingRule, tags) <==>
      (TestHolds(LodgingRule.anyOf[0], tags)
       || TestHolds(LodgingRule.anyOf[1], tags));
    assert RuleHolds(HealthRule, tags) <==>
      (TestHolds(HealthRule.anyOf[0], tags)
       || TestHolds(HealthRule.anyOf[1], tags));
    assert RuleHolds(TransportRule, tags) <==>
      (TestHolds(TransportRule.anyOf[0], tags)
       || TestHolds(TransportRule.anyOf[1], tags)
       || TestHolds(TransportRule.anyOf[2], tags)
       || TestHolds(TransportRule.anyOf[3], tags));
    assert RuleHolds(FuelRule, tags) <==> TestHolds(FuelRule.anyOf[0], tags);
    assert TestHolds(ShoppingRule.anyOf[2], tags) <==> MarketAttraction(tags);
    assert RuleHolds(ShoppingRule, tags) <==>
      (TestHolds(ShoppingRule.anyOf[0], tags)
       || TestHolds(ShoppingRule.anyOf[1], tags)
       || TestHolds(ShoppingRule.anyOf[2], tags));
    assert RuleHolds(RecreationRule, tags) <==>
      (TestHolds(RecreationRule.anyOf[0], tags)
       || TestHolds(RecreationRule.anyOf[1], tags)
       || TestHolds(RecreationRule.anyOf[2], tags));
    assert RuleHolds(SchoolRule, tags) <==> TestHolds(SchoolRule.anyOf[0], tags);
    assert RuleHolds(SightRule, tags) <==>
      (TestHolds(SightRule.anyOf[0], tags)
       || TestHolds(SightRule.anyOf[1], tags)
       || TestHolds(SightRule.anyOf[2], tags));
    assert RuleHolds(ServiceRule, tags) <==> TestHolds(ServiceRule.anyOf[0], tags);
  }

  /** The if/elif chain is exactly first-match over the strict table. */
  lemma StrictIsFirstMatch(tags: TagMap)
    ensures Categorize(tags) == FirstMatch(StrictTable, tags)
  {
    StrictRuleMeanings(tags);
    var T := StrictTable;
    assert T[0] == FoodRule && T[1] == LodgingRule && T[2] == HealthRule && T[3] == TransportRule && T[4] == FuelRule;
    assert T[5] == ShoppingRule && T[6] == RecreationRule && T[7] == SchoolRule && T[8] == SightRule && T[9] == ServiceRule;
    var i := FirstIndexFrom(T, tags, 0);
    forall k | 0 <= k < i ensures !RuleHolds(T[k], tags) { }
  }

  /** Categorization returns None exactly when no rule of the table fires. */
  lemma StrictNoneIffNoRule(tags: TagMap)
    ensures Categorize(tags).None? <==> forall j | 0 <= j < |StrictTable| :: !RuleHolds(StrictTable[j], tags)
  {
    StrictIsFirstMatch(tags);
  }

  /** `{'amenity': 'fuel'}` is transportation: the gas_station branch comes later. */
  lemma FuelIsTransportation()
    ensures Categorize(map["amenity" := "fuel"]) == Some("transportation")
    ensures Categorize(map["amenity" := "charging_station"]) == Some("gas_station")
  {
  }

  /** An empty tag set is not a POI. */
  lemma EmptyTagsHaveNoCategory()
    ensures Categorize(map[]) == None
  {
  }

  /**
   * An attraction whose only other tag is its name is shopping when the
   * lower-cased name mentions "market" and tourism otherwise.
   */
  lemma AttractionByName(name: string)
    ensures var tags := map["tourism" := "attraction", "name" := name];
      Categorize(tags) == Some(if Contains(Lower(name), "market") then "shopping" else "tourism")
  {
    var tags := map["tourism" := "attraction", "name" := name];
    assert Get(tags, "amenity") == "" && Get(tags, "shop") == "" && Get(tags, "healthcare") == "";
    assert Get(tags, "railway") == "" && Get(tags, "aeroway") == "" && Get(tags, "highway") == "";
    assert Get(tags, "leisure") == "" && Get(tags, "historic") == "";
  }
}
