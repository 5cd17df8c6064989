/**
 * The row converter of the Overpass downloader: the response is a
 * tab-separated table whose header line names the columns name, amenity,
 * cuisine, shop, tourism, healthcare, lat and lon; every later line that
 * passes the skip rules becomes one POI record, with a category chosen by
 * the first present of amenity, shop, tourism and healthcare.
 */
module OverpassRows {
  import opened Wrappers
  import opened Text
  import opened Osm

  const Tab: char := '\t'
  const Newline: char := '\n'

  /** A column counts when it is non-empty and not the literal "null". */
  predicate Present(field: string) {
    field != "" && field != "null"
  }

  const ListedAmenities: set<string> :=
    {"restaurant", "cafe", "fast_food", "bar", "pub", "hotel", "guest_house", "hostel", "motel",
     "hospital", "clinic", "bank", "atm", "fuel", "pharmacy", "school", "university", "library",
     "police", "fire_station", "bus_station", "taxi", "car_rental", "parking"}

  /** The category of a present amenity: the branch list, and "amenity" for anything unlisted. */
  function AmenityCategory(amenity: string): (r: string)
    ensures r == "amenity" <==> amenity !in ListedAmenities
    ensures amenity == "fuel" ==> r == "gas_station"
    ensures amenity == "pharmacy" ==> r == "pharmacy"
    ensures amenity == "parking" ==> r == "parking"
  {
    if amenity in {"restaurant", "cafe", "fast_food", "bar", "pub"} then "restaurant"
    else if amenity in {"hotel", "guest_house", "hostel", "motel"} then "hotel"
    else if amenity in {"hospital", "clinic"} then "hospital"
    else if amenity in {"bank", "atm"} then "bank"
    else if amenity == "fuel" then "gas_station"
    else if amenity == "pharmacy" then "pharmacy"
    else if amenity in {"school", "university", "library"} then "education"
    else if amenity in {"police", "fire_station"} then "emergency"
    else if amenity in {"bus_station", "taxi", "car_rental"} then "transportation"
    else if amenity == "parking" then "parking"
    else "amenity"
  }

  /** The eight columns of one data line. */
  datatype Row = Row(name: string, amenity: string, cuisine: string, shop: string,
                     tourism: string, healthcare: string, lat: string, lon: string)

  /** Category and base description: the first present of amenity, shop, tourism and healthcare decides both. */
  function Kind(row: Row): (r: (string, string))
    ensures r.0 == "other" <==> !Present(row.amenity) && !Present(row.shop) && !Present(row.tourism) && !Present(row.healthcare)
    ensures Present(row.amenity) ==> r == (AmenityCategory(row.amenity), row.amenity)
    ensures !Present(row.amenity) && Present(row.shop) ==> r == ("shopping", row.shop)
    ensures !Present(row.amenity) && !Present(row.shop) && Present(row.tourism) ==> r == ("tourism", row.tourism)
    ensures !Present(row.amenity) && !Present(row.shop) && !Present(row.tourism) && Present(row.healthcare) ==>
      r == ("healthcare", row.healthcare)
    ensures !Present(row.amenity) && !Present(row.shop) && !Present(row.tourism) && !Present(row.healthcare) ==>
      r == ("other", "POI")
  {
    if Present(row.amenity) then (AmenityCategory(row.amenity), row.amenity)
    else if Present(row.shop) then ("shopping", row.shop)
    else if Present(row.tourism) then ("tourism", row.tourism)
    else if Present(row.healthcare) then ("healthcare", row.healthcare)
    else ("other", "POI")
  }

  /** The description with a present cuisine appended in parentheses. */
  function WithCuisine(description: string, cuisine: string): (r: string)
    ensures Present(cuisine) ==>
      |r| == |description| + |cuisine| + 3 && r[..|description|] == description && EndsWith(r, " (" + cuisine + ")")
    ensures !Present(cuisine) ==> r == description
  {
    var suffix := " (" + cuisine + ")";
    var full := if Present(cuisine) then description + suffix else description;
    assert Present(cuisine) ==> full[|full| - |suffix|..] == suffix;
    full
  }

  /** Text with no quote, no newline and no whitespace at either end. */
  predicate IsClean(t: string) {
    '"' !in t && Newline !in t && (t == [] || (!IsSpace(t[0]) && !IsSpace(t[|t| - 1])))
  }

  /** `s.replace('"', '').replace('\n', ' ').strip()`. */
  function Clean(s: string): (r: string)
    ensures IsClean(r)
    ensures |r| <= |s|
  {
    var unquoted := Replace(s, '"', "");
    var flat := Replace(unquoted, Newline, " ");
    assert |flat| == |unquoted| by { ReplaceByOneKeepsLength(unquoted, Newline, ' '); }
    assert |unquoted| <= |s| by { ReplaceByEmptyShrinks(s, '"'); }
    Strip(flat)
  }

  /**
   * What cleaning keeps: the slice `flat[a..b]` of the text `flat` that has
   * every quote removed and every newline turned into a space, with only
   * whitespace outside the slice (`Clean` itself says there is none at the
   * slice's ends).
   */
  lemma CleanMeaning(s: string) returns (a: nat, b: nat)
    ensures var flat := Replace(Replace(s, '"', ""), Newline, " ");
      && a <= b <= |flat| && Clean(s) == flat[a..b]
      && (forall i | 0 <= i < a :: IsSpace(flat[i]))
      && (forall i | b <= i < |flat| :: IsSpace(flat[i]))
  {
    var flat := Replace(Replace(s, '"', ""), Newline, " ");
    assert Clean(s) == Strip(flat);
    a, b := StripSlice(flat);
  }

  /** Text that is already clean comes out unchanged. */
  lemma CleanKeepsCleanText(s: string)
    requires IsClean(s)
    ensures Clean(s) == s
  {
    ReplaceAbsent(s, '"', "");
    ReplaceAbsent(s, Newline, " ");
    StripTrimmed(s);
  }

  lemma {:induction false} ReplaceByOneKeepsLength(s: string, c: char, d: char)
    ensures |Replace(s, c, [d])| == |s|
  {
    if s != [] {
      ReplaceByOneKeepsLength(s[1..], c, d);
    }
  }

  lemma {:induction false} ReplaceByEmptyShrinks(s: string, c: char)
    ensures |Replace(s, c, "")| <= |s|
  {
    if s != [] {
      ReplaceByEmptyShrinks(s[1..], c);
    }
  }

  /**
   * One data line given its eight leading fields: skipped (None) when the
   * name is empty or "null" or a coordinate is empty or does not parse.
   */
  function RowToPoi(row: Row): (r: Option<Poi>)
    ensures r.Some? <==> Present(row.name) && ParseDecimal(row.lat).Some? && ParseDecimal(row.lon).Some?
    ensures r.Some? ==>
      && r.value.latitude == ParseDecimal(row.lat).value && r.value.longitude == ParseDecimal(row.lon).value
      && r.value.category == Kind(row).0
      && r.value.name == Clean(row.name)
      && r.value.description == Clean(WithCuisine(Kind(row).1, row.cuisine))
      && IsClean(r.value.name) && IsClean(r.value.description)
  {
    if !Present(row.name) || row.lat == "" || row.lon == "" then None
    else match (ParseDecimal(row.lat), ParseDecimal(row.lon))
      case (Some(lat), Some(lon)) =>
        var (category, description) := Kind(row);
        Some(Poi(Clean(row.name), category, lat, lon, Clean(WithCuisine(description, row.cuisine))))
      case _ => None
  }

  /** `line.split('\t')`, with lines of fewer than eight fields skipped and fields past the eighth ignored. */
  function LineToPoi(line: string): Option<Poi> {
    var parts := Split(line, Tab);
    if |parts| < 8 then None
    else RowToPoi(Row(parts[0], parts[1], parts[2], parts[3], parts[4], parts[5], parts[6], parts[7]))
  }

  /** The results of `f` that are present, in order: the records a run of lines yields. */
  function FilterMap<T, U>(xs: seq<T>, f: T -> Option<U>): (r: seq<U>)
    ensures |r| <= |xs|
  {
    if xs == [] then []
    else f(xs[0]).ToSeq() + FilterMap(xs[1..], f)
  }

  /** Converting two runs of lines one after the other is converting their concatenation. */
  lemma {:induction false} FilterMapAppend<T, U>(a: seq<T>, b: seq<T>, f: T -> Option<U>)
    ensures FilterMap(a + b, f) == FilterMap(a, f) + FilterMap(b, f)
  {
    if a == [] {
      calc {
        FilterMap(a + b, f);
        { assert a + b == b; }
        FilterMap(b, f);
      }
    } else {
      var head := f(a[0]).ToSeq();
      calc {
        FilterMap(a + b, f);
        { assert (a + b)[1..] == a[1..] + b; assert (a + b)[0] == a[0]; }
        head + FilterMap(a[1..] + b, f);
        { FilterMapAppend(a[1..], b, f); }
        head + (FilterMap(a[1..], f) + FilterMap(b, f));
        (head + FilterMap(a[1..], f)) + FilterMap(b, f);
      }
    }
  }

  /** Converting one more line of a run appends its record, if any. */
  lemma FilterMapPrefix<T, U>(xs: seq<T>, i: nat, f: T -> Option<U>)
    requires i < |xs|
    ensures FilterMap(xs[..i + 1], f) == FilterMap(xs[..i], f) + f(xs[i]).ToSeq()
  {
    calc {
      FilterMap(xs[..i + 1], f);
      { assert xs[..i + 1] == xs[..i] + [xs[i]]; }
      FilterMap(xs[..i] + [xs[i]], f);
      { FilterMapAppend(xs[..i], [xs[i]], f); }
      FilterMap(xs[..i], f) + FilterMap([xs[i]], f);
      { assert [xs[i]][1..] == []; }
      FilterMap(xs[..i], f) + f(xs[i]).ToSeq();
    }
  }

  /** No line is lost silently: every line yields a record exactly when none of them is skipped. */
  lemma {:induction false} FilterMapKeepsAll<T, U>(xs: seq<T>, f: T -> Option<U>)
    ensures |FilterMap(xs, f)| == |xs| <==> forall k | 0 <= k < |xs| :: f(xs[k]).Some?
  {
    if xs != [] {
      FilterMapKeepsAll(xs[1..], f);
      assert forall k | 1 <= k < |xs| :: xs[1..][k - 1] == xs[k];
    }
  }

  /** The data lines of a response: none when the stripped text is empty or has fewer than two lines. */
  function DataLines(text: string): seq<string> {
    var body := Strip(text);
    if body == "" then []
    else
      var lines := Split(body, Newline);
      if |lines| < 2 then [] else lines[1..]
  }

  /** The category cascade and the cuisine suffix of one accepted line. */
  method ClassifyRow(row: Row) returns (category: string, description: string)
    ensures category == Kind(row).0
    ensures description == WithCuisine(Kind(row).1, row.cuisine)
  {
    category, description := "other", "POI";
    if row.amenity != "" && row.amenity != "null" {
      category, description := AmenityCategory(row.amenity), row.amenity;
    } else if row.shop != "" && row.shop != "null" {
      category, description := "shopping", row.shop;
    } else if row.tourism != "" && row.tourism != "null" {
      category, description := "tourism", row.tourism;
    } else if row.healthcare != "" && row.healthcare != "null" {
      category, description := "healthcare", row.healthcare;
    }
    if row.cuisine != "" && row.cuisine != "null" {
      description := description + " (" + row.cuisine + ")";
    }
  }

  /** One data line: split on tabs, apply the skip rules, classify and clean. */
  method ConvertLine(line: string) returns (r: Option<Poi>)
    ensures r == LineToPoi(line)
  {
    r := None;
    var parts := Split(line, Tab);
    if |parts| < 8 {
      return;
    }
    var row := Row(parts[0], parts[1], parts[2], parts[3], parts[4], parts[5], parts[6], parts[7]);
    if row.name == "" || row.name == "null" || row.lat == "" || row.lon == "" {
      return;
    }
    var lat, lon := ParseDecimal(row.lat), ParseDecimal(row.lon);
    if lat.None? || lon.None? {
      return;
    }
    var category, description := ClassifyRow(row);
    r := Some(Poi(Clean(row.name), category, lat.value, lon.value, Clean(description)));
  }

  /** The loop over the data lines, appending each accepted row. */
  method ConvertAll(data: seq<string>) returns (pois: seq<Poi>)
    ensures pois == FilterMap(data, LineToPoi)
  {
    pois := [];
    var i := 0;
    while i < |data|
      invariant 0 <= i <= |data|
      invariant pois == FilterMap(data[..i], LineToPoi)
    {
      var row := ConvertLine(data[i]);
      FilterMapPrefix(data, i, LineToPoi);
      pois := pois + row.ToSeq();
      i := i + 1;
    }
    assert data[..i] == data by { assert i == |data|; }
  }

  /** A response: empty after stripping, or a header alone, gives no records; otherwise every line after the header is converted. */
  method ParseResponse(text: string) returns (pois: seq<Poi>)
    ensures pois == FilterMap(DataLines(text), LineToPoi)
  {
    var body := Strip(text);
    if body == "" {
      return [];
    }
    var lines := Split(body, Newline);
    if |lines| < 2 {
      return [];
    }
    pois := ConvertAll(lines[1..]);
  }

  /** Splitting text joined with a separator that occurs in no part gives the parts back. */
  lemma {:induction false} SplitJoin(parts: seq<string>, sep: char)
    requires |parts| >= 1
    requires forall k | 0 <= k < |parts| :: sep !in parts[k]
    ensures Split(Join(parts, [sep]), sep) == parts
  {
    if |parts| > 1 {
      var rest := parts[1..];
      SplitJoin(rest, sep);
      var s := Join(parts, [sep]);
      assert s == parts[0] + [sep] + Join(rest, [sep]);
      assert s[|parts[0]|] == sep;
      assert s[..|parts[0]|] == parts[0];
      var i := IndexOf(s, sep);
      assert i == |parts[0]|;
      assert s[..i] == parts[0];
      assert s[i + 1..] == Join(rest, [sep]);
    }
  }

  /**
   * A line is the tab-join of its fields: with eight or more fields the
   * record depends on the first eight only, with fewer the line is skipped.
   */
  lemma FieldsOfLine(parts: seq<string>)
    requires |parts| >= 1
    requires forall k | 0 <= k < |parts| :: Tab !in parts[k]
    ensures |parts| < 8 ==> LineToPoi(Join(parts, [Tab])) == None
    ensures |parts| >= 8 ==>
      LineToPoi(Join(parts, [Tab])) == RowToPoi(Row(parts[0], parts[1], parts[2], parts[3], parts[4], parts[5], parts[6], parts[7]))
  {
    SplitJoin(parts, Tab);
  }

  /** The header line never yields a record: a response of one line yields none. */
  lemma HeaderOnly(header: string)
    requires Newline !in header
    ensures DataLines(header) == []
  {
    var body := Strip(header);
    if body != "" {
      assert Newline !in body;
      assert Split(body, Newline) == [body];
    }
  }
}
