/** Enrichment of a scraped attraction record before it is stored: the field defaults, the
  * (placeholder) geocoding step, and the merge of an oracle's reply into the record. The oracle's
  * reply is a parameter, already parsed; `None` stands for every way the call can fail (no JSON
  * in the answer, an unparsable answer, a network or SDK error). */
module Enrichment {
  import opened Wrappers
  import opened Records

  /** The four fields every enriched record carries. */
  const DefaultKeys: set<string> := {"rating", "visit_duration", "price", "is_free"}

  /** The record after the four `setdefault` calls. */
  function WithDefaults(d: Dict): Dict
  {
    Defaulted(Defaulted(Defaulted(Defaulted(d, "rating", Num(0.0)), "visit_duration", Int(60)),
                        "price", Num(0.0)), "is_free", Bool(true))
  }

  /** The defaults add exactly the four defaulted keys that were missing, and change no value that
    * was there. */
  lemma WithDefaultsKeeps(d: Dict)
    ensures WithDefaults(d).Keys == d.Keys + DefaultKeys
    ensures forall k :: k in d ==> WithDefaults(d)[k] == d[k]
  {
    var d1 := Defaulted(d, "rating", Num(0.0));
    var d2 := Defaulted(d1, "visit_duration", Int(60));
    var d3 := Defaulted(d2, "price", Num(0.0));
    assert forall k :: k in d ==> d3[k] == d2[k] == d1[k] == d[k];
  }

  /** An absent rating becomes 0, an absent visit duration 60 minutes, an absent price 0 and an
    * absent free flag true. */
  lemma WithDefaultsFills(d: Dict)
    ensures "rating" !in d ==> WithDefaults(d)["rating"] == Num(0.0)
    ensures "visit_duration" !in d ==> WithDefaults(d)["visit_duration"] == Int(60)
    ensures "price" !in d ==> WithDefaults(d)["price"] == Num(0.0)
    ensures "is_free" !in d ==> WithDefaults(d)["is_free"] == Bool(true)
  {
    var d1 := Defaulted(d, "rating", Num(0.0));
    var d2 := Defaulted(d1, "visit_duration", Int(60));
    var d3 := Defaulted(d2, "price", Num(0.0));
    assert WithDefaults(d) == Defaulted(d3, "is_free", Bool(true));
  }

  /** Applying the defaults twice is applying them once. */
  lemma WithDefaultsIdempotent(d: Dict)
    ensures WithDefaults(WithDefaults(d)) == WithDefaults(d)
  {
    var once := WithDefaults(d);
    var twice := WithDefaults(once);
    assert twice.Keys == once.Keys;
    forall k | k in twice ensures twice[k] == once[k] {
    }
  }

  /** Coordinates taken from a geocoder when the address is truthy and the geocoder finds them. */
  function Located(d: Dict, geocode: Value -> Option<(Value, Value)>): (r: Dict)
    ensures forall k :: k in d && k != "latitude" && k != "longitude" ==> k in r && r[k] == d[k]
  {
    var address := Get(d, "address");
    if Truthy(address) && geocode(address).Some? then
      d["latitude" := geocode(address).value.0]["longitude" := geocode(address).value.1]
    else d
  }

  /** The scrapers' geocoder: a placeholder that never finds coordinates. */
  function NoGeocoder(address: Value): Option<(Value, Value)>
  {
    None
  }

  /** `enrich_attraction_data` of the scraper (the defaulting part, shared by both scrapers):
    * coordinates are taken from the geocoder when the address is truthy, then the four defaults
    * are applied to absent keys. */
  method ApplyDefaults(r: Record, geocode: Value -> Option<(Value, Value)>)
    modifies r
    ensures r.items == WithDefaults(Located(old(r.items), geocode))
  {
    var address := Get(r.items, "address");
    if Truthy(address) {
      var coords := geocode(address);
      if coords.Some? {
        r.Set("latitude", coords.value.0);
        r.Set("longitude", coords.value.1);
      }
    }
    r.SetDefault("rating", Num(0.0));
    r.SetDefault("visit_duration", Int(60));
    r.SetDefault("price", Num(0.0));
    r.SetDefault("is_free", Bool(true));
  }

  /** With the scrapers' geocoder, enrichment never adds coordinates, keeps every field that was
    * there and always yields the four defaulted fields. */
  lemma DefaultsAddNoCoordinates(d: Dict)
    ensures var r := WithDefaults(Located(d, NoGeocoder));
      && ("latitude" in r <==> "latitude" in d)
      && ("longitude" in r <==> "longitude" in d)
      && (forall k :: k in d ==> k in r && r[k] == d[k])
      && DefaultKeys <= r.Keys
  {
    assert Located(d, NoGeocoder) == d;
  }

  /** The fields the oracle's reply can touch. */
  const MergedKeys: set<string> :=
    {"description", "short_description", "price", "is_free", "visit_duration", "opening_hours", "highlights"}

  /** A reply field that only fills a field currently falsy. */
  function FillIfFalsy(d: Dict, p: Dict, key: string): (r: Dict)
    ensures forall k :: k != key ==> Get(r, k) == Get(d, k)
    ensures Truthy(Get(d, key)) ==> Get(r, key) == Get(d, key)
    ensures !Truthy(Get(d, key)) && Truthy(Get(p, key)) ==> Get(r, key) == Get(p, key)
  {
    if Truthy(Get(p, key)) && !Truthy(Get(d, key)) then d[key := p[key]] else d
  }

  /** A reply field that overwrites whenever it is truthy. */
  function OverwriteIfTruthy(d: Dict, p: Dict, key: string): (r: Dict)
    ensures forall k :: k != key ==> Get(r, k) == Get(d, k)
    ensures Truthy(Get(p, key)) ==> Get(r, key) == Get(p, key)
    ensures !Truthy(Get(p, key)) ==> r == d
  {
    if Truthy(Get(p, key)) then d[key := p[key]] else d
  }

  /** A non-null reply price overwrites the price, and the reply's `is_free` (true when absent)
    * overwrites `is_free`. */
  function MergePrice(d: Dict, p: Dict): (r: Dict)
    ensures forall k :: k != "price" && k != "is_free" ==> Get(r, k) == Get(d, k)
    ensures Get(p, "price") != Null ==> Get(r, "price") == Get(p, "price")
    ensures Get(p, "price") != Null && "is_free" !in p ==> Get(r, "is_free") == Bool(true)
    ensures Get(p, "price") != Null && "is_free" in p ==> Get(r, "is_free") == p["is_free"]
    ensures Get(p, "price") == Null ==> r == d
  {
    if Get(p, "price") != Null then d["price" := p["price"]]["is_free" := if "is_free" in p then p["is_free"] else Bool(true)]
    else d
  }

  /** The merge of a reply into a record, in the source's statement order. */
  function MergeReply(d: Dict, p: Dict): (r: Dict)
    ensures r.Keys <= d.Keys + MergedKeys
    ensures d.Keys <= r.Keys
    ensures forall k :: k in d && k !in MergedKeys ==> r[k] == d[k]
  {
    var withDescription := FillIfFalsy(d, p, "description");
    var withShort := FillIfFalsy(withDescription, p, "short_description");
    var withPrice := MergePrice(withShort, p);
    var withDuration := OverwriteIfTruthy(withPrice, p, "visit_duration");
    var withHours := OverwriteIfTruthy(withDuration, p, "opening_hours");
    OverwriteIfTruthy(withHours, p, "highlights")
  }

  /** A truthy description or short description is never overwritten; a falsy one is filled
    * from a truthy reply value. */
  lemma MergeFillsDescriptions(d: Dict, p: Dict)
    ensures var r := MergeReply(d, p);
      && (Truthy(Get(d, "description")) ==> Get(r, "description") == Get(d, "description"))
      && (!Truthy(Get(d, "description")) && Truthy(Get(p, "description")) ==> Get(r, "description") == Get(p, "description"))
      && (Truthy(Get(d, "short_description")) ==> Get(r, "short_description") == Get(d, "short_description"))
      && (!Truthy(Get(d, "short_description")) && Truthy(Get(p, "short_description")) ==>
            Get(r, "short_description") == Get(p, "short_description"))
  {
    var withDescription := FillIfFalsy(d, p, "description");
    var withShort := FillIfFalsy(withDescription, p, "short_description");
    var withPrice := MergePrice(withShort, p);
    var withDuration := OverwriteIfTruthy(withPrice, p, "visit_duration");
    var withHours := OverwriteIfTruthy(withDuration, p, "opening_hours");
    assert MergeReply(d, p) == OverwriteIfTruthy(withHours, p, "highlights");
  }

  /** A non-null reply price replaces the price and sets `is_free` from the reply (true when the
    * reply has none); a null or absent one leaves both as they were. */
  lemma MergeSetsPrice(d: Dict, p: Dict)
    ensures var r := MergeReply(d, p);
      && (Get(p, "price") != Null ==> Get(r, "price") == Get(p, "price"))
      && (Get(p, "price") != Null && "is_free" !in p ==> Get(r, "is_free") == Bool(true))
      && (Get(p, "price") != Null && "is_free" in p ==> Get(r, "is_free") == p["is_free"])
      && (Get(p, "price") == Null ==> Get(r, "price") == Get(d, "price") && Get(r, "is_free") == Get(d, "is_free"))
  {
    var withDescription := FillIfFalsy(d, p, "description");
    var withShort := FillIfFalsy(withDescription, p, "short_description");
    var withPrice := MergePrice(withShort, p);
    var withDuration := OverwriteIfTruthy(withPrice, p, "visit_duration");
    var withHours := OverwriteIfTruthy(withDuration, p, "opening_hours");
    assert MergeReply(d, p) == OverwriteIfTruthy(withHours, p, "highlights");
  }

  /** The visit duration, opening hours and highlights are replaced exactly by truthy reply values. */
  lemma MergeOverwritesTruthy(d: Dict, p: Dict)
    ensures var r := MergeReply(d, p);
      && (Truthy(Get(p, "visit_duration")) ==> Get(r, "visit_duration") == Get(p, "visit_duration"))
      && (!Truthy(Get(p, "visit_duration")) ==> Get(r, "visit_duration") == Get(d, "visit_duration"))
      && (Truthy(Get(p, "opening_hours")) ==> Get(r, "opening_hours") == Get(p, "opening_hours"))
      && (!Truthy(Get(p, "opening_hours")) ==> Get(r, "opening_hours") == Get(d, "opening_hours"))
      && (Truthy(Get(p, "highlights")) ==> Get(r, "highlights") == Get(p, "highlights"))
      && (!Truthy(Get(p, "highlights")) ==> Get(r, "highlights") == Get(d, "highlights"))
  {
    var withDescription := FillIfFalsy(d, p, "description");
    var withShort := FillIfFalsy(withDescription, p, "short_description");
    var withPrice := MergePrice(withShort, p);
    var withDuration := OverwriteIfTruthy(withPrice, p, "visit_duration");
    var withHours := OverwriteIfTruthy(withDuration, p, "opening_hours");
    assert MergeReply(d, p) == OverwriteIfTruthy(withHours, p, "highlights");
  }

  /** `enrich_with_perplexity` as a function of the record: without an API key, without a truthy
    * name, or when the call fails, the record is returned as it was; otherwise the reply is
    * merged. */
  function Enriched(d: Dict, hasKey: bool, reply: Option<Dict>): (r: Dict)
    ensures !hasKey || !Truthy(Get(d, "name")) || reply.None? ==> r == d
    ensures forall k :: k in d && k !in MergedKeys ==> k in r && r[k] == d[k]
    ensures d.Keys <= r.Keys <= d.Keys + MergedKeys
  {
    if !hasKey || !Truthy(Get(d, "name")) || reply.None? then d else MergeReply(d, reply.value)
  }

  /** `enrich_with_perplexity`: the reply's fields merged into the record in place. */
  method EnrichWithPerplexity(r: Record, hasKey: bool, reply: Option<Dict>)
    modifies r
    ensures r.items == Enriched(old(r.items), hasKey, reply)
  {
    if !hasKey {
      return;
    }
    var name := Get(r.items, "name");
    if !Truthy(name) {
      return;
    }
    if reply.None? {
      return;
    }
    var p := reply.value;
    ghost var d := r.items;
    if Truthy(Get(p, "description")) && !Truthy(Get(r.items, "description")) {
      r.Set("description", p["description"]);
    }
    ghost var withDescription := r.items;
    assert withDescription == FillIfFalsy(d, p, "description");
    if Truthy(Get(p, "short_description")) && !Truthy(Get(r.items, "short_description")) {
      r.Set("short_description", p["short_description"]);
    }
    ghost var withShort := r.items;
    assert withShort == FillIfFalsy(withDescription, p, "short_description");
    if Get(p, "price") != Null {
      r.Set("price", p["price"]);
      r.Set("is_free", if "is_free" in p then p["is_free"] else Bool(true));
    }
    ghost var withPrice := r.items;
    assert withPrice == MergePrice(withShort, p);
    if Truthy(Get(p, "visit_duration")) {
      r.Set("visit_duration", p["visit_duration"]);
    }
    ghost var withDuration := r.items;
    assert withDuration == OverwriteIfTruthy(withPrice, p, "visit_duration");
    if Truthy(Get(p, "opening_hours")) {
      r.Set("opening_hours", p["opening_hours"]);
    }
    ghost var withHours := r.items;
    assert withHours == OverwriteIfTruthy(withDuration, p, "opening_hours");
    if Truthy(Get(p, "highlights")) {
      r.Set("highlights", p["highlights"]);
    }
    assert r.items == OverwriteIfTruthy(withHours, p, "highlights");
  }

  /** The backend scraper's `enrich_attraction_data`: defaults, then the oracle's merge. */
  method EnrichBackend(r: Record, hasKey: bool, reply: Option<Dict>)
    modifies r
    ensures r.items == Enriched(WithDefaults(Located(old(r.items), NoGeocoder)), hasKey, reply)
  {
    ApplyDefaults(r, NoGeocoder);
    EnrichWithPerplexity(r, hasKey, reply);
  }

  /** A record enriched by the backend scraper still carries the four defaulted fields, keeps its
    * rating and name, and gains no coordinates. */
  lemma BackendEnrichedShape(d: Dict, hasKey: bool, reply: Option<Dict>)
    ensures var r := Enriched(WithDefaults(Located(d, NoGeocoder)), hasKey, reply);
      && DefaultKeys <= r.Keys
      && r["rating"] == Get(WithDefaults(d), "rating")
      && ("name" in d ==> r["name"] == d["name"])
      && ("latitude" in r <==> "latitude" in d)
      && ("longitude" in r <==> "longitude" in d)
  {
    assert Located(d, NoGeocoder) == d;
    DefaultsAddNoCoordinates(d);
    var w := WithDefaults(d);
    var r := Enriched(w, hasKey, reply);
    assert "rating" in w;
    UntouchedKeys();
  }

  /** The keys the defaults and the record's identity live under are not merged from a reply. */
  lemma UntouchedKeys()
    ensures "rating" !in MergedKeys && "name" !in MergedKeys
    ensures "latitude" !in MergedKeys && "longitude" !in MergedKeys
  {
  }
}
