/** The `scrape_attractions` management command: every scraped record is enriched, given a slug,
  * and stored through a get-or-create on that slug; with updating enabled, a row the lookup finds
  * is overwritten from the record. The whole import runs in one transaction, so a record that
  * raises leaves the store as it was. Rows are kept as the command writes them: the slug and the
  * other fields by name, with the record's dynamically typed values. */
module ScrapeCommand {
  import opened Wrappers
  import opened Records
  import opened Enrichment
  import opened Text
  import opened UniqueSlugs

  /** A stored attraction row: its slug and its other fields. */
  datatype Row = Row(slug: string, fields: Dict)

  /** What a successful import leaves behind: the rows and the two counters it reports. */
  datatype Outcome = Outcome(store: seq<Row>, created: nat, updated: nat)

  /** A record without a string name, and a truthy description that cannot be sliced. */
  datatype ScrapeError = BadName | UnsliceableDescription

  /** The command's options: the slug function, the id of the default category, and whether
    * existing rows are updated. */
  datatype Settings = Settings(slugify: string -> string, category: nat, updateExisting: bool)

  /** How the slug of a record is chosen: made unique against the stored slugs before the lookup,
    * as the command does, or the record's own base slug. */
  datatype SlugRule = AsWritten | ByBase

  function StoredSlugs(store: seq<Row>): (r: set<string>)
    ensures forall i :: 0 <= i < |store| ==> store[i].slug in r
    ensures forall s :: s in r ==> exists i :: 0 <= i < |store| && store[i].slug == s
  {
    set i | 0 <= i < |store| :: store[i].slug
  }

  /** The unique constraint on the slug column. */
  predicate DistinctSlugs(store: seq<Row>)
  {
    forall i, j :: 0 <= i < j < |store| ==> store[i].slug != store[j].slug
  }

  /** `d.get(key, default)`. */
  function GetOrDefault(d: Dict, key: string, default: Value): (r: Value)
    ensures key in d ==> r == d[key]
    ensures key !in d ==> r == default
  {
    if key in d then d[key] else default
  }

  /** The record's name, when it is a string. */
  function NameOf(e: Dict): Option<string>
  {
    if "name" in e && e["name"].Str? then Some(e["name"].s) else None
  }

  /** `description[:500] if description else ''`: a truthy string or list is cut to 500 items;
    * any other truthy value cannot be sliced. */
  function ShortDescription(e: Dict): (r: Result<Value, ScrapeError>)
    ensures !Truthy(Get(e, "description")) ==> r == Success(Str(""))
    ensures Truthy(Get(e, "description")) && Get(e, "description").Str? ==>
              var s := Get(e, "description").s;
              r.Success? && r.value.Str? && |r.value.s| == (if |s| <= 500 then |s| else 500) && r.value.s == s[..|r.value.s|]
    ensures Truthy(Get(e, "description")) && Get(e, "description").List? ==>
              var items := Get(e, "description").items;
              r.Success? && r.value.List? && |r.value.items| == (if |items| <= 500 then |items| else 500)
              && r.value.items == items[..|r.value.items|]
    ensures r.Failure? <==> Truthy(Get(e, "description")) && !Get(e, "description").Str? && !Get(e, "description").List?
  {
    var d := Get(e, "description");
    if !Truthy(d) then Success(Str(""))
    else match d
      case Str(s) => Success(Str(if |s| <= 500 then s else s[..500]))
      case List(items) => Success(List(if |items| <= 500 then items else items[..500]))
      case _ => Failure(UnsliceableDescription)
  }

  /** The fields of a new row, as the command lists them for get-or-create. */
  function Defaults(e: Dict, name: string, short: Value, category: nat): Dict
  {
    map["name" := Str(name),
        "description" := GetOrDefault(e, "description", Str("")),
        "short_description" := short,
        "latitude" := GetOrDefault(e, "latitude", Num(55.8304)),
        "longitude" := GetOrDefault(e, "longitude", Num(49.0661)),
        "address" := GetOrDefault(e, "address", Str("")),
        "category" := Int(category),
        "rating" := GetOrDefault(e, "rating", Num(0.0)),
        "visit_duration" := GetOrDefault(e, "visit_duration", Int(60)),
        "price" := GetOrDefault(e, "price", Num(0.0)),
        "is_free" := GetOrDefault(e, "is_free", Bool(true)),
        "website" := GetOrDefault(e, "url", Str(""))]
  }

  /** A new row holds exactly the twelve fields the command lists. */
  lemma DefaultsKeys(e: Dict, name: string, short: Value, category: nat)
    ensures Defaults(e, name, short, category).Keys ==
      {"name", "description", "short_description", "latitude", "longitude", "address",
       "category", "rating", "visit_duration", "price", "is_free", "website"}
  {
  }

  /** A new row holds the record's name, the given short description and the default category. */
  lemma DefaultsIdentity(e: Dict, name: string, short: Value, category: nat)
    ensures var r := Defaults(e, name, short, category);
      r["name"] == Str(name) && r["short_description"] == short && r["category"] == Int(category)
  {
  }

  /** A new row holds the record's description and address whenever the record has them, even
    * when the value is falsy. */
  lemma DefaultsTextFromRecord(e: Dict, name: string, short: Value, category: nat)
    ensures var r := Defaults(e, name, short, category);
      && ("description" in e ==> r["description"] == e["description"])
      && ("address" in e ==> r["address"] == e["address"])
  {
  }

  /** A new row holds the record's coordinates whenever the record has them. */
  lemma DefaultsCoordinatesFromRecord(e: Dict, name: string, short: Value, category: nat)
    ensures var r := Defaults(e, name, short, category);
      && ("latitude" in e ==> r["latitude"] == e["latitude"])
      && ("longitude" in e ==> r["longitude"] == e["longitude"])
  {
  }

  /** A new row holds the record's rating, visit duration, price, free flag and url (as the
    * website) whenever the record has them, even when the value is falsy. */
  lemma DefaultsVisitFromRecord(e: Dict, name: string, short: Value, category: nat)
    ensures var r := Defaults(e, name, short, category);
      && ("rating" in e ==> r["rating"] == e["rating"])
      && ("visit_duration" in e ==> r["visit_duration"] == e["visit_duration"])
      && ("price" in e ==> r["price"] == e["price"])
      && ("is_free" in e ==> r["is_free"] == e["is_free"])
      && ("url" in e ==> r["website"] == e["url"])
  {
  }

  /** A new row lacking the record's description or address gets an empty one. */
  lemma DefaultsTextFallback(e: Dict, name: string, short: Value, category: nat)
    ensures var r := Defaults(e, name, short, category);
      && ("description" !in e ==> r["description"] == Str(""))
      && ("address" !in e ==> r["address"] == Str(""))
  {
  }

  /** A new row lacking the record's coordinates gets the centre of Kazan (55.8304, 49.0661). */
  lemma DefaultsCoordinatesFallback(e: Dict, name: string, short: Value, category: nat)
    ensures var r := Defaults(e, name, short, category);
      && ("latitude" !in e ==> r["latitude"] == Num(55.8304))
      && ("longitude" !in e ==> r["longitude"] == Num(49.0661))
  {
  }

  /** A visit field the record lacks gets its default: rating 0, a visit of 60 minutes, price 0,
    * free, and an empty website. */
  lemma DefaultsVisitFallback(e: Dict, name: string, short: Value, category: nat)
    ensures var r := Defaults(e, name, short, category);
      && ("rating" !in e ==> r["rating"] == Num(0.0))
      && ("visit_duration" !in e ==> r["visit_duration"] == Int(60))
      && ("price" !in e ==> r["price"] == Num(0.0))
      && ("is_free" !in e ==> r["is_free"] == Bool(true))
      && ("url" !in e ==> r["website"] == Str(""))
  {
  }

  /** The attributes an update may set: the attraction's fields, except the ones that identify
    * the row. */
  const Overwritable: set<string> :=
    {"name", "description", "short_description", "latitude", "longitude", "address", "category",
     "category_id", "rating", "visit_duration", "price", "is_free", "image", "website", "created_at",
     "updated_at", "is_active"}

  /** The record overwrites the attribute `k`: the attraction has it and the value is truthy. */
  predicate Overwrites(e: Dict, k: string)
  {
    k in e && k in Overwritable && Truthy(e[k])
  }

  /** The row's fields after the record's keys in `ks` have been applied. */
  function UpdatedOn(fields: Dict, e: Dict, ks: set<string>): (r: Dict)
  {
    map k | k in fields.Keys + (set k | k in ks && Overwrites(e, k)) :: if k in ks && Overwrites(e, k) then e[k] else fields[k]
  }

  /** The row's fields after the whole record has been applied. */
  function Updated(fields: Dict, e: Dict): Dict
  {
    UpdatedOn(fields, e, e.Keys)
  }

  /** An update overwrites exactly the attributes the record gives a truthy value and leaves every
    * other field as it was, so applying the same record twice changes nothing more. */
  lemma UpdatedSpec(fields: Dict, e: Dict)
    ensures var r := Updated(fields, e);
      && (forall k :: Overwrites(e, k) ==> k in r && r[k] == e[k])
      && (forall k :: k in fields && !Overwrites(e, k) ==> k in r && r[k] == fields[k])
      && (forall k :: k in r ==> k in fields || Overwrites(e, k))
      && Updated(r, e) == r
  {
    var r := Updated(fields, e);
    var rr := Updated(r, e);
    assert rr.Keys == r.Keys;
    forall k | k in rr
      ensures rr[k] == r[k]
    {
    }
  }

  /** Applying no key changes nothing. */
  lemma UpdatedOnNothing(fields: Dict, e: Dict)
    ensures UpdatedOn(fields, e, {}) == fields
  {
    var r := UpdatedOn(fields, e, {});
    assert r.Keys == fields.Keys;
  }

  /** Applying one more key of the record: its value is set when the record overwrites it. */
  lemma UpdatedOnStep(fields: Dict, e: Dict, done: set<string>, k: string)
    requires k in e && k !in done
    ensures UpdatedOn(fields, e, done + {k}) ==
              if Overwrites(e, k) then UpdatedOn(fields, e, done)[k := e[k]] else UpdatedOn(fields, e, done)
  {
    var after := UpdatedOn(fields, e, done + {k});
    var before := UpdatedOn(fields, e, done);
    var expected := if Overwrites(e, k) then before[k := e[k]] else before;
    assert after.Keys == expected.Keys;
    forall j | j in after
      ensures after[j] == expected[j]
    {
    }
  }

  /** `for key, value in record.items(): if hasattr(attraction, key) and value: setattr(...)`. */
  method ApplyUpdate(fields: Dict, e: Dict) returns (r: Dict)
    ensures r == Updated(fields, e)
  {
    r := fields;
    var todo := e.Keys;
    ghost var done: set<string> := {};
    UpdatedOnNothing(fields, e);
    while todo != {}
      invariant done + todo == e.Keys && done !! todo
      invariant r == UpdatedOn(fields, e, done)
      decreases |todo|
    {
      var k :| k in todo;
      UpdatedOnStep(fields, e, done, k);
      if Overwrites(e, k) {
        r := r[k := e[k]];
      }
      todo := todo - {k};
      done := done + {k};
    }
  }

  /** The first row with the slug. */
  function FindSlug(store: seq<Row>, slug: string): (r: Option<nat>)
    ensures r.None? <==> slug !in StoredSlugs(store)
    ensures r.Some? ==> r.value < |store| && store[r.value].slug == slug
  {
    if store == [] then None
    else
      var prior := FindSlug(store[..|store| - 1], slug);
      if prior.Some? then prior
      else if store[|store| - 1].slug == slug then Some(|store| - 1)
      else None
  }

  /** The slug under which the record is looked up and, if absent, created. */
  function SlugFor(store: seq<Row>, base: string, rule: SlugRule): (r: string)
    ensures rule == AsWritten ==> r !in StoredSlugs(store)
    ensures rule == ByBase ==> r == base
  {
    if rule == AsWritten then UniqueSlug(base, StoredSlugs(store)) else base
  }

  /** One record: its name and slug, the new row's fields, then get-or-create on the slug; a new
    * row is appended and counted, an existing one is updated and counted when updating is on. */
  function ImportRecord(o: Outcome, e: Dict, st: Settings, rule: SlugRule): (r: Result<Outcome, ScrapeError>)
  {
    var name := NameOf(e);
    if name.None? then Failure(BadName)
    else
      var slug := SlugFor(o.store, st.slugify(name.value), rule);
      var short := ShortDescription(e);
      if short.Failure? then Failure(short.error)
      else
        var found := FindSlug(o.store, slug);
        if found.None? then
          Success(Outcome(o.store + [Row(slug, Defaults(e, name.value, short.value, st.category))], o.created + 1, o.updated))
        else if st.updateExisting then
          var row := o.store[found.value];
          Success(Outcome(o.store[found.value := Row(row.slug, Updated(row.fields, e))], o.created, o.updated + 1))
        else Success(o)
  }

  /** The records the command can store whatever the store holds: a string name and a
    * description that is falsy, a string or a list. */
  predicate Importable(e: Dict)
  {
    NameOf(e).Some? && ShortDescription(e).Success?
  }

  /** A record fails exactly when it is not importable; the rows only grow, by at most one, and
    * the counters follow: one more created row exactly when the store grew, updates only with
    * the update flag, and an as-written slug always creates. */
  lemma ImportRecordCounts(o: Outcome, e: Dict, st: Settings, rule: SlugRule)
    ensures var r := ImportRecord(o, e, st, rule);
      && (r.Success? <==> Importable(e))
      && (r.Success? ==>
            && |o.store| <= |r.value.store| <= |o.store| + 1
            && r.value.created + r.value.updated <= o.created + o.updated + 1
            && r.value.created >= o.created && r.value.updated >= o.updated
            && (|r.value.store| == |o.store| + 1 <==> r.value.created == o.created + 1)
            && (!st.updateExisting ==> r.value.updated == o.updated)
            && (rule == AsWritten ==> r.value.created == o.created + 1 && r.value.updated == o.updated))
  {
  }

  /** A stored row keeps its slug and its place, a slug derived from the base ends up stored, and
    * the unique slug constraint is kept. */
  lemma ImportRecordSlugs(o: Outcome, e: Dict, st: Settings, rule: SlugRule)
    ensures var r := ImportRecord(o, e, st, rule);
      r.Success? ==>
        && (forall i :: 0 <= i < |o.store| ==> r.value.store[i].slug == o.store[i].slug)
        && (rule == ByBase ==> st.slugify(NameOf(e).value) in StoredSlugs(r.value.store))
        && (DistinctSlugs(o.store) ==> DistinctSlugs(r.value.store))
  {
    var r := ImportRecord(o, e, st, rule);
    if r.Success? && rule == ByBase {
      var slug := st.slugify(NameOf(e).value);
      var found := FindSlug(o.store, slug);
      if found.None? {
        assert r.value.store[|o.store|].slug == slug;
      } else {
        assert r.value.store[found.value].slug == slug;
      }
    }
  }

  /** A record fails exactly when it is not importable; a stored row keeps its slug and its place,
    * the rows only grow, by at most one, and the unique slug constraint is kept. */
  lemma ImportRecordSpec(o: Outcome, e: Dict, st: Settings, rule: SlugRule)
    ensures var r := ImportRecord(o, e, st, rule);
      && (r.Success? <==> Importable(e))
      && (r.Success? ==>
            && |o.store| <= |r.value.store| <= |o.store| + 1
            && (forall i :: 0 <= i < |o.store| ==> r.value.store[i].slug == o.store[i].slug)
            && r.value.created + r.value.updated <= o.created + o.updated + 1
            && r.value.created >= o.created && r.value.updated >= o.updated
            && (|r.value.store| == |o.store| + 1 <==> r.value.created == o.created + 1)
            && (!st.updateExisting ==> r.value.updated == o.updated)
            && (rule == ByBase ==> st.slugify(NameOf(e).value) in StoredSlugs(r.value.store))
            && (rule == AsWritten ==> r.value.created == o.created + 1 && r.value.updated == o.updated)
            && (DistinctSlugs(o.store) ==> DistinctSlugs(r.value.store)))
  {
    ImportRecordCounts(o, e, st, rule);
    ImportRecordSlugs(o, e, st, rule);
  }

  /** Importing the records in order, stopping at the first record that raises. */
  function Imported(store: seq<Row>, es: seq<Dict>, st: Settings, rule: SlugRule): Result<Outcome, ScrapeError>
  {
    if es == [] then Success(Outcome(store, 0, 0))
    else
      var prior := Imported(store, es[..|es| - 1], st, rule);
      if prior.Failure? then prior else ImportRecord(prior.value, es[|es| - 1], st, rule)
  }

  /** The rows of `before` are still there, in place and under the same slug. */
  predicate Grows(before: seq<Row>, after: seq<Row>)
  {
    |before| <= |after| && forall i :: 0 <= i < |before| ==> after[i].slug == before[i].slug
  }

  lemma GrowsSlugs(before: seq<Row>, after: seq<Row>)
    requires Grows(before, after)
    ensures StoredSlugs(before) <= StoredSlugs(after)
  {
    forall s | s in StoredSlugs(before)
      ensures s in StoredSlugs(after)
    {
      var i :| 0 <= i < |before| && before[i].slug == s;
      assert after[i].slug == s;
    }
  }

  /** Every record is importable. */
  predicate AllImportable(es: seq<Dict>)
  {
    forall k :: 0 <= k < |es| ==> Importable(es[k])
  }

  lemma AllImportableSnoc(es: seq<Dict>)
    requires es != []
    ensures AllImportable(es) <==> AllImportable(es[..|es| - 1]) && Importable(es[|es| - 1])
  {
    var init := es[..|es| - 1];
    if AllImportable(init) && Importable(es[|es| - 1]) {
      forall k | 0 <= k < |es|
        ensures Importable(es[k])
      {
        if k < |init| {
          assert es[k] == init[k];
        }
      }
    }
  }

  /** Once a record raises, the import as a whole raises the same error. */
  lemma {:induction false} ImportedFailurePersists(store: seq<Row>, es: seq<Dict>, k: nat, st: Settings, rule: SlugRule)
    requires k <= |es| && Imported(store, es[..k], st, rule).Failure?
    ensures Imported(store, es, st, rule) == Imported(store, es[..k], st, rule)
    decreases |es|
  {
    if k < |es| {
      var init := es[..|es| - 1];
      assert init[..k] == es[..k];
      ImportedFailurePersists(store, init, k, st, rule);
    } else {
      assert es[..k] == es;
    }
  }

  /** The import succeeds exactly when every record is importable. It then leaves the stored rows
    * in place, adds one row per created record, reports at most one count per record, and keeps
    * slugs unique; without updating it reports no updates. */
  lemma {:induction false} ImportedSpec(store: seq<Row>, es: seq<Dict>, st: Settings, rule: SlugRule)
    ensures var r := Imported(store, es, st, rule);
      && (r.Success? <==> AllImportable(es))
      && (r.Success? ==>
            && Grows(store, r.value.store)
            && |r.value.store| == |store| + r.value.created
            && r.value.created + r.value.updated <= |es|
            && (!st.updateExisting ==> r.value.updated == 0)
            && (DistinctSlugs(store) ==> DistinctSlugs(r.value.store)))
  {
    if es != [] {
      var init := es[..|es| - 1];
      ImportedSpec(store, init, st, rule);
      var prior := Imported(store, init, st, rule);
      if prior.Success? {
        ImportRecordSpec(prior.value, es[|es| - 1], st, rule);
      }
      AllImportableSnoc(es);
    }
  }

  /** As written, every record creates a row and none updates one. */
  lemma {:induction false} AsWrittenAlwaysCreates(store: seq<Row>, es: seq<Dict>, st: Settings)
    requires Imported(store, es, st, AsWritten).Success?
    ensures Imported(store, es, st, AsWritten).value.created == |es|
    ensures Imported(store, es, st, AsWritten).value.updated == 0
  {
    if es != [] {
      AsWrittenAlwaysCreates(store, es[..|es| - 1], st);
      ImportRecordSpec(Imported(store, es[..|es| - 1], st, AsWritten).value, es[|es| - 1], st, AsWritten);
    }
  }

  /** The record has a string name whose base slug is stored. */
  predicate BaseStored(e: Dict, slugify: string -> string, store: seq<Row>)
  {
    NameOf(e).Some? && slugify(NameOf(e).value) in StoredSlugs(store)
  }

  predicate AllBasesStored(es: seq<Dict>, slugify: string -> string, store: seq<Row>)
  {
    forall k :: 0 <= k < |es| ==> BaseStored(es[k], slugify, store)
  }

  /** More rows keep every stored base slug stored. */
  lemma AllBasesStoredGrows(es: seq<Dict>, slugify: string -> string, before: seq<Row>, after: seq<Row>)
    requires AllBasesStored(es, slugify, before) && StoredSlugs(before) <= StoredSlugs(after)
    ensures AllBasesStored(es, slugify, after)
  {
    forall k | 0 <= k < |es|
      ensures BaseStored(es[k], slugify, after)
    {
      assert BaseStored(es[k], slugify, before);
    }
  }

  lemma AllBasesStoredSnoc(es: seq<Dict>, slugify: string -> string, store: seq<Row>)
    requires es != []
    ensures AllBasesStored(es, slugify, store) <==>
              AllBasesStored(es[..|es| - 1], slugify, store) && BaseStored(es[|es| - 1], slugify, store)
  {
    var init := es[..|es| - 1];
    if AllBasesStored(init, slugify, store) && BaseStored(es[|es| - 1], slugify, store) {
      forall k | 0 <= k < |es|
        ensures BaseStored(es[k], slugify, store)
      {
        if k < |init| {
          assert es[k] == init[k];
        }
      }
    }
  }

  /** Importing a prefix one record further is importing that record after the prefix. */
  lemma ImportedPrefixStep(store: seq<Row>, es: seq<Dict>, i: nat, st: Settings, rule: SlugRule)
    requires i < |es| && Imported(store, es[..i], st, rule).Success?
    ensures Imported(store, es[..i + 1], st, rule) == ImportRecord(Imported(store, es[..i], st, rule).value, es[i], st, rule)
  {
    assert es[..i + 1][..i] == es[..i];
  }

  /** By base slug, every imported record's slug ends up stored. */
  lemma {:induction false} ByBaseStoresSlugs(store: seq<Row>, es: seq<Dict>, st: Settings)
    requires Imported(store, es, st, ByBase).Success?
    ensures AllBasesStored(es, st.slugify, Imported(store, es, st, ByBase).value.store)
  {
    if es != [] {
      var init := es[..|es| - 1];
      ByBaseStoresSlugs(store, init, st);
      var prior := Imported(store, init, st, ByBase).value;
      var after := Imported(store, es, st, ByBase).value;
      ImportRecordSpec(prior, es[|es| - 1], st, ByBase);
      GrowsSlugs(prior.store, after.store);
      AllBasesStoredGrows(init, st.slugify, prior.store, after.store);
      AllBasesStoredSnoc(es, st.slugify, after.store);
    }
  }

  /** By base slug, records whose slugs are all stored create nothing: each updates its row when
    * updating is on, and otherwise the store is left as it was. */
  lemma {:induction false} RerunCreatesNothing(store: seq<Row>, es: seq<Dict>, st: Settings)
    requires AllImportable(es) && AllBasesStored(es, st.slugify, store)
    ensures var r := Imported(store, es, st, ByBase);
      && r.Success? && r.value.created == 0 && |r.value.store| == |store|
      && StoredSlugs(r.value.store) == StoredSlugs(store)
      && r.value.updated == (if st.updateExisting then |es| else 0)
      && (!st.updateExisting ==> r.value.store == store)
  {
    if es != [] {
      var init := es[..|es| - 1];
      var last := es[|es| - 1];
      AllImportableSnoc(es);
      AllBasesStoredSnoc(es, st.slugify, store);
      RerunCreatesNothing(store, init, st);
      var prior := Imported(store, init, st, ByBase).value;
      var slug := st.slugify(NameOf(last).value);
      assert slug in StoredSlugs(prior.store);
      ImportRecordSpec(prior, last, st, ByBase);
      var r := ImportRecord(prior, last, st, ByBase);
      assert FindSlug(prior.store, slug).Some?;
      assert Grows(prior.store, r.value.store);
      GrowsSlugs(prior.store, r.value.store);
      GrowsSlugs(r.value.store, prior.store);
    }
  }

  /** Importing the same records a second time by base slug adds no row. */
  lemma ReimportCreatesNothing(store: seq<Row>, es: seq<Dict>, st: Settings)
    requires Imported(store, es, st, ByBase).Success?
    ensures var again := Imported(Imported(store, es, st, ByBase).value.store, es, st, ByBase);
      again.Success? && again.value.created == 0 && |again.value.store| == |Imported(store, es, st, ByBase).value.store|
  {
    ImportedSpec(store, es, st, ByBase);
    ByBaseStoresSlugs(store, es, st);
    RerunCreatesNothing(Imported(store, es, st, ByBase).value.store, es, st);
  }

  /** As written, a record whose base slug is already stored is given the next numbered slug
    * and stored again as a new row, even with updating on. By base slug the stored row is found
    * and, with updating on, updated. */
  lemma StoredNameDuplicated(fields: Dict, e: Dict, st: Settings)
    requires Importable(e) && st.slugify(NameOf(e).value) == "kazan-kremlin"
    ensures var store := [Row("kazan-kremlin", fields)];
      var asWritten := Imported(store, [e], st, AsWritten);
      && asWritten.Success? && asWritten.value.created == 1 && asWritten.value.updated == 0
      && |asWritten.value.store| == 2
      && asWritten.value.store[1].slug == "kazan-kremlin-1"
      && Imported(store, [e], st, ByBase) ==
           Success(if st.updateExisting then Outcome([Row("kazan-kremlin", Updated(fields, e))], 0, 1) else Outcome(store, 0, 0))
  {
    var store := [Row("kazan-kremlin", fields)];
    var taken := StoredSlugs(store);
    assert store[0].slug == "kazan-kremlin";
    assert "kazan-kremlin" in taken;
    forall x | x in taken
      ensures x == "kazan-kremlin"
    {
      var i :| 0 <= i < |store| && store[i].slug == x;
    }
    assert NatToString(1) == "1";
    assert Numbered("kazan-kremlin", 1) == "kazan-kremlin-1";
    assert Numbered("kazan-kremlin", 1) !in taken;
    FirstFreeIsUnique("kazan-kremlin", taken, 1);
    assert [e][..0] == [];
    assert FindSlug(store, "kazan-kremlin") == Some(0);
    var start := Outcome(store, 0, 0);
    assert Imported(store, [e], st, ByBase) == ImportRecord(start, e, st, ByBase);
    assert store[0 := Row("kazan-kremlin", Updated(fields, e))] == [Row("kazan-kremlin", Updated(fields, e))];
  }

  /** The scraped records as the scraper's enrichment leaves them. */
  function Prepared(scraped: seq<(Dict, Option<Dict>)>, hasKey: bool): seq<Dict>
  {
    seq(|scraped|, i requires 0 <= i < |scraped| => Enriched(WithDefaults(Located(scraped[i].0, NoGeocoder)), hasKey, scraped[i].1))
  }

  /** One record of `handle`: its name, its slug (made unique against the stored slugs as
    * written, or the base slug), the new row's fields, then get-or-create on that slug. */
  method StoreRecord(o: Outcome, e: Dict, st: Settings, rule: SlugRule) returns (r: Result<Outcome, ScrapeError>)
    ensures r == ImportRecord(o, e, st, rule)
  {
    if "name" !in e || !e["name"].Str? {
      return Failure(BadName);
    }
    var name := e["name"].s;
    var slug := st.slugify(name);
    if rule == AsWritten {
      slug := CreateSlug(slug, StoredSlugs(o.store));
    }
    var short := ShortDescription(e);
    if short.Failure? {
      return Failure(short.error);
    }
    var found := FindSlug(o.store, slug);
    if found.None? {
      return Success(Outcome(o.store + [Row(slug, Defaults(e, name, short.value, st.category))], o.created + 1, o.updated));
    }
    if st.updateExisting {
      var row := o.store[found.value];
      var fields := ApplyUpdate(row.fields, e);
      return Success(Outcome(o.store[found.value := Row(row.slug, fields)], o.created, o.updated + 1));
    }
    return Success(o);
  }

  /** `handle`: each scraped record is enriched in place and stored; the first record that
    * raises aborts the transaction, so the caller's store is left as it was. */
  method Handle(store: seq<Row>, scraped: seq<(Dict, Option<Dict>)>, hasKey: bool, st: Settings, rule: SlugRule)
    returns (r: Result<Outcome, ScrapeError>)
    ensures r == Imported(store, Prepared(scraped, hasKey), st, rule)
  {
    ghost var es := Prepared(scraped, hasKey);
    var o := Outcome(store, 0, 0);
    var i := 0;
    while i < |scraped|
      invariant 0 <= i <= |scraped|
      invariant Imported(store, es[..i], st, rule) == Success(o)
    {
      var record := new Record(scraped[i].0);
      EnrichBackend(record, hasKey, scraped[i].1);
      assert record.items == es[i];
      ImportedPrefixStep(store, es, i, st, rule);
      var step := StoreRecord(o, record.items, st, rule);
      assert Imported(store, es[..i + 1], st, rule) == step;
      if step.Failure? {
        ImportedFailurePersists(store, es, i + 1, st, rule);
        return step;
      }
      o := step.value;
      i := i + 1;
    }
    assert es[..|scraped|] == es;
    r := Success(o);
  }
}
