/** The catalog records: categories and attractions (points of interest), with the field
  * constraints and defaults the store declares for them.
  * Decimal fields are scaled integers: coordinates in millionths of a degree, the rating in
  * hundredths, the price in kopecks (hundredths of a rouble). */
module Attractions {
  import opened Wrappers
  import opened Geo

  datatype Category = Category(id: nat, name: string, slug: string, description: Option<string>, icon: Option<string>)

  datatype Attraction = Attraction(
    id: nat,
    name: string,
    slug: string,
    description: string,
    shortDescription: Option<string>,
    coord: Coord,
    address: Option<string>,
    category: Option<nat>,
    rating: int,
    visitDuration: int,
    price: int,
    isFree: bool,
    website: Option<string>,
    isActive: bool)

  function Pow10(n: nat): (r: nat)
    ensures r >= 1
  {
    if n == 0 then 1 else 10 * Pow10(n - 1)
  }

  /** A scaled decimal value fits a field of `maxDigits` digits in total. */
  predicate FitsDigits(v: int, maxDigits: nat)
  {
    -(Pow10(maxDigits) as int) < v < Pow10(maxDigits)
  }

  predicate FitsLength(s: Option<string>, maxLength: nat)
  {
    s.None? || |s.value| <= maxLength
  }

  /** The field constraints of one attraction: text lengths, nine-digit coordinates with six
    * decimal places, a rating of three digits with two decimal places within [0, 5], a price of
    * ten digits with two decimal places. */
  predicate ValidAttraction(a: Attraction)
  {
    && |a.name| <= 200
    && |a.slug| <= 200
    && FitsLength(a.shortDescription, 500)
    && FitsLength(a.address, 300)
    && FitsDigits(a.coord.lat, 9) && FitsDigits(a.coord.lon, 9)
    && FitsDigits(a.rating, 3) && 0 <= a.rating <= 500
    && FitsDigits(a.price, 10)
  }

  predicate ValidCategory(c: Category)
  {
    |c.name| <= 100 && |c.slug| <= 100 && FitsLength(c.icon, 50)
  }

  /** No two rows of the table share an id or a slug. */
  predicate UniqueAttractions(catalog: seq<Attraction>)
  {
    forall i, j :: 0 <= i < j < |catalog| ==> catalog[i].id != catalog[j].id && catalog[i].slug != catalog[j].slug
  }

  /** The attraction table's invariant: every row valid, ids and slugs unique. */
  predicate ValidCatalog(catalog: seq<Attraction>)
  {
    (forall i :: 0 <= i < |catalog| ==> ValidAttraction(catalog[i])) && UniqueAttractions(catalog)
  }

  /** The category table's invariant: every row valid, ids, names and slugs unique. */
  predicate ValidCategories(cs: seq<Category>)
  {
    && (forall i :: 0 <= i < |cs| ==> ValidCategory(cs[i]))
    && forall i, j :: 0 <= i < j < |cs| ==> cs[i].id != cs[j].id && cs[i].name != cs[j].name && cs[i].slug != cs[j].slug
  }

  function Slugs(catalog: seq<Attraction>): (r: set<string>)
    ensures forall a :: a in catalog ==> a.slug in r
    ensures forall s :: s in r ==> exists a :: a in catalog && a.slug == s
  {
    set a | a in catalog :: a.slug
  }

  /** A new attraction with every field the caller leaves out at its declared default:
    * visit duration 60 minutes, price 0, not free, active, rating 0. */
  function NewAttraction(id: nat, name: string, slug: string, description: string, coord: Coord): (a: Attraction)
    ensures a.name == name && a.slug == slug && a.coord == coord && a.id == id
    ensures a.visitDuration == 60 && a.price == 0 && !a.isFree && a.isActive && a.rating == 0
    ensures |name| <= 200 && |slug| <= 200 && FitsDigits(coord.lat, 9) && FitsDigits(coord.lon, 9)
            <==> ValidAttraction(a)
  {
    Attraction(id, name, slug, description, None, coord, None, None, 0, 60, 0, false, None, true)
  }

  /** What a visit costs against a budget: a free attraction costs nothing whatever its price. */
  function Cost(a: Attraction): int
  {
    if a.isFree then 0 else a.price
  }

  function Position(a: Attraction): Coord
  {
    a.coord
  }

  /** Code-point order on strings (the name part of the default ordering). */
  predicate LexLe(a: string, b: string)
  {
    a == [] || (b != [] && (a[0] < b[0] || (a[0] == b[0] && LexLe(a[1..], b[1..]))))
  }

  lemma {:induction false} LexLeTotal(a: string, b: string)
    ensures LexLe(a, b) || LexLe(b, a)
  {
    if a != [] && b != [] && a[0] == b[0] {
      LexLeTotal(a[1..], b[1..]);
    }
  }

  lemma {:induction false} LexLeTransitive(a: string, b: string, c: string)
    requires LexLe(a, b) && LexLe(b, c)
    ensures LexLe(a, c)
  {
    if a != [] && b != [] && c != [] && a[0] == b[0] == c[0] {
      LexLeTransitive(a[1..], b[1..], c[1..]);
    }
  }

  /** The default ordering of attractions: rating descending, then name ascending. */
  predicate DefaultOrderLe(a: Attraction, b: Attraction)
  {
    a.rating > b.rating || (a.rating == b.rating && LexLe(a.name, b.name))
  }

  predicate InDefaultOrder(catalog: seq<Attraction>)
  {
    forall i, j :: 0 <= i < j < |catalog| ==> DefaultOrderLe(catalog[i], catalog[j])
  }

  /** The default ordering is a total preorder, so every table can be listed in it. */
  lemma DefaultOrderTotalPreorder(a: Attraction, b: Attraction, c: Attraction)
    ensures DefaultOrderLe(a, b) || DefaultOrderLe(b, a)
    ensures DefaultOrderLe(a, b) && DefaultOrderLe(b, c) ==> DefaultOrderLe(a, c)
  {
    LexLeTotal(a.name, b.name);
    if DefaultOrderLe(a, b) && DefaultOrderLe(b, c) && a.rating == b.rating == c.rating {
      LexLeTransitive(a.name, b.name, c.name);
    }
  }

  /** Inserting one attraction into a list in the default ordering, after every entry that is not
    * strictly greater, so that ties keep their earlier order. */
  function InsertByDefault(x: Attraction, s: seq<Attraction>): (r: seq<Attraction>)
    requires InDefaultOrder(s)
    ensures InDefaultOrder(r)
    ensures multiset(r) == multiset(s) + multiset{x}
    ensures r != [] && (r[0] == x || (s != [] && r[0] == s[0]))
  {
    if s == [] then [x]
    else if DefaultOrderLe(s[0], x) then
      var rest := InsertByDefault(x, s[1..]);
      InsertAfterHead(x, s, rest);
      [s[0]] + rest
    else
      InsertBeforeHead(x, s);
      [x] + s
  }

  /** When `x` goes after the head, the head stays below everything inserted after it. */
  lemma InsertAfterHead(x: Attraction, s: seq<Attraction>, rest: seq<Attraction>)
    requires s != [] && InDefaultOrder(s) && DefaultOrderLe(s[0], x)
    requires InDefaultOrder(rest) && multiset(rest) == multiset(s[1..]) + multiset{x}
    ensures InDefaultOrder([s[0]] + rest)
    ensures multiset([s[0]] + rest) == multiset(s) + multiset{x}
  {
    forall k | 0 <= k < |rest|
      ensures DefaultOrderLe(s[0], rest[k])
    {
      assert rest[k] in multiset(rest);
      if rest[k] != x {
        assert rest[k] in multiset(s[1..]);
        var j :| 0 <= j < |s[1..]| && s[1..][j] == rest[k];
        assert s[j + 1] == rest[k];
      }
    }
    var r := [s[0]] + rest;
    forall i, j | 0 <= i < j < |r|
      ensures DefaultOrderLe(r[i], r[j])
    {
      assert r[j] == rest[j - 1];
      if i > 0 {
        assert r[i] == rest[i - 1];
      }
    }
    assert s == [s[0]] + s[1..];
  }

  /** When `x` goes before the head, it is below every entry. */
  lemma InsertBeforeHead(x: Attraction, s: seq<Attraction>)
    requires s != [] && InDefaultOrder(s) && !DefaultOrderLe(s[0], x)
    ensures InDefaultOrder([x] + s)
  {
    forall k | 0 <= k < |s|
      ensures DefaultOrderLe(x, s[k])
    {
      DefaultOrderTotalPreorder(x, s[0], s[k]);
    }
    var r := [x] + s;
    forall i, j | 0 <= i < j < |r|
      ensures DefaultOrderLe(r[i], r[j])
    {
      assert r[j] == s[j - 1];
      if i > 0 {
        assert r[i] == s[i - 1];
      }
    }
  }

  /** `filter(is_active=True)` listed in the default ordering; rows that tie on rating and name
    * keep their order in the table. */
  function ActiveInDefaultOrder(catalog: seq<Attraction>): (r: seq<Attraction>)
    ensures InDefaultOrder(r)
    ensures forall a :: a in r <==> a in catalog && a.isActive
    ensures forall a :: multiset(r)[a] == if a.isActive then multiset(catalog)[a] else 0
  {
    if catalog == [] then []
    else
      var init := catalog[..|catalog| - 1];
      var last := catalog[|catalog| - 1];
      assert catalog == init + [last];
      var r := ActiveInDefaultOrder(init);
      if last.isActive then
        var r' := InsertByDefault(last, r);
        assert forall a :: a in r' <==> a in multiset(r');
        r'
      else r
  }
}
