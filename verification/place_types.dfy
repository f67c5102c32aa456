/** Place types of a suggested route: detecting them from the route's name and description by
  * keyword tables, and spreading the selected types over the four time-of-day slots of the day. */
module PlaceTypes {
  import opened Wrappers
  import opened Text

  /** A keyword table: each place type with its keywords, in the order the types are tried. */
  type KeywordTable = seq<(string, seq<string>)>

  /** The place types and their keywords. */
  const KeywordsMap: KeywordTable := [
    ("attractions", ["достопримечательность", "памятник", "архитектур", "исторический", "культурный", "экскурсия", "обзор"]),
    ("restaurants", ["ресторан", "рестораны", "еда", "кухня", "гастроном", "обед", "ужин", "трапеза"]),
    ("bars", ["бар", "бары", "паб", "пабы", "пивной", "коктейль", "напиток", "алкоголь"]),
    ("cafes", ["кафе", "кофе", "кофейня", "завтрак", "перекус", "десерт"]),
    ("museums", ["музей", "музеи", "экспозиция", "выставка", "коллекция", "галерея"]),
    ("parks", ["парк", "парки", "сквер", "скверы", "природа", "набережная", "прогулка"]),
    ("entertainment", ["развлечение", "развлечения", "клуб", "клубы", "кинотеатр", "театр", "концерт"]),
    ("shopping", ["магазин", "магазины", "торговый", "шоппинг", "покупка", "сувенир"]),
    ("hotels", ["отель", "отели", "гостиница", "размещение", "ночлег"])]

  /** Some keyword of the list occurs in the text. */
  predicate Mentions(text: string, kws: seq<string>)
  {
    exists j :: 0 <= j < |kws| && IsSubstring(kws[j], text)
  }

  /** The positions of the table entries that the text mentions. */
  function MentionedAt(text: string, table: KeywordTable): (r: seq<nat>)
    ensures |r| <= |table|
  {
    if table == [] then []
    else
      var n := |table| - 1;
      MentionedAt(text, table[..n]) + (if Mentions(text, table[n].1) then [n] else [])
  }

  /** Exactly the mentioned entries are listed, each once, in table order. */
  lemma {:induction false} MentionedAtSpec(text: string, table: KeywordTable)
    ensures var r := MentionedAt(text, table);
      && (forall k :: 0 <= k < |r| ==> r[k] < |table|)
      && (forall i :: 0 <= i < |table| ==> (i in r <==> Mentions(text, table[i].1)))
      && (forall a, b :: 0 <= a < b < |r| ==> r[a] < r[b])
  {
    if table != [] {
      var n := |table| - 1;
      MentionedAtSpec(text, table[..n]);
      assert forall i :: 0 <= i < n ==> table[..n][i] == table[i];
    }
  }

  /** The type names at the given positions of the table. */
  function TypeNames(table: KeywordTable, positions: seq<nat>): (r: seq<string>)
    requires forall k :: 0 <= k < |positions| ==> positions[k] < |table|
    ensures |r| == |positions| && forall k :: 0 <= k < |r| ==> r[k] == table[positions[k]].0
  {
    seq(|positions|, k requires 0 <= k < |positions| => table[positions[k]].0)
  }

  /** Detection over a keyword table: attractions for an empty text; otherwise the types the
    * lower-cased text mentions, in table order, or attractions when it mentions none. */
  function DetectWith(text: string, table: KeywordTable): (r: seq<string>)
    ensures r != []
  {
    if text == [] then ["attractions"]
    else
      var at := MentionedAt(Lower(text), table);
      MentionedAtSpec(Lower(text), table);
      if at == [] then ["attractions"] else TypeNames(table, at)
  }

  /** `_detect_place_types_from_text`. */
  function DetectPlaceTypes(text: string): (r: seq<string>)
    ensures r != []
  {
    DetectWith(text, KeywordsMap)
  }

  /** The detected list is never empty; a text that mentions some type yields the names of the
    * mentioned entries (which `MentionedAtSpec` characterises), any other text attractions alone. */
  lemma DetectWithSpec(text: string, table: KeywordTable)
    ensures var r := DetectWith(text, table);
      var at := MentionedAt(Lower(text), table);
      && (text == [] ==> r == ["attractions"])
      && (text != [] && at == [] ==> r == ["attractions"] && forall i :: 0 <= i < |table| ==> !Mentions(Lower(text), table[i].1))
      && (text != [] && at != [] ==> |r| == |at| && forall k :: 0 <= k < |at| ==> at[k] < |table| && r[k] == table[at[k]].0)
  {
    MentionedAtSpec(Lower(text), table);
  }

  /** Some entry named `t` has a keyword the text contains. */
  predicate TypeMentioned(text: string, table: KeywordTable, t: string)
  {
    exists i :: 0 <= i < |table| && table[i].0 == t && Mentions(text, table[i].1)
  }

  /** A type name is listed for the positions exactly when one of them holds an entry of that name. */
  lemma NamedAmong(table: KeywordTable, at: seq<nat>, t: string)
    requires forall k :: 0 <= k < |at| ==> at[k] < |table|
    ensures t in TypeNames(table, at) <==> exists k :: 0 <= k < |at| && table[at[k]].0 == t
  {
    var r := TypeNames(table, at);
    if t in r {
      var k :| 0 <= k < |r| && r[k] == t;
    }
  }

  /** For a text that mentions some type, a type name is detected exactly when some entry of that
    * name has a keyword the lower-cased text contains. */
  lemma DetectedExactlyMentioned(text: string, table: KeywordTable, t: string)
    requires text != [] && MentionedAt(Lower(text), table) != []
    ensures t in DetectWith(text, table) <==> TypeMentioned(Lower(text), table, t)
  {
    var low := Lower(text);
    var at := MentionedAt(low, table);
    MentionedAtSpec(low, table);
    assert DetectWith(text, table) == TypeNames(table, at);
    NamedAmong(table, at, t);
    if TypeMentioned(low, table, t) {
      var i :| 0 <= i < |table| && table[i].0 == t && Mentions(low, table[i].1);
      assert i in at;
    }
  }

  /** A non-empty string (a missing or empty one is falsy). */
  predicate Present(s: Option<string>)
  {
    s.Some? && s.value != []
  }

  /** The text types are detected from: the name followed by a space when it is non-empty, then
    * the description when it is non-empty. */
  function CombinedText(routeName: Option<string>, routeDescription: Option<string>): string
  {
    (if Present(routeName) then routeName.value + " " else "") + (if Present(routeDescription) then routeDescription.value else "")
  }

  /** The types a suggestion request uses: the requested ones, unless none were requested or only
    * attractions were; then the types detected from the route name and description joined by a
    * space, or attractions alone when both are blank. */
  function ResolvePlaceTypes(placeTypes: Option<seq<string>>, routeName: Option<string>, routeDescription: Option<string>): (r: seq<string>)
  {
    if placeTypes.None? || placeTypes.value == ["attractions"] then
      var combined := CombinedText(routeName, routeDescription);
      if Strip(combined) != [] then DetectPlaceTypes(combined) else ["attractions"]
    else placeTypes.value
  }

  /** Requested types other than attractions alone are kept as they are. Otherwise the types are
    * detected from the combined name and description when that text is not blank, and are
    * attractions alone when it is (in particular with no name and no description); either way
    * the result is never empty. */
  lemma ResolvePlaceTypesSpec(placeTypes: Option<seq<string>>, routeName: Option<string>, routeDescription: Option<string>)
    ensures var r := ResolvePlaceTypes(placeTypes, routeName, routeDescription);
      var detect := placeTypes.None? || placeTypes.value == ["attractions"];
      var combined := CombinedText(routeName, routeDescription);
      && (!detect ==> r == placeTypes.value)
      && (detect ==> r != [])
      && (detect && Strip(combined) != [] ==> r == DetectPlaceTypes(combined))
      && (detect && Strip(combined) == [] ==> r == ["attractions"])
      && (!Present(routeName) && !Present(routeDescription) && detect ==> r == ["attractions"])
  {
    if !Present(routeName) && !Present(routeDescription) {
      var e: string := [];
      assert Strip(e) == [];
    }
  }

  datatype Slot = Morning | Lunch | Afternoon | Evening

  /** Each slot's candidate types with the label the instruction uses for them, in slot order. */
  function SlotTable(slot: Slot): seq<(string, string)>
  {
    match slot
    case Morning => [("attractions", "достопримечательности"), ("museums", "музеи"), ("parks", "парки")]
    case Lunch => [("restaurants", "рестораны"), ("cafes", "кафе")]
    case Afternoon => [("attractions", "достопримечательности"), ("museums", "музеи"), ("parks", "парки"), ("shopping", "магазины")]
    case Evening => [("bars", "бары"), ("restaurants", "рестораны"), ("entertainment", "развлечения")]
  }

  /** The labels of the table entries whose type is selected, in table order. */
  function SelectedLabels(table: seq<(string, string)>, selected: seq<string>): (r: seq<string>)
    ensures |r| <= |table|
  {
    if table == [] then []
    else SelectedLabels(table[..|table| - 1], selected) + (if table[|table| - 1].0 in selected then [table[|table| - 1].1] else [])
  }

  /** A label is listed exactly when one of the entries carrying it has a selected type, and the
    * listed labels follow the table. */
  lemma {:induction false} SelectedLabelsSpec(table: seq<(string, string)>, selected: seq<string>)
    ensures var r := SelectedLabels(table, selected);
      && (forall l :: l in r <==> exists i :: 0 <= i < |table| && table[i].1 == l && table[i].0 in selected)
      && (r == [] <==> forall i :: 0 <= i < |table| ==> table[i].0 !in selected)
  {
    if table != [] {
      var n := |table| - 1;
      var init := table[..n];
      SelectedLabelsSpec(init, selected);
      var r0 := SelectedLabels(init, selected);
      var r := SelectedLabels(table, selected);
      assert r == r0 + (if table[n].0 in selected then [table[n].1] else []);
      forall l
        ensures l in r <==> exists i :: 0 <= i < |table| && table[i].1 == l && table[i].0 in selected
      {
        if l in r0 {
          var i :| 0 <= i < |init| && init[i].1 == l && init[i].0 in selected;
          assert table[i] == init[i];
        }
        if exists i :: 0 <= i < |table| && table[i].1 == l && table[i].0 in selected {
          var i :| 0 <= i < |table| && table[i].1 == l && table[i].0 in selected;
          if i < n {
            assert init[i] == table[i];
          }
        }
      }
      if r == [] {
        forall i | 0 <= i < |table|
          ensures table[i].0 !in selected
        {
          if i < n {
            assert init[i] == table[i];
          }
        }
      }
    }
  }

  /** Whether the route gets time-of-day instructions: several types, or one other than
    * attractions. */
  predicate Themed(placeTypes: seq<string>)
  {
    |placeTypes| > 1 || (|placeTypes| == 1 && placeTypes[0] != "attractions")
  }

  /** A slot's line: the slot with the labels of its selected types, or nothing when it has none. */
  function SlotLine(slot: Slot, placeTypes: seq<string>): seq<(Slot, seq<string>)>
  {
    var labels := SelectedLabels(SlotTable(slot), placeTypes);
    if labels == [] then [] else [(slot, labels)]
  }

  /** Some type of the slot is selected. */
  predicate SlotSelected(slot: Slot, placeTypes: seq<string>)
  {
    exists i :: 0 <= i < |SlotTable(slot)| && SlotTable(slot)[i].0 in placeTypes
  }

  /** The lines of the given slots, in their order. */
  function Lines(slots: seq<Slot>, placeTypes: seq<string>): (r: seq<(Slot, seq<string>)>)
    ensures |r| <= |slots|
  {
    if slots == [] then []
    else Lines(slots[..|slots| - 1], placeTypes) + SlotLine(slots[|slots| - 1], placeTypes)
  }

  function SlotRank(slot: Slot): nat
  {
    match slot
    case Morning => 0
    case Lunch => 1
    case Afternoon => 2
    case Evening => 3
  }

  /** The lines name the slot. */
  predicate Listed(lines: seq<(Slot, seq<string>)>, slot: Slot)
  {
    exists k :: 0 <= k < |lines| && lines[k].0 == slot
  }

  /** A line for one of the given slots, with the non-empty labels of its selected types. */
  predicate LineOf(line: (Slot, seq<string>), slots: seq<Slot>, placeTypes: seq<string>)
  {
    line.0 in slots && line.1 != [] && line.1 == SelectedLabels(SlotTable(line.0), placeTypes)
  }

  /** Each line lists a given slot with the non-empty labels of its selected types. */
  lemma {:induction false} LinesShape(slots: seq<Slot>, placeTypes: seq<string>)
    ensures forall k :: 0 <= k < |Lines(slots, placeTypes)| ==> LineOf(Lines(slots, placeTypes)[k], slots, placeTypes)
  {
    if slots != [] {
      var init := slots[..|slots| - 1];
      var last := slots[|slots| - 1];
      LinesShape(init, placeTypes);
      var ri := Lines(init, placeTypes);
      var line := SlotLine(last, placeTypes);
      var r := Lines(slots, placeTypes);
      assert r == ri + line;
      forall k | 0 <= k < |r|
        ensures LineOf(r[k], slots, placeTypes)
      {
        if k < |ri| {
          assert r[k] == ri[k];
          var j :| 0 <= j < |init| && init[j] == ri[k].0;
          assert slots[j] == init[j];
        } else {
          assert r[k] == line[0];
          assert slots[|slots| - 1] == last;
        }
      }
    }
  }

  /** A slot is listed in two runs of lines exactly when it is listed in one of them. */
  lemma ListedAppend(a: seq<(Slot, seq<string>)>, b: seq<(Slot, seq<string>)>, slot: Slot)
    ensures Listed(a + b, slot) <==> Listed(a, slot) || Listed(b, slot)
  {
    var r := a + b;
    if Listed(r, slot) {
      var k :| 0 <= k < |r| && r[k].0 == slot;
      if k < |a| {
        assert a[k] == r[k];
      } else {
        assert b[k - |a|] == r[k];
      }
    }
    if Listed(a, slot) {
      var k :| 0 <= k < |a| && a[k].0 == slot;
      assert r[k] == a[k];
    }
    if Listed(b, slot) {
      var k :| 0 <= k < |b| && b[k].0 == slot;
      assert r[|a| + k] == b[k];
    }
  }

  /** The line of one slot lists that slot exactly when one of its types is selected, and no other. */
  lemma SlotLineListed(last: Slot, placeTypes: seq<string>, slot: Slot)
    ensures Listed(SlotLine(last, placeTypes), slot) <==> last == slot && SlotSelected(last, placeTypes)
  {
    SelectedLabelsSpec(SlotTable(last), placeTypes);
    var line := SlotLine(last, placeTypes);
    if line != [] && last == slot {
      assert line[0].0 == slot;
    }
  }

  /** A given slot has a line exactly when one of its types is selected. */
  lemma {:induction false} LinesListed(slots: seq<Slot>, placeTypes: seq<string>)
    ensures forall slot :: slot in slots ==> (Listed(Lines(slots, placeTypes), slot) <==> SlotSelected(slot, placeTypes))
  {
    if slots != [] {
      var init := slots[..|slots| - 1];
      var last := slots[|slots| - 1];
      LinesListed(init, placeTypes);
      assert slots == init + [last];
      var ri := Lines(init, placeTypes);
      var line := SlotLine(last, placeTypes);
      assert Lines(slots, placeTypes) == ri + line;
      forall slot | slot in slots
        ensures Listed(ri + line, slot) <==> SlotSelected(slot, placeTypes)
      {
        ListedAppend(ri, line, slot);
        SlotLineListed(last, placeTypes, slot);
        if slot != last {
          assert slot in init;
        } else if slot !in init {
          LinesShape(init, placeTypes);
          assert !Listed(ri, slot);
        }
      }
    }
  }

  /** The slots go strictly forward through the day. */
  predicate Increasing(slots: seq<Slot>)
  {
    forall a, b :: 0 <= a < b < |slots| ==> SlotRank(slots[a]) < SlotRank(slots[b])
  }

  /** The lines go strictly forward through the day. */
  predicate LinesIncreasing(lines: seq<(Slot, seq<string>)>)
  {
    forall a, b :: 0 <= a < b < |lines| ==> SlotRank(lines[a].0) < SlotRank(lines[b].0)
  }

  /** The lines keep the order of slots given in increasing rank. */
  lemma {:induction false} LinesOrdered(slots: seq<Slot>, placeTypes: seq<string>)
    requires Increasing(slots)
    ensures LinesIncreasing(Lines(slots, placeTypes))
  {
    if slots != [] {
      var init := slots[..|slots| - 1];
      var last := slots[|slots| - 1];
      LinesOrdered(init, placeTypes);
      LinesShape(init, placeTypes);
      var ri := Lines(init, placeTypes);
      var r := Lines(slots, placeTypes);
      assert r == ri + SlotLine(last, placeTypes);
      assert |r| <= |ri| + 1;
      forall a, b | 0 <= a < b < |r|
        ensures SlotRank(r[a].0) < SlotRank(r[b].0)
      {
        if b < |ri| {
          assert r[a] == ri[a] && r[b] == ri[b];
        } else {
          assert r[a] == ri[a] && r[b].0 == last;
          assert LineOf(ri[a], init, placeTypes);
          var j :| 0 <= j < |init| && init[j] == ri[a].0;
          assert slots[j] == init[j];
        }
      }
    }
  }

  /** The four slots of the day in order. */
  const Day: seq<Slot> := [Morning, Lunch, Afternoon, Evening]

  /** The time-of-day distribution: for a themed route, morning, lunch, afternoon and evening in
    * that order, each with the labels of its selected types, and each left out when it has none. */
  function TimeDistribution(placeTypes: seq<string>): (r: seq<(Slot, seq<string>)>)
    ensures |r| <= 4
  {
    if Themed(placeTypes) then Lines(Day, placeTypes) else []
  }

  /** Only a themed route gets a distribution; a slot appears in it exactly when one of its types
    * is selected, with the non-empty labels of its selected types; the slots keep the order of
    * the day. */
  lemma TimeDistributionSpec(placeTypes: seq<string>)
    ensures var r := TimeDistribution(placeTypes);
      && (!Themed(placeTypes) ==> r == [])
      && (forall k :: 0 <= k < |r| ==> r[k].1 != [] && r[k].1 == SelectedLabels(SlotTable(r[k].0), placeTypes))
      && (Themed(placeTypes) ==> forall slot: Slot :: Listed(r, slot) <==> SlotSelected(slot, placeTypes))
      && LinesIncreasing(r)
  {
    LinesShape(Day, placeTypes);
    LinesListed(Day, placeTypes);
    assert SlotRank(Day[0]) < SlotRank(Day[1]) < SlotRank(Day[2]) < SlotRank(Day[3]);
    LinesOrdered(Day, placeTypes);
    forall slot: Slot
      ensures slot in Day
    {
      match slot
      case Morning => assert Day[0] == slot;
      case Lunch => assert Day[1] == slot;
      case Afternoon => assert Day[2] == slot;
      case Evening => assert Day[3] == slot;
    }
  }

  /** Hotels alone make a themed route, but no slot lists hotels, so the distribution is empty. */
  lemma HotelsOnlyNoSlots()
    ensures Themed(["hotels"]) && TimeDistribution(["hotels"]) == []
  {
    TimeDistributionSpec(["hotels"]);
    var r := TimeDistribution(["hotels"]);
    if r != [] {
      SelectedLabelsSpec(SlotTable(r[0].0), ["hotels"]);
    }
  }
}
