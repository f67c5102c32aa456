/** The lookup tables the place-name matchers build from the active attractions: the name map
  * (lower-cased name to attraction, an insertion-ordered dictionary where a later attraction with
  * the same lower-cased name replaces the earlier one in its original position) and the keyword
  * index (each word longer than three characters of a lower-cased name, to the attractions whose
  * names contain it, in catalog order). */
module NameIndex {
  import opened Wrappers
  import opened Text
  import opened Attractions

  /** An insertion-ordered dictionary from lower-cased names to attractions: the keys in the
    * order they were first inserted, and the current value of each. */
  datatype NameMap = NameMap(order: seq<string>, values: map<string, Attraction>)

  ghost predicate ValidNameMap(m: NameMap)
  {
    && (forall i, j :: 0 <= i < j < |m.order| ==> m.order[i] != m.order[j])
    && m.values.Keys == set k | k in m.order
  }

  /** `m[k] = a`: a new key goes last; an existing key keeps its position and gets the new value. */
  function Put(m: NameMap, k: string, a: Attraction): (r: NameMap)
    requires ValidNameMap(m)
    ensures ValidNameMap(r)
    ensures r.values == m.values[k := a]
    ensures k in m.values ==> r.order == m.order
    ensures k !in m.values ==> r.order == m.order + [k]
  {
    if k in m.values then NameMap(m.order, m.values[k := a])
    else NameMap(m.order + [k], m.values[k := a])
  }

  /** The name map built from the active attractions in catalog order. */
  function NameIndexOf(active: seq<Attraction>): (m: NameMap)
    ensures ValidNameMap(m)
  {
    if active == [] then NameMap([], map[])
    else
      var last := active[|active| - 1];
      Put(NameIndexOf(active[..|active| - 1]), Lower(last.name), last)
  }

  /** The position of the last active attraction whose lower-cased name is `k`, if any. */
  function LastNamed(active: seq<Attraction>, k: string): (r: Option<nat>)
    ensures r.Some? ==> r.value < |active| && Lower(active[r.value].name) == k
    ensures r.Some? ==> forall j :: r.value < j < |active| ==> Lower(active[j].name) != k
    ensures r.None? ==> forall j :: 0 <= j < |active| ==> Lower(active[j].name) != k
  {
    if active == [] then None
    else if Lower(active[|active| - 1].name) == k then Some(|active| - 1)
    else
      var prefix := active[..|active| - 1];
      assert forall j :: 0 <= j < |prefix| ==> prefix[j] == active[j];
      LastNamed(prefix, k)
  }

  /** Looking a lower-cased name up in the name map finds the LAST active attraction with that
    * lower-cased name, and nothing when there is none. */
  lemma {:induction false} NameIndexLookup(active: seq<Attraction>, k: string)
    ensures var m := NameIndexOf(active);
      && (k in m.values <==> LastNamed(active, k).Some?)
      && (k in m.values ==> m.values[k] == active[LastNamed(active, k).value])
  {
    if active != [] {
      var prefix := active[..|active| - 1];
      NameIndexLookup(prefix, k);
      if LastNamed(prefix, k).Some? {
        assert prefix[LastNamed(prefix, k).value] == active[LastNamed(prefix, k).value];
      }
    }
  }

  /** The lower-cased name of `a` contains the word `w`. */
  predicate HasWord(a: Attraction, w: string)
  {
    w in Words(Lower(a.name))
  }

  type KeywordIndex = map<string, seq<Attraction>>

  /** `setdefault(word, []).append(a)` for a word longer than three characters. */
  function AddWord(kw: KeywordIndex, w: string, a: Attraction): (r: KeywordIndex)
    ensures r.Keys == if |w| > 3 then kw.Keys + {w} else kw.Keys
    ensures forall v :: v in kw && v != w ==> r[v] == kw[v]
    ensures |w| > 3 && w in kw ==> r[w] == kw[w] + [a]
    ensures |w| > 3 && w !in kw ==> r[w] == [a]
    ensures |w| <= 3 ==> r == kw
  {
    if |w| > 3 then
      if w in kw then kw[w := kw[w] + [a]] else kw[w := [a]]
    else kw
  }

  /** Indexing every word of one name. */
  function AddWords(kw: KeywordIndex, words: seq<string>, a: Attraction): KeywordIndex
  {
    if words == [] then kw
    else AddWord(AddWords(kw, words[..|words| - 1], a), words[|words| - 1], a)
  }

  /** Indexing the words of one name keeps every earlier list's head, and starts a list with `a`
    * exactly for its new long words. */
  lemma {:induction false} AddWordsAt(kw: KeywordIndex, words: seq<string>, a: Attraction, v: string)
    requires v in kw ==> kw[v] != []
    ensures var r := AddWords(kw, words, a);
      && (v in r <==> v in kw || (|v| > 3 && v in words))
      && (v in kw ==> r[v] != [] && r[v][0] == kw[v][0])
      && (v in r && v !in kw ==> r[v] != [] && r[v][0] == a)
  {
    if words != [] {
      var init := words[..|words| - 1];
      AddWordsAt(kw, init, a, v);
      assert words == init + [words[|words| - 1]];
    }
  }

  /** The keyword index built from the active attractions in catalog order. */
  function KeywordIndexOf(active: seq<Attraction>): KeywordIndex
  {
    if active == [] then map[]
    else
      var last := active[|active| - 1];
      AddWords(KeywordIndexOf(active[..|active| - 1]), Words(Lower(last.name)), last)
  }

  /** The position of the first element satisfying `p`, if any. */
  function FirstWhere<T>(s: seq<T>, p: T -> bool): (r: Option<nat>)
    ensures r.Some? ==> r.value < |s|
  {
    if s == [] then None
    else
      var f := FirstWhere(s[..|s| - 1], p);
      if f.Some? then f
      else if p(s[|s| - 1]) then Some(|s| - 1)
      else None
  }

  /** It is the first such position, and there is none when it finds none. */
  lemma {:induction false} FirstWhereSpec<T>(s: seq<T>, p: T -> bool)
    ensures var r := FirstWhere(s, p);
      && (r.Some? ==> p(s[r.value]) && forall j :: 0 <= j < r.value ==> !p(s[j]))
      && (r.None? ==> forall j :: 0 <= j < |s| ==> !p(s[j]))
  {
    if s != [] {
      var prefix := s[..|s| - 1];
      FirstWhereSpec(prefix, p);
      assert forall j :: 0 <= j < |prefix| ==> prefix[j] == s[j];
    }
  }

  /** The position of the first active attraction whose lower-cased name contains the word `w`. */
  function FirstWithWord(active: seq<Attraction>, w: string): (r: Option<nat>)
    ensures r.Some? ==> r.value < |active|
  {
    FirstWhere(active, a => HasWord(a, w))
  }

  /** A word is indexed exactly when it is longer than three characters and some active
    * attraction's lower-cased name contains it; its list starts with the first such attraction. */
  lemma {:induction false} KeywordIndexSpec(active: seq<Attraction>, w: string)
    ensures var kw := KeywordIndexOf(active);
      && (w in kw <==> |w| > 3 && FirstWithWord(active, w).Some?)
      && (w in kw ==> kw[w] != [] && kw[w][0] == active[FirstWithWord(active, w).value])
  {
    if active != [] {
      var n := |active| - 1;
      var prefix := active[..n];
      KeywordIndexSpec(prefix, w);
      AddWordsAt(KeywordIndexOf(prefix), Words(Lower(active[n].name)), active[n], w);
      if FirstWithWord(prefix, w).Some? {
        assert prefix[FirstWithWord(prefix, w).value] == active[FirstWithWord(prefix, w).value];
      }
    }
  }

  /** Both tables grow by one attraction at a time. */
  lemma IndexesStep(active: seq<Attraction>, i: nat)
    requires i < |active|
    ensures NameIndexOf(active[..i + 1]) == Put(NameIndexOf(active[..i]), Lower(active[i].name), active[i])
    ensures KeywordIndexOf(active[..i + 1]) == AddWords(KeywordIndexOf(active[..i]), Words(Lower(active[i].name)), active[i])
  {
    assert active[..i + 1][..i] == active[..i];
  }

  /** The inner loop: every word of one lower-cased name, in order. */
  method IndexWords(kw: KeywordIndex, words: seq<string>, att: Attraction) returns (r: KeywordIndex)
    ensures r == AddWords(kw, words, att)
  {
    r := kw;
    for k := 0 to |words|
      invariant r == AddWords(kw, words[..k], att)
    {
      assert words[..k + 1][..k] == words[..k];
      r := AddWord(r, words[k], att);
    }
    assert words[..|words|] == words;
  }

  /** Building both tables in one pass over the active attractions (the richer matcher). */
  method BuildIndexes(active: seq<Attraction>) returns (names: NameMap, keywords: KeywordIndex)
    ensures names == NameIndexOf(active) && keywords == KeywordIndexOf(active)
  {
    names, keywords := NameMap([], map[]), map[];
    for i := 0 to |active|
      invariant names == NameIndexOf(active[..i]) && keywords == KeywordIndexOf(active[..i])
    {
      var att := active[i];
      IndexesStep(active, i);
      names := Put(names, Lower(att.name), att);
      keywords := IndexWords(keywords, Words(Lower(att.name)), att);
    }
    assert active[..|active|] == active;
  }

  /** Building the name map alone (the simpler matcher). */
  method BuildNameMap(active: seq<Attraction>) returns (names: NameMap)
    ensures names == NameIndexOf(active)
  {
    names := NameMap([], map[]);
    for i := 0 to |active|
      invariant names == NameIndexOf(active[..i])
    {
      IndexesStep(active, i);
      names := Put(names, Lower(active[i].name), active[i]);
    }
    assert active[..|active|] == active;
  }
}
