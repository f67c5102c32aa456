/** Slug uniquification: the first of `base`, `base-1`, `base-2`, ... that no stored attraction
  * uses. `slugify` itself is a library call and stays a parameter of the callers. */
module UniqueSlugs {
  import opened Text

  /** `f"{base}-{n}"`. */
  function Numbered(base: string, n: nat): string
  {
    base + "-" + NatToString(n)
  }

  /** Different counters give different slugs. */
  lemma NumberedInjective(base: string, m: nat, n: nat)
    requires Numbered(base, m) == Numbered(base, n)
    ensures m == n
  {
    var k := |base| + 1;
    assert NatToString(m) == Numbered(base, m)[k..];
    assert NatToString(n) == Numbered(base, n)[k..];
    NatToStringInjective(m, n);
  }

  /** The numbered slugs `base-1` .. `base-k`. */
  function Tried(base: string, k: nat): (s: set<string>)
    ensures forall x :: x in s ==> exists j :: 1 <= j <= k && x == Numbered(base, j)
  {
    if k == 0 then {} else Tried(base, k - 1) + {Numbered(base, k)}
  }

  /** They are k distinct strings. */
  lemma {:induction false} TriedSize(base: string, k: nat)
    ensures |Tried(base, k)| == k
  {
    if k > 0 {
      TriedSize(base, k - 1);
      var x := Numbered(base, k);
      forall j | 1 <= j <= k - 1
        ensures Numbered(base, j) != x
      {
        if Numbered(base, j) == x {
          NumberedInjective(base, k, j);
        }
      }
      assert x !in Tried(base, k - 1);
      assert |Tried(base, k - 1) + {x}| == |Tried(base, k - 1)| + 1;
    }
  }

  /** `base-1` .. `base-k` are all taken. */
  predicate TakenUpTo(base: string, taken: set<string>, k: nat)
  {
    forall j :: 1 <= j <= k ==> Numbered(base, j) in taken
  }

  /** k taken numbered slugs need at least k taken slugs. */
  lemma TakenBound(base: string, taken: set<string>, k: nat)
    requires TakenUpTo(base, taken, k)
    ensures k <= |taken|
  {
    TriedSize(base, k);
    assert Tried(base, k) <= taken;
    assert taken == Tried(base, k) + (taken - Tried(base, k));
  }

  /** The first counter from `n` on whose numbered slug is free; when `base-1` .. `base-(n-1)`
    * are all taken, it exists because `taken` is finite and the numbered slugs are distinct. */
  function FreeSuffix(base: string, taken: set<string>, n: nat): (m: nat)
    requires n >= 1 && TakenUpTo(base, taken, n - 1)
    ensures m >= n && Numbered(base, m) !in taken
    ensures TakenUpTo(base, taken, m - 1)
    decreases |taken| - (n - 1)
  {
    if Numbered(base, n) !in taken then n
    else
      TakenBound(base, taken, n);
      FreeSuffix(base, taken, n + 1)
  }

  /** `base` if it is free, else `base-n` for the smallest free n >= 1. */
  function UniqueSlug(base: string, taken: set<string>): (slug: string)
    ensures slug !in taken
    ensures base !in taken ==> slug == base
    ensures base in taken ==> exists n :: n >= 1 && slug == Numbered(base, n) && TakenUpTo(base, taken, n - 1)
  {
    if base !in taken then base else Numbered(base, FreeSuffix(base, taken, 1))
  }

  /** A free numbered slug with every smaller one taken is the unique slug. */
  lemma FirstFreeIsUnique(base: string, taken: set<string>, n: nat)
    requires n >= 1 && base in taken && TakenUpTo(base, taken, n - 1) && Numbered(base, n) !in taken
    ensures UniqueSlug(base, taken) == Numbered(base, n)
  {
    var m := FreeSuffix(base, taken, 1);
  }

  /** `_create_slug` (and the same loop in the route matcher): try `base`, then `base-1`,
    * `base-2`, ... while a stored attraction has the slug. */
  method CreateSlug(base: string, taken: set<string>) returns (slug: string)
    ensures slug == UniqueSlug(base, taken)
  {
    slug := base;
    var counter: nat := 1;
    while slug in taken
      invariant counter >= 1
      invariant counter == 1 ==> slug == base
      invariant counter > 1 ==> base in taken && slug == Numbered(base, counter - 1) && TakenUpTo(base, taken, counter - 2)
      decreases |taken| - (counter - 1)
    {
      if counter > 1 {
        TakenBound(base, taken, counter - 1);
      }
      slug := Numbered(base, counter);
      counter := counter + 1;
    }
    if counter > 1 {
      FirstFreeIsUnique(base, taken, counter - 1);
    }
  }
}
