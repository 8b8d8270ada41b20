/** The browse filter and sort of
    src/frontend/src/features/listings/listingsFiltering.ts: keep the listings
    matching a free-text query and a category, then order them by one of three
    keys with a stable sort, working on a copy of the input. */
module ListingsFiltering {
  import opened Backend
  import opened Text
  import opened Seqs
  import opened Wrappers

  // ---------------------------------------------------------------------
  // Filters.
  // ---------------------------------------------------------------------

  /** The lower-cased title or description of `l` contains `query` (already
      lower-cased by the caller). */
  function MatchesQuery(l: Listing, query: string): (r: bool)
    ensures r <==> Occurs(LowerStr(l.title), query) || Occurs(LowerStr(l.description), query)
  {
    IncludesIffOccurs(LowerStr(l.title), query);
    IncludesIffOccurs(LowerStr(l.description), query);
    Includes(LowerStr(l.title), query) || Includes(LowerStr(l.description), query)
  }

  /** The search step: no filtering when the query is blank; otherwise keep
      the listings whose title or description contains the lower-cased,
      untrimmed query. */
  function SearchFilter(listings: seq<Listing>, searchQuery: string): (r: seq<Listing>)
    ensures r == Filter(listings, l => Blank(searchQuery) || SearchHit(l, searchQuery))
  {
    TrimEmptyIffBlank(searchQuery);
    if Trim(searchQuery) == [] then
      FilterAll(listings, l => Blank(searchQuery) || SearchHit(l, searchQuery));
      listings
    else
      var query := LowerStr(searchQuery);
      FilterExt(listings, l => MatchesQuery(l, query), l => Blank(searchQuery) || SearchHit(l, searchQuery));
      Filter(listings, l => MatchesQuery(l, query))
  }

  /** The category step: no filtering for the empty category; otherwise exact,
      case-sensitive equality. */
  function CategoryFilter(listings: seq<Listing>, category: string): (r: seq<Listing>)
    ensures r == Filter(listings, (l: Listing) => category == [] || l.category == category)
  {
    if category == [] then
      FilterAll(listings, (l: Listing) => category == [] || l.category == category);
      listings
    else
      FilterExt(listings, (l: Listing) => l.category == category,
                (l: Listing) => category == [] || l.category == category);
      Filter(listings, (l: Listing) => l.category == category)
  }

  /** Independent statement of the search hit: the lower-cased query occurs
      at some position of the lower-cased title or description. */
  ghost predicate SearchHit(l: Listing, searchQuery: string)
  {
    Occurs(LowerStr(l.title), LowerStr(searchQuery)) || Occurs(LowerStr(l.description), LowerStr(searchQuery))
  }

  /** A listing survives both filters. */
  ghost predicate Passes(l: Listing, searchQuery: string, category: string)
  {
    && (Blank(searchQuery) || SearchHit(l, searchQuery))
    && (category == [] || l.category == category)
  }

  /** `Passes` as a predicate value, the condition the two filter steps apply
      together. */
  ghost function Passing(searchQuery: string, category: string): Listing -> bool
  {
    l => Passes(l, searchQuery, category)
  }

  // ---------------------------------------------------------------------
  // Sort keys and the comparators handed to `Array.prototype.sort`.
  // ---------------------------------------------------------------------

  datatype SortKey = Newest | PriceLow | PriceHigh

  /** The `switch (sortBy)`: any other value selects no sort. */
  function ParseSortKey(sortBy: string): (r: Option<SortKey>)
    ensures r == Some(Newest) <==> sortBy == "newest"
    ensures r == Some(PriceLow) <==> sortBy == "price-low"
    ensures r == Some(PriceHigh) <==> sortBy == "price-high"
  {
    if sortBy == "newest" then Some(Newest)
    else if sortBy == "price-low" then Some(PriceLow)
    else if sortBy == "price-high" then Some(PriceHigh)
    else None
  }

  /** The comparator: negative puts `a` first, positive puts `b` first, zero
      keeps their order. */
  function Compare(a: Listing, b: Listing, key: SortKey): (r: real)
    ensures key == Newest ==> (r <= 0.0 <==> a.createdAt >= b.createdAt)
    ensures key == PriceLow ==> (r <= 0.0 <==> a.price <= b.price)
    ensures key == PriceHigh ==> (r <= 0.0 <==> a.price >= b.price)
  {
    match key
    case Newest => (b.createdAt - a.createdAt) as real
    case PriceLow => a.price - b.price
    case PriceHigh => b.price - a.price
  }

  /** The value a comparator looks at. */
  function SortValue(l: Listing, key: SortKey): real
  {
    if key == Newest then l.createdAt as real else l.price
  }

  /** The comparator says "equal" exactly when the two sort values are equal. */
  lemma CompareZeroIffSameValue(a: Listing, b: Listing, key: SortKey)
    ensures Compare(a, b, key) == 0.0 <==> SortValue(a, key) == SortValue(b, key)
  {
  }

  /** Every pair of positions, adjacent or not, is in comparator order. */
  ghost predicate SortedBy(s: seq<Listing>, key: SortKey)
  {
    forall i, j :: 0 <= i < j < |s| ==> Compare(s[i], s[j], key) <= 0.0
  }

  /** The listings of `s` whose sort value is `v`, in their order in `s`. */
  function Tied(s: seq<Listing>, key: SortKey, v: real): seq<Listing>
  {
    Filter(s, x => SortValue(x, key) == v)
  }

  /** `r` orders each group of tied listings as `s` does (the stability
      guarantee of `Array.prototype.sort` in ECMA-262 since its 2019 edition). */
  ghost predicate StableWrt(r: seq<Listing>, s: seq<Listing>, key: SortKey)
  {
    forall v :: Tied(r, key, v) == Tied(s, key, v)
  }

  // ---------------------------------------------------------------------
  // A stable sort, as a reference function.
  // ---------------------------------------------------------------------

  /** Inserts `x` into `s` just after the last listing, scanning from the
      right, that does not compare greater than it (for a sorted `s`: after
      every listing that does not compare greater). */
  function Insert(s: seq<Listing>, x: Listing, key: SortKey): (r: seq<Listing>)
    ensures |r| == |s| + 1
  {
    if s == [] || Compare(s[|s| - 1], x, key) <= 0.0 then s + [x]
    else Insert(s[..|s| - 1], x, key) + [s[|s| - 1]]
  }

  /** Insertion sort, taking the listings left to right. */
  function StableSort(s: seq<Listing>, key: SortKey): (r: seq<Listing>)
    ensures |r| == |s|
  {
    if s == [] then [] else Insert(StableSort(s[..|s| - 1], key), s[|s| - 1], key)
  }

  /** Inserting into a sorted sequence keeps it sorted. */
  lemma {:induction false} InsertSorted(s: seq<Listing>, x: Listing, key: SortKey)
    requires SortedBy(s, key)
    ensures SortedBy(Insert(s, x, key), key)
  {
    if s != [] && Compare(s[|s| - 1], x, key) > 0.0 {
      var init, last := s[..|s| - 1], s[|s| - 1];
      assert SortedBy(init, key);
      InsertSorted(init, x, key);
      InsertMultiset(init, x, key);
      var r := Insert(init, x, key);
      forall i | 0 <= i < |r| ensures Compare(r[i], last, key) <= 0.0 {
        assert r[i] in multiset(init) + multiset{x} by { assert r[i] in multiset(r); }
        if r[i] != x {
          assert r[i] in init;
        }
      }
      SortedSnoc(r, last, key);
    }
  }

  /** A sorted sequence stays sorted when a listing that no element compares
      greater than is appended. */
  lemma SortedSnoc(r: seq<Listing>, last: Listing, key: SortKey)
    requires SortedBy(r, key)
    requires forall i :: 0 <= i < |r| ==> Compare(r[i], last, key) <= 0.0
    ensures SortedBy(r + [last], key)
  {
  }

  /** Inserting adds `x` and nothing else. */
  lemma {:induction false} InsertMultiset(s: seq<Listing>, x: Listing, key: SortKey)
    ensures multiset(Insert(s, x, key)) == multiset(s) + multiset{x}
  {
    if s != [] && Compare(s[|s| - 1], x, key) > 0.0 {
      var init := s[..|s| - 1];
      InsertMultiset(init, x, key);
      assert s == init + [s[|s| - 1]];
    }
  }

  /** The tie group of a concatenation is the concatenation of the groups. */
  lemma TiedConcat(a: seq<Listing>, b: seq<Listing>, key: SortKey, v: real)
    ensures Tied(a + b, key, v) == Tied(a, key, v) + Tied(b, key, v)
  {
    FilterConcat(a, b, x => SortValue(x, key) == v);
  }

  /** The tie group of a single listing. */
  lemma TiedSingleton(y: Listing, key: SortKey, v: real)
    ensures Tied([y], key, v) == if SortValue(y, key) == v then [y] else []
  {
    assert [y][1..] == [];
  }

  /** Inserting `x` appends it to its own tie group and leaves the others alone. */
  lemma {:induction false} InsertTied(s: seq<Listing>, x: Listing, key: SortKey, v: real)
    ensures Tied(Insert(s, x, key), key, v) == Tied(s, key, v) + Tied([x], key, v)
  {
    if s == [] || Compare(s[|s| - 1], x, key) <= 0.0 {
      TiedConcat(s, [x], key, v);
    } else {
      var init, last := s[..|s| - 1], s[|s| - 1];
      InsertTied(init, x, key, v);
      InsertTiedStep(init, last, x, key, v);
      assert s == init + [last];
    }
  }

  /** The inductive step of `InsertTied`: `x` moves in front of a `last` that
      compares greater than it. */
  lemma InsertTiedStep(init: seq<Listing>, last: Listing, x: Listing, key: SortKey, v: real)
    requires Compare(last, x, key) > 0.0
    requires Tied(Insert(init, x, key), key, v) == Tied(init, key, v) + Tied([x], key, v)
    ensures Tied(Insert(init, x, key) + [last], key, v) == Tied(init + [last], key, v) + Tied([x], key, v)
  {
    TiedConcat(Insert(init, x, key), [last], key, v);
    TiedConcat(init, [last], key, v);
    // `last` compares greater than `x`, so at most one of them has value `v`
    TiedSingleton(x, key, v);
    TiedSingleton(last, key, v);
    AppendEitherOrder(Tied(init, key, v), Tied([x], key, v), Tied([last], key, v));
  }

  /** Appending two sequences one of which is empty gives the same result in
      either order. */
  lemma AppendEitherOrder<T>(a: seq<T>, b: seq<T>, c: seq<T>)
    requires b == [] || c == []
    ensures a + b + c == a + c + b
  {
    if b == [] { assert a + b == a; } else { assert a + c == a; }
  }

  /** The reference sort orders by the comparator. */
  lemma {:induction false} StableSortSorted(s: seq<Listing>, key: SortKey)
    ensures SortedBy(StableSort(s, key), key)
  {
    if s != [] {
      StableSortSorted(s[..|s| - 1], key);
      InsertSorted(StableSort(s[..|s| - 1], key), s[|s| - 1], key);
    }
  }

  /** The reference sort is a permutation. */
  lemma {:induction false} StableSortPermutation(s: seq<Listing>, key: SortKey)
    ensures multiset(StableSort(s, key)) == multiset(s)
  {
    if s != [] {
      StableSortPermutation(s[..|s| - 1], key);
      InsertMultiset(StableSort(s[..|s| - 1], key), s[|s| - 1], key);
      assert s == s[..|s| - 1] + [s[|s| - 1]];
    }
  }

  /** The reference sort is stable. */
  lemma {:induction false} StableSortStable(s: seq<Listing>, key: SortKey)
    ensures StableWrt(StableSort(s, key), s, key)
  {
    forall v ensures Tied(StableSort(s, key), key, v) == Tied(s, key, v) {
      StableSortTied(s, key, v);
    }
  }

  /** Sorting leaves every tie group as it was in the input. */
  lemma {:induction false} StableSortTied(s: seq<Listing>, key: SortKey, v: real)
    ensures Tied(StableSort(s, key), key, v) == Tied(s, key, v)
  {
    if s != [] {
      var init, last := s[..|s| - 1], s[|s| - 1];
      assert StableSort(s, key) == Insert(StableSort(init, key), last, key);
      StableSortTied(init, key, v);
      InsertTied(StableSort(init, key), last, key, v);
      assert s == init + [last];
      TiedConcat(init, [last], key, v);
    }
  }

  /** Sorted and stable pin the order down: the result of the reference sort
      is the only ordering of `s` that is sorted by the comparator and keeps
      tied listings in input order, so any stable sort returns it. */
  lemma StableSortCharacterized(s: seq<Listing>, r: seq<Listing>, key: SortKey)
    ensures r == StableSort(s, key) <==> SortedBy(r, key) && StableWrt(r, s, key)
  {
    StableSortSorted(s, key);
    StableSortStable(s, key);
    if SortedBy(r, key) && StableWrt(r, s, key) {
      SortedTiedUnique(r, StableSort(s, key), key);
    }
  }

  /** Two sorted sequences with the same groups of tied listings are equal. */
  lemma {:induction false} SortedTiedUnique(r1: seq<Listing>, r2: seq<Listing>, key: SortKey)
    requires SortedBy(r1, key) && SortedBy(r2, key)
    requires StableWrt(r1, r2, key)
    ensures r1 == r2
    decreases |r1|
  {
    if r1 == [] || r2 == [] {
      // a listing of the non-empty one would have a tie group with no
      // counterpart in the empty one
      if r1 != [] {
        TiedNonEmpty(r1, r1[0], key);
        assert false;
      } else if r2 != [] {
        TiedNonEmpty(r2, r2[0], key);
        assert false;
      }
    } else {
      var i1, a := r1[..|r1| - 1], r1[|r1| - 1];
      var i2, b := r2[..|r2| - 1], r2[|r2| - 1];
      assert r1 == i1 + [a] && r2 == i2 + [b];
      // the last listing of each carries the largest value, so both values agree
      LastIsGreatest(r1, r2, key);
      LastIsGreatest(r2, r1, key);
      assert SortValue(a, key) == SortValue(b, key);
      forall v ensures Tied(i1, key, v) == Tied(i2, key, v) {
        DropLastTied(i1, a, i2, b, key, v);
      }
      DropLastTied(i1, a, i2, b, key, SortValue(a, key));
      SortedInit(r1, key);
      SortedInit(r2, key);
      SortedTiedUnique(i1, i2, key);
    }
  }

  /** Removing equal-valued last listings from sequences with equal tie
      groups leaves equal tie groups, and the two listings are the same. */
  lemma DropLastTied(i1: seq<Listing>, a: Listing, i2: seq<Listing>, b: Listing, key: SortKey, v: real)
    requires SortValue(a, key) == SortValue(b, key)
    requires Tied(i1 + [a], key, v) == Tied(i2 + [b], key, v)
    ensures Tied(i1, key, v) == Tied(i2, key, v)
    ensures v == SortValue(a, key) ==> a == b
  {
    TiedConcat(i1, [a], key, v);
    TiedConcat(i2, [b], key, v);
    TiedSingleton(a, key, v);
    TiedSingleton(b, key, v);
    if v == SortValue(a, key) {
      LastOfAppend(Tied(i1, key, v), a, Tied(i2, key, v), b);
    } else {
      assert Tied(i1, key, v) + [] == Tied(i1, key, v);
      assert Tied(i2, key, v) + [] == Tied(i2, key, v);
    }
  }

  /** Dropping the last listing keeps a sequence sorted. */
  lemma SortedInit(r: seq<Listing>, key: SortKey)
    requires r != [] && SortedBy(r, key)
    ensures SortedBy(r[..|r| - 1], key)
  {
    var init := r[..|r| - 1];
    assert forall i :: 0 <= i < |init| ==> init[i] == r[i];
  }

  /** A listing of `s` shows up in its own tie group. */
  lemma TiedNonEmpty(s: seq<Listing>, x: Listing, key: SortKey)
    requires x in s
    ensures x in Tied(s, key, SortValue(x, key))
  {
  }

  /** The last listing of a sorted `r2` compares at least as late as the last
      listing of `r1`, when both have the same tie groups. */
  lemma LastIsGreatest(r1: seq<Listing>, r2: seq<Listing>, key: SortKey)
    requires r1 != [] && r2 != [] && SortedBy(r2, key) && StableWrt(r1, r2, key)
    ensures Compare(r1[|r1| - 1], r2[|r2| - 1], key) <= 0.0
  {
    var a := r1[|r1| - 1];
    var v := SortValue(a, key);
    TiedNonEmpty(r1, a, key);
    assert a in Tied(r2, key, v);
    var k :| 0 <= k < |r2| && r2[k] == a;
    assert k < |r2| - 1 ==> Compare(r2[k], r2[|r2| - 1], key) <= 0.0;
  }

  /** Equal sequences with one element appended agree on both parts. */
  lemma LastOfAppend<T>(s: seq<T>, a: T, t: seq<T>, b: T)
    requires s + [a] == t + [b]
    ensures s == t && a == b
  {
    assert (s + [a])[|s|] == a && (t + [b])[|t|] == b;
    assert s == (s + [a])[..|s|] && t == (t + [b])[..|t|];
  }

  /** Sorting one more element of `s` inserts it into the sorted prefix. */
  lemma StableSortPrefix(s: seq<Listing>, i: nat, key: SortKey)
    requires i < |s|
    ensures StableSort(s[..i + 1], key) == Insert(StableSort(s[..i], key), s[i], key)
  {
    assert s[..i + 1][..i] == s[..i];
  }

  /** `x` stops after `s[j - 1]` when that does not compare greater. */
  lemma InsertStops(s: seq<Listing>, j: nat, x: Listing, key: SortKey)
    requires j <= |s| && (j == 0 || Compare(s[j - 1], x, key) <= 0.0)
    ensures Insert(s[..j], x, key) == s[..j] + [x]
  {
    assert j > 0 ==> s[..j][j - 1] == s[j - 1];
  }

  /** One step of the inner loop: `x` goes in front of `s[j - 1]`, which
      compares greater than it. */
  lemma InsertPastGreater(s: seq<Listing>, j: nat, x: Listing, key: SortKey)
    requires 0 < j <= |s| && Compare(s[j - 1], x, key) > 0.0
    ensures Insert(s[..j], x, key) + s[j..] == Insert(s[..j - 1], x, key) + s[j - 1..]
  {
    assert s[..j][..j - 1] == s[..j - 1];
    assert s[j - 1..] == [s[j - 1]] + s[j..];
  }

  // ---------------------------------------------------------------------
  // The sort step, in place on the filtered copy.
  // ---------------------------------------------------------------------

  /** `filtered.sort(compare)`: rearranges `a` in place into the stable
      order of the comparator for `key`. */
  method SortInPlace(a: array<Listing>, key: SortKey)
    modifies a
    ensures a[..] == StableSort(old(a[..]), key)
  {
    ghost var input := a[..];
    var i := 0;
    while i < a.Length
      invariant 0 <= i <= a.Length
      invariant a[..i] == StableSort(input[..i], key)
      invariant a[i..] == input[i..]
    {
      StableSortPrefix(input, i, key);
      assert a[i] == input[i];
      assert a[i + 1..] == input[i + 1..];
      InsertNext(a, i, key);
      i := i + 1;
    }
    assert input[..a.Length] == input;
  }

  /** Moves `a[i]` left past every listing of `a[..i]` that compares greater
      than it. */
  method InsertNext(a: array<Listing>, i: nat, key: SortKey)
    requires i < a.Length
    modifies a
    ensures a[..i + 1] == Insert(old(a[..i]), old(a[i]), key)
    ensures a[i + 1..] == old(a[i + 1..])
  {
    var x := a[i];
    var j := FindSlot(a, i, x, key);
    ghost var before := a[..];
    ShiftRight(a, j, i);
    a[j] := x;
    assert a[..i + 1] == a[..j] + [x] + a[j + 1..i + 1];
    assert before[..i] == before[..j] + before[j..i];
  }

  /** The position where `x` goes among `a[..i]`: after the last listing
      that does not compare greater than it. */
  method FindSlot(a: array<Listing>, i: nat, x: Listing, key: SortKey) returns (j: nat)
    requires i <= a.Length
    ensures j <= i
    ensures Insert(a[..i], x, key) == a[..j] + [x] + a[j..i]
  {
    ghost var s := a[..i];
    j := i;
    assert s[..j] == s && s[j..] == [];
    while j > 0 && Compare(a[j - 1], x, key) > 0.0
      invariant j <= i
      invariant Insert(s, x, key) == Insert(s[..j], x, key) + s[j..]
    {
      assert a[j - 1] == s[j - 1];
      InsertPastGreater(s, j, x, key);
      j := j - 1;
    }
    InsertStops(s, j, x, key);
    assert s[..j] == a[..j] && s[j..] == a[j..i];
  }

  /** Shifts `a[j..i]` one place to the right, over `a[i]`. */
  method ShiftRight(a: array<Listing>, j: nat, i: nat)
    requires j <= i < a.Length
    modifies a
    ensures a[..j] == old(a[..j])
    ensures a[j + 1..i + 1] == old(a[j..i])
    ensures a[i + 1..] == old(a[i + 1..])
  {
    var k := i;
    while k > j
      invariant j <= k <= i
      invariant a[..k] == old(a[..k])
      invariant a[k + 1..i + 1] == old(a[k..i])
      invariant a[i + 1..] == old(a[i + 1..])
    {
      a[k] := a[k - 1];
      k := k - 1;
    }
  }

  // ---------------------------------------------------------------------
  // The whole operation.
  // ---------------------------------------------------------------------

  /** What `filterAndSortListings` returns, as a function of the input
      listings. */
  function FilterAndSort(listings: seq<Listing>, searchQuery: string, category: string, sortBy: string)
    : (r: seq<Listing>)
    ensures |r| <= |listings|
  {
    var selected := CategoryFilter(SearchFilter(listings, searchQuery), category);
    match ParseSortKey(sortBy)
    case Some(key) => StableSort(selected, key)
    case None => selected
  }

  /** A fresh array holding `s`. */
  method ToArray(s: seq<Listing>) returns (a: array<Listing>)
    ensures fresh(a) && a[..] == s
  {
    a := new Listing[|s|](k requires 0 <= k < |s| => s[k]);
    assert forall k :: 0 <= k < a.Length ==> a[k] == s[k];
  }

  /** `filterAndSortListings`: filters a copy of `listings` and sorts the copy
      in place; `listings` itself is not modified. */
  method FilterAndSortListings(listings: array<Listing>, searchQuery: string, category: string, sortBy: string)
    returns (result: array<Listing>)
    ensures fresh(result) && listings[..] == old(listings[..])
    ensures result[..] == FilterAndSort(listings[..], searchQuery, category, sortBy)
  {
    var filtered := SearchFilter(listings[..], searchQuery);
    filtered := CategoryFilter(filtered, category);
    result := ToArray(filtered);
    match ParseSortKey(sortBy)
    case Some(key) =>
      SortInPlace(result, key);
    case None =>
  }
}

/** Properties of `filterAndSortListings`, stated on its reference function. */
module ListingsFilteringProperties {
  import opened Backend
  import opened Text
  import opened Seqs
  import opened Wrappers
  import opened ListingsFiltering

  /** The two filters together keep exactly the listings that pass both
      conditions, in input order. */
  lemma SelectedIsFilter(listings: seq<Listing>, searchQuery: string, category: string)
    ensures CategoryFilter(SearchFilter(listings, searchQuery), category)
         == Filter(listings, Passing(searchQuery, category))
  {
    FilterFilter(listings,
      l => Blank(searchQuery) || SearchHit(l, searchQuery),
      (l: Listing) => category == [] || l.category == category,
      Passing(searchQuery, category));
  }

  /** The result holds exactly the input listings that pass both filters,
      each as often as in the input (nothing added, dropped or duplicated),
      and is no longer than the input. */
  lemma ResultIsSelection(listings: seq<Listing>, searchQuery: string, category: string, sortBy: string)
    ensures var r := FilterAndSort(listings, searchQuery, category, sortBy);
      && |r| <= |listings|
      && (forall l :: l in r <==> l in listings && Passing(searchQuery, category)(l))
      && (forall l :: multiset(r)[l] == if Passing(searchQuery, category)(l) then multiset(listings)[l] else 0)
  {
    SelectedIsFilter(listings, searchQuery, category);
    SortPermutes(listings, searchQuery, category, sortBy);
    SelectionOf(FilterAndSort(listings, searchQuery, category, sortBy), listings, Passing(searchQuery, category));
  }

  /** The sort step only rearranges the selected listings. */
  lemma SortPermutes(listings: seq<Listing>, searchQuery: string, category: string, sortBy: string)
    ensures multiset(FilterAndSort(listings, searchQuery, category, sortBy))
         == multiset(CategoryFilter(SearchFilter(listings, searchQuery), category))
  {
    match ParseSortKey(sortBy)
    case Some(key) =>
      StableSortPermutation(CategoryFilter(SearchFilter(listings, searchQuery), category), key);
    case None =>
  }

  /** A rearrangement of a filter's result holds exactly the accepted
      elements, each as often as in the input. */
  lemma SelectionOf<T(!new)>(r: seq<T>, s: seq<T>, p: T -> bool)
    requires multiset(r) == multiset(Filter(s, p))
    ensures |r| <= |s|
    ensures forall x :: x in r <==> x in s && p(x)
    ensures forall x :: multiset(r)[x] == if p(x) then multiset(s)[x] else 0
  {
    assert |r| == |multiset(r)| == |Filter(s, p)|;
    SameMembers(r, Filter(s, p));
    FilterMultiset(s, p);
  }

  /** Sequences with the same multiset have the same members. */
  lemma SameMembers<T>(r: seq<T>, s: seq<T>)
    requires multiset(r) == multiset(s)
    ensures forall x :: x in r <==> x in s
  {
    forall x ensures x in r <==> x in s {
      assert x in r <==> x in multiset(r);
      assert x in s <==> x in multiset(s);
    }
  }

  /** With no search and no category every listing is kept. */
  lemma NoFiltersKeepsAll(listings: seq<Listing>, searchQuery: string, sortBy: string)
    requires Blank(searchQuery)
    ensures multiset(FilterAndSort(listings, searchQuery, [], sortBy)) == multiset(listings)
  {
    BlankSearchKeepsAll(listings, searchQuery);
    SortPermutes(listings, searchQuery, [], sortBy);
  }

  /** "newest" puts later `createdAt` first, "price-low" orders by ascending
      price and "price-high" by descending price. */
  lemma ResultIsOrdered(listings: seq<Listing>, searchQuery: string, category: string, sortBy: string)
    ensures var r := FilterAndSort(listings, searchQuery, category, sortBy);
      && (sortBy == "newest" ==> forall i, j :: 0 <= i < j < |r| ==> r[i].createdAt >= r[j].createdAt)
      && (sortBy == "price-low" ==> forall i, j :: 0 <= i < j < |r| ==> r[i].price <= r[j].price)
      && (sortBy == "price-high" ==> forall i, j :: 0 <= i < j < |r| ==> r[i].price >= r[j].price)
  {
    var r := FilterAndSort(listings, searchQuery, category, sortBy);
    match ParseSortKey(sortBy)
    case Some(key) =>
      ResultSorted(listings, searchQuery, category, sortBy, key);
      SortedMeansOrdered(r, key);
    case None =>
  }

  /** For a recognised `sortBy` the result is in comparator order. */
  lemma ResultSorted(listings: seq<Listing>, searchQuery: string, category: string, sortBy: string, key: SortKey)
    requires ParseSortKey(sortBy) == Some(key)
    ensures SortedBy(FilterAndSort(listings, searchQuery, category, sortBy), key)
  {
    StableSortSorted(CategoryFilter(SearchFilter(listings, searchQuery), category), key);
  }

  /** What comparator order means for each key, over all pairs. */
  lemma SortedMeansOrdered(r: seq<Listing>, key: SortKey)
    requires SortedBy(r, key)
    ensures key == Newest ==> forall i, j :: 0 <= i < j < |r| ==> r[i].createdAt >= r[j].createdAt
    ensures key == PriceLow ==> forall i, j :: 0 <= i < j < |r| ==> r[i].price <= r[j].price
    ensures key == PriceHigh ==> forall i, j :: 0 <= i < j < |r| ==> r[i].price >= r[j].price
  {
  }

  /** For a recognised `sortBy` the result is the one ordering of the
      selected listings that is sorted by the comparator and keeps listings
      the comparator cannot tell apart (same `createdAt` for "newest", same
      price otherwise) in their input order: what any stable sort returns. */
  lemma ResultIsTheStableSort(listings: seq<Listing>, searchQuery: string, category: string, sortBy: string,
                              key: SortKey, r: seq<Listing>)
    requires ParseSortKey(sortBy) == Some(key)
    ensures r == FilterAndSort(listings, searchQuery, category, sortBy) <==>
      SortedBy(r, key) && StableWrt(r, Filter(listings, Passing(searchQuery, category)), key)
  {
    SelectedIsFilter(listings, searchQuery, category);
    StableSortCharacterized(CategoryFilter(SearchFilter(listings, searchQuery), category), r, key);
  }

  /** Any other `sortBy` leaves the filtered listings in input order. */
  lemma UnknownSortKeepsOrder(listings: seq<Listing>, searchQuery: string, category: string, sortBy: string)
    requires sortBy !in {"newest", "price-low", "price-high"}
    ensures FilterAndSort(listings, searchQuery, category, sortBy)
         == Filter(listings, Passing(searchQuery, category))
    ensures IsSubsequence(FilterAndSort(listings, searchQuery, category, sortBy), listings)
  {
    SelectedIsFilter(listings, searchQuery, category);
    FilterIsSubsequence(listings, Passing(searchQuery, category));
  }

  /** The query is matched case-insensitively (for ASCII letters): changing
      the case of the query does not change the result. */
  lemma QueryCaseIgnored(listings: seq<Listing>, searchQuery: string, category: string, sortBy: string)
    ensures FilterAndSort(listings, LowerStr(searchQuery), category, sortBy)
         == FilterAndSort(listings, searchQuery, category, sortBy)
  {
    LowerStrIdempotent(searchQuery);
    BlankLowerStr(searchQuery);
    TrimEmptyIffBlank(searchQuery);
    TrimEmptyIffBlank(LowerStr(searchQuery));
  }

  // Two listings for the examples below: `a` is older and dearer than `b`.
  function ExampleA(): Listing
  {
    Listing(0, "Okra", "a@example.org", "owner-a", 1, "kg", "Ripe", true, "Vegetables", 10.0, "Town", [])
  }

  function ExampleB(): Listing
  {
    Listing(1, "Fig", "b@example.org", "owner-b", 2, "kg", "Dry", true, "Fruit", 5.0, "Town", [])
  }

  lemma FilterPair(a: Listing, b: Listing, p: Listing -> bool)
    ensures Filter([a, b], p) == (if p(a) then [a] else []) + (if p(b) then [b] else [])
  {
    assert [a, b][1..] == [b];
    assert [b][1..] == [];
  }

  lemma SortPair(a: Listing, b: Listing, key: SortKey)
    ensures StableSort([a, b], key) == if Compare(a, b, key) <= 0.0 then [a, b] else [b, a]
  {
    assert [a, b][..1] == [a];
    assert [a][..0] == [];
    assert StableSort([a], key) == Insert([], a, key) == [a];
    assert StableSort([a, b], key) == Insert([a], b, key);
    if Compare(a, b, key) > 0.0 {
      assert Insert([a], b, key) == Insert([], b, key) + [a];
    }
  }

  /** Sorting two listings by "price-low", "price-high" and "newest". */
  lemma SortExamples()
    ensures FilterAndSort([ExampleA(), ExampleB()], "", "", "price-low") == [ExampleB(), ExampleA()]
    ensures FilterAndSort([ExampleA(), ExampleB()], "", "", "price-high") == [ExampleA(), ExampleB()]
    ensures FilterAndSort([ExampleA(), ExampleB()], "", "", "newest") == [ExampleB(), ExampleA()]
  {
    var a, b := ExampleA(), ExampleB();
    TrimEmptyIffBlank("");
    assert CategoryFilter(SearchFilter([a, b], ""), "") == [a, b];
    SortPair(a, b, PriceLow);
    SortPair(a, b, PriceHigh);
    SortPair(a, b, Newest);
  }

  /** A query longer than both texts of a listing cannot match it. */
  lemma LongerQueryMisses(l: Listing, query: string)
    requires |query| > |l.title| && |query| > |l.description|
    ensures !MatchesQuery(l, query)
  {
  }

  /** Whether a non-blank query selects each of two listings. */
  lemma SearchPair(a: Listing, b: Listing, searchQuery: string)
    requires !Blank(searchQuery)
    ensures SearchFilter([a, b], searchQuery)
         == (if MatchesQuery(a, LowerStr(searchQuery)) then [a] else [])
          + (if MatchesQuery(b, LowerStr(searchQuery)) then [b] else [])
  {
    TrimEmptyIffBlank(searchQuery);
    var query := LowerStr(searchQuery);
    FilterPair(a, b, l => MatchesQuery(l, query));
  }

  /** The search ignores the case of ASCII letters. */
  lemma SearchCaseExample()
    ensures FilterAndSort([ExampleA(), ExampleB()], "OKRA", "", "") == [ExampleA()]
  {
    var a, b, q := ExampleA(), ExampleB(), "OKRA";
    assert !IsWhitespace(q[0]);
    LowerOkra();
    TitleMatches(a, LowerStr(q));
    LongerQueryMisses(b, LowerStr(q));
    SearchPair(a, b, q);
  }

  lemma LowerOkra()
    ensures LowerStr("OKRA") == "okra" && LowerStr("Okra") == "okra"
  {
  }

  /** A listing whose lower-cased title is the query matches it. */
  lemma TitleMatches(l: Listing, query: string)
    requires LowerStr(l.title) == query
    ensures MatchesQuery(l, query)
  {
    assert query[..|query|] == query;
  }

  /** The query is lower-cased but not trimmed: a trailing space is part of
      what must occur. */
  lemma SearchUntrimmedExample()
    ensures FilterAndSort([ExampleA(), ExampleB()], "okra ", "", "") == []
  {
    var a, b, q := ExampleA(), ExampleB(), "okra ";
    assert !IsWhitespace(q[0]);
    LongerQueryMisses(a, LowerStr(q));
    LongerQueryMisses(b, LowerStr(q));
    SearchPair(a, b, q);
  }

  /** With no listings there is nothing to return. */
  lemma EmptyInEmptyOut(searchQuery: string, category: string, sortBy: string)
    ensures FilterAndSort([], searchQuery, category, sortBy) == []
  {
  }

  /** A query of spaces only is blank: the search step keeps everything. */
  lemma BlankQueryExample(listings: seq<Listing>)
    ensures SearchFilter(listings, "   ") == listings
  {
    assert Blank("   ");
    TrimEmptyIffBlank("   ");
  }

  /** A blank query keeps every listing. */
  lemma BlankSearchKeepsAll(listings: seq<Listing>, searchQuery: string)
    requires Blank(searchQuery)
    ensures SearchFilter(listings, searchQuery) == listings
  {
    TrimEmptyIffBlank(searchQuery);
  }

  /** Which of two listings a selected category keeps. */
  lemma CategoryPair(a: Listing, b: Listing, category: string)
    requires category != []
    ensures CategoryFilter([a, b], category)
         == (if a.category == category then [a] else []) + (if b.category == category then [b] else [])
  {
    FilterPair(a, b, (l: Listing) => l.category == category);
  }

  /** A blank query keeps everything; the category filter then keeps the
      listings of that exact category. */
  lemma CategoryExample()
    ensures FilterAndSort([ExampleA(), ExampleB()], "   ", "Fruit", "") == [ExampleB()]
  {
    var a, b := ExampleA(), ExampleB();
    BlankQueryExample([a, b]);
    CategoryPair(a, b, "Fruit");
    assert a.category != "Fruit" by { assert |a.category| != |"Fruit"|; }
  }

  /** The category comparison is case-sensitive. */
  lemma CategoryCaseExample()
    ensures FilterAndSort([ExampleA(), ExampleB()], "", "fruit", "") == []
  {
    var a, b := ExampleA(), ExampleB();
    BlankSearchKeepsAll([a, b], "");
    CategoryPair(a, b, "fruit");
    assert a.category != "fruit" by { assert |a.category| != |"fruit"|; }
    assert b.category != "fruit" by { assert b.category[0] != "fruit"[0]; }
  }
}
