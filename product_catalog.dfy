/** The catalog page's derived lists: the category buttons (the distinct
    categories, sorted) and the products shown for the selected category and the
    search box. */
module ProductCatalog {
  import opened Wrappers
  import opened Backend
  import Text

  // ---- The order of Array.prototype.sort() on strings ----

  /** a sorts strictly before b: lexicographic by character code, a proper
      prefix first. */
  predicate Less(a: string, b: string)
    decreases |a|
  {
    if a == [] then b != []
    else b != [] && (a[0] < b[0] || (a[0] == b[0] && Less(a[1..], b[1..])))
  }

  lemma {:induction false} LessIrreflexive(a: string)
    ensures !Less(a, a)
    decreases |a|
  {
    if a != [] {
      LessIrreflexive(a[1..]);
    }
  }

  lemma {:induction false} LessTransitive(a: string, b: string, c: string)
    requires Less(a, b) && Less(b, c)
    ensures Less(a, c)
    decreases |a|
  {
    if a != [] && a[0] == b[0] && b[0] == c[0] {
      LessTransitive(a[1..], b[1..], c[1..]);
    }
  }

  lemma {:induction false} LessTotal(a: string, b: string)
    requires a != b
    ensures Less(a, b) || Less(b, a)
    decreases |a|
  {
    if a != [] && b != [] && a[0] == b[0] {
      LessTotal(a[1..], b[1..]);
    }
  }

  lemma LessAsymmetric(a: string, b: string)
    requires Less(a, b)
    ensures !Less(b, a)
  {
    if Less(b, a) {
      LessTransitive(a, b, a);
      LessIrreflexive(a);
    }
  }

  predicate StrictlySorted(s: seq<string>)
  {
    forall i, j :: 0 <= i < j < |s| ==> Less(s[i], s[j])
  }

  /** Strictly sorted lists hold each element once. */
  lemma StrictlySortedDistinct(s: seq<string>, i: nat, j: nat)
    requires StrictlySorted(s) && i < j < |s|
    ensures s[i] != s[j]
  {
    LessIrreflexive(s[i]);
  }

  /** c added to a strictly sorted list of distinct strings, keeping it so. */
  function Insert(s: seq<string>, c: string): (r: seq<string>)
    requires StrictlySorted(s)
    ensures StrictlySorted(r)
    ensures forall x :: x in r <==> x in s || x == c
  {
    if s == [] then [c]
    else if c == s[0] then s
    else if Less(c, s[0]) then
      InsertFront(s, c);
      [c] + s
    else
      LessTotal(c, s[0]);
      var rest := Insert(s[1..], c);
      InsertBehind(s, c, rest);
      [s[0]] + rest
  }

  lemma InsertFront(s: seq<string>, c: string)
    requires StrictlySorted(s) && s != [] && Less(c, s[0])
    ensures StrictlySorted([c] + s)
  {
    var r := [c] + s;
    forall i, j | 0 <= i < j < |r| ensures Less(r[i], r[j]) {
      if i == 0 {
        if j > 1 {
          LessTransitive(c, s[0], s[j - 1]);
        }
      } else {
        assert r[i] == s[i - 1] && r[j] == s[j - 1];
      }
    }
  }

  lemma InsertBehind(s: seq<string>, c: string, rest: seq<string>)
    requires StrictlySorted(s) && s != [] && Less(s[0], c)
    requires StrictlySorted(rest)
    requires forall x :: x in rest <==> x in s[1..] || x == c
    ensures StrictlySorted([s[0]] + rest)
  {
    forall j | 0 <= j < |rest| ensures Less(s[0], rest[j]) {
      assert rest[j] in rest;
      if rest[j] != c {
        var k :| 0 <= k < |s[1..]| && s[1..][k] == rest[j];
        assert s[k + 1] == rest[j];
      }
    }
  }

  /** A product with category c is in the list. */
  predicate HasCategory(products: seq<Product>, c: Category)
  {
    exists i :: 0 <= i < |products| && products[i].category == c
  }

  /** Array.from(new Set(products.map(p => p.category))).sort(): every product's
      category, each exactly once (strict order), and nothing else. */
  function Categories(products: seq<Product>): (r: seq<Category>)
    ensures StrictlySorted(r)
    ensures forall c :: c in r <==> HasCategory(products, c)
  {
    if products == [] then []
    else
      var init := products[..|products| - 1];
      var last := products[|products| - 1];
      var r := Insert(Categories(init), last.category);
      assert forall c :: HasCategory(products, c) <==> HasCategory(init, c) || c == last.category by {
        forall c | HasCategory(products, c) ensures HasCategory(init, c) || c == last.category {
          var i :| 0 <= i < |products| && products[i].category == c;
          if i < |products| - 1 {
            assert init[i] == products[i];
          }
        }
        forall c | HasCategory(init, c) ensures HasCategory(products, c) {
          var i :| 0 <= i < |init| && init[i].category == c;
          assert products[i] == init[i];
        }
      }
      r
  }

  /** Two strictly sorted lists with the same elements are equal: the category
      list does not depend on how it is sorted. */
  lemma {:induction false} SortedUnique(a: seq<string>, b: seq<string>)
    requires StrictlySorted(a) && StrictlySorted(b)
    requires forall x :: x in a <==> x in b
    ensures a == b
    decreases |a|
  {
    if a == [] || b == [] {
      SameEmptiness(a, b);
    } else {
      SameHead(a, b);
      forall x ensures x in a[1..] <==> x in b[1..] {
        if x in a[1..] {
          var k :| 1 <= k < |a| && a[k] == x;
          StrictlySortedDistinct(a, 0, k);
          assert x in b;
        }
        if x in b[1..] {
          var k :| 1 <= k < |b| && b[k] == x;
          StrictlySortedDistinct(b, 0, k);
          assert x in a;
        }
      }
      SortedUnique(a[1..], b[1..]);
      assert a == [a[0]] + a[1..] && b == [b[0]] + b[1..];
    }
  }

  lemma SameEmptiness(a: seq<string>, b: seq<string>)
    requires forall x :: x in a <==> x in b
    ensures a == [] <==> b == []
  {
    if a != [] {
      assert a[0] in b;
    }
    if b != [] {
      assert b[0] in a;
    }
  }

  /** The least element heads both lists. */
  lemma SameHead(a: seq<string>, b: seq<string>)
    requires StrictlySorted(a) && StrictlySorted(b) && a != [] && b != []
    requires forall x :: x in a <==> x in b
    ensures a[0] == b[0]
  {
    assert a[0] in b && b[0] in a;
    var k :| 0 <= k < |b| && b[k] == a[0];
    var m :| 0 <= m < |a| && a[m] == b[0];
    if k != 0 && m != 0 {
      LessAsymmetric(b[0], b[k]);
      assert false;
    }
  }

  // ---- filteredProducts ----

  /** The category filter applies only to a truthy selection: null and "" select all. */
  predicate CategoryFilterActive(selected: Option<Category>)
  {
    selected.Some? && selected.value != []
  }

  /** The search filter applies only when the term is not blank. */
  predicate SearchActive(searchTerm: string)
  {
    Text.Trim(searchTerm) != []
  }

  /** The lower-cased name, description or category contains the lower-cased
      term, which is not trimmed. */
  predicate MatchesSearch(p: Product, searchTerm: string)
  {
    var term := Text.ToLower(searchTerm);
    || Text.Contains(Text.ToLower(p.name), term)
    || Text.Contains(Text.ToLower(p.description), term)
    || Text.Contains(Text.ToLower(p.category), term)
  }

  /** What a shown product satisfies: the selected category, if one is selected,
      and the search term, if it is not blank. */
  predicate Shown(p: Product, selected: Option<Category>, searchTerm: string)
  {
    && (CategoryFilterActive(selected) ==> p.category == selected.value)
    && (SearchActive(searchTerm) ==> MatchesSearch(p, searchTerm))
  }

  /** The conditions products are filtered by: the two the page applies in turn,
      and both at once. */
  datatype Condition =
    | InCategory(category: Category)
    | Matching(searchTerm: string)
    | ShownFor(selected: Option<Category>, searchTerm: string)

  predicate Holds(c: Condition, p: Product)
  {
    match c
    case InCategory(category) => p.category == category
    case Matching(searchTerm) => MatchesSearch(p, searchTerm)
    case ShownFor(selected, searchTerm) => Shown(p, selected, searchTerm)
  }

  /** Array.prototype.filter: the products meeting c, and only those. */
  function Filter(c: Condition, s: seq<Product>): (r: seq<Product>)
    ensures |r| <= |s|
  {
    if s == [] then [] else (if Holds(c, s[0]) then [s[0]] else []) + Filter(c, s[1..])
  }

  /** Filter keeps exactly the elements of s that meet c. */
  lemma {:induction false} FilterMembers(c: Condition, s: seq<Product>, p: Product)
    ensures p in Filter(c, s) <==> p in s && Holds(c, p)
  {
    if s != [] {
      FilterMembers(c, s[1..], p);
      assert s == [s[0]] + s[1..];
    }
  }

  /** r is s with some elements left out and the others in their order: it
      embeds into s through strictly increasing positions. */
  ghost predicate IsSubsequence<T>(r: seq<T>, s: seq<T>)
  {
    exists pos: seq<nat> :: Embeds(pos, r, s)
  }

  /** pos lists, strictly increasing, the positions of s that r's elements come from. */
  ghost predicate Embeds<T>(pos: seq<nat>, r: seq<T>, s: seq<T>)
  {
    && |pos| == |r|
    && (forall k :: 0 <= k < |pos| ==> pos[k] < |s| && r[k] == s[pos[k]])
    && (forall k, l :: 0 <= k < l < |pos| ==> pos[k] < pos[l])
  }

  /** The positions of s that Filter keeps. */
  function KeptPositions(c: Condition, s: seq<Product>): seq<nat>
  {
    if s == [] then []
    else (if Holds(c, s[0]) then [0] else []) + Shift(KeptPositions(c, s[1..]))
  }

  function Shift(pos: seq<nat>): (r: seq<nat>)
    ensures |r| == |pos| && forall k :: 0 <= k < |pos| ==> r[k] == pos[k] + 1
  {
    if pos == [] then [] else [pos[0] + 1] + Shift(pos[1..])
  }

  /** An embedding into the tail of s, shifted by one, embeds into s; with s's
      head put in front, so does the head position. */
  lemma EmbedStep<T>(pos: seq<nat>, r: seq<T>, s: seq<T>, keep: bool)
    requires s != [] && Embeds(pos, r, s[1..])
    ensures Embeds((if keep then [0] else []) + Shift(pos), (if keep then [s[0]] else []) + r, s)
  {
    var rest := Shift(pos);
    if keep {
      var p, q := [0] + rest, [s[0]] + r;
      forall k | 0 <= k < |p| ensures p[k] < |s| && q[k] == s[p[k]] {
        if k > 0 {
          assert p[k] == pos[k - 1] + 1 && q[k] == r[k - 1];
        }
      }
    }
  }

  lemma {:induction false} KeptPositionsEmbed(c: Condition, s: seq<Product>)
    ensures Embeds(KeptPositions(c, s), Filter(c, s), s)
  {
    if s != [] {
      KeptPositionsEmbed(c, s[1..]);
      EmbedStep(KeptPositions(c, s[1..]), Filter(c, s[1..]), s, Holds(c, s[0]));
    }
  }

  lemma FilterIsSubsequence(c: Condition, s: seq<Product>)
    ensures IsSubsequence(Filter(c, s), s)
  {
    KeptPositionsEmbed(c, s);
  }

  /** Filtering by c1 then c2 is filtering by a condition that is both. */
  lemma {:induction false} FilterTwice(c1: Condition, c2: Condition, both: Condition, s: seq<Product>)
    requires forall p :: Holds(both, p) <==> Holds(c1, p) && Holds(c2, p)
    ensures Filter(c2, Filter(c1, s)) == Filter(both, s)
  {
    if s != [] {
      var x, rest := s[0], s[1..];
      assert s == [x] + rest;
      FilterTwice(c1, c2, both, rest);
      var kept := Filter(c1, rest);
      FilterCons(c1, x, rest);
      FilterCons(both, x, rest);
      if Holds(c1, x) {
        FilterCons(c2, x, kept);
        assert Holds(both, x) == Holds(c2, x);
        assert Filter(c1, s) == [x] + kept;
      } else {
        assert !Holds(both, x);
        assert Filter(c1, s) == kept;
      }
    }
  }

  /** Filter on a list with a known head. */
  lemma FilterCons(c: Condition, x: Product, rest: seq<Product>)
    ensures Filter(c, [x] + rest) == (if Holds(c, x) then [x] else []) + Filter(c, rest)
  {
    assert ([x] + rest)[1..] == rest;
  }


  /** Filtering by a condition every element meets keeps the list as it is. */
  lemma {:induction false} FilterAll(c: Condition, s: seq<Product>)
    requires forall i :: 0 <= i < |s| ==> Holds(c, s[i])
    ensures Filter(c, s) == s
  {
    if s != [] {
      FilterAll(c, s[1..]);
      assert s == [s[0]] + s[1..];
    }
  }

  /** filteredProducts: the category filter when a category is selected, then the
      search filter when the term is not blank. */
  function FilteredProducts(products: seq<Product>, selected: Option<Category>, searchTerm: string): seq<Product>
  {
    var byCategory :=
      if CategoryFilterActive(selected) then Filter(InCategory(selected.value), products) else products;
    if SearchActive(searchTerm) then Filter(Matching(searchTerm), byCategory) else byCategory
  }

  /** The two filters in sequence are one filter by Shown: the page keeps exactly
      the products meeting both active conditions, in their order, with their
      repetitions. */
  lemma FilteredProductsIsFilter(products: seq<Product>, selected: Option<Category>, searchTerm: string)
    ensures FilteredProducts(products, selected, searchTerm) == Filter(ShownFor(selected, searchTerm), products)
  {
    var shown := ShownFor(selected, searchTerm);
    var category := ShownFor(selected, "");
    var search := ShownFor(None, searchTerm);
    var mid := if CategoryFilterActive(selected) then Filter(InCategory(selected.value), products) else products;
    Text.TrimEmptyIffBlank("");
    if CategoryFilterActive(selected) {
      FilterTwice(category, category, InCategory(selected.value), products);
      FilterTwice(category, category, category, products);
      SameCondition(InCategory(selected.value), category, products);
    } else {
      FilterAll(category, products);
    }
    assert mid == Filter(category, products);
    if SearchActive(searchTerm) {
      SameCondition(Matching(searchTerm), search, mid);
    } else {
      FilterAll(search, mid);
    }
    assert FilteredProducts(products, selected, searchTerm) == Filter(search, mid);
    FilterTwice(category, search, shown, products);
  }

  lemma {:induction false} SameCondition(c1: Condition, c2: Condition, s: seq<Product>)
    requires forall p :: Holds(c1, p) <==> Holds(c2, p)
    ensures Filter(c1, s) == Filter(c2, s)
  {
    if s != [] {
      SameCondition(c1, c2, s[1..]);
    }
  }

  /** Soundness and completeness: a product is shown exactly when it is in the
      catalog and meets both active conditions. */
  lemma FilteredProductsMembers(products: seq<Product>, selected: Option<Category>, searchTerm: string, p: Product)
    ensures p in FilteredProducts(products, selected, searchTerm)
        <==> p in products && Shown(p, selected, searchTerm)
  {
    FilteredProductsIsFilter(products, selected, searchTerm);
    FilterMembers(ShownFor(selected, searchTerm), products, p);
  }

  /** The shown products keep the catalog's order. */
  lemma FilteredProductsInOrder(products: seq<Product>, selected: Option<Category>, searchTerm: string)
    ensures IsSubsequence(FilteredProducts(products, selected, searchTerm), products)
  {
    FilteredProductsIsFilter(products, selected, searchTerm);
    FilterIsSubsequence(ShownFor(selected, searchTerm), products);
  }

  /** A selected category shows only products of that category; a search term
      that is not blank shows only products whose name, description or category
      contains it, ignoring ASCII case. */
  lemma FilteredProductsMatch(products: seq<Product>, selected: Option<Category>, searchTerm: string)
    ensures CategoryFilterActive(selected) ==>
      forall p :: p in FilteredProducts(products, selected, searchTerm) ==> p.category == selected.value
    ensures SearchActive(searchTerm) ==>
      forall p :: p in FilteredProducts(products, selected, searchTerm) ==> MatchesSearch(p, searchTerm)
  {
    forall p | p in FilteredProducts(products, selected, searchTerm) ensures Shown(p, selected, searchTerm) {
      FilteredProductsMembers(products, selected, searchTerm, p);
    }
  }

  /** With no (or an empty) category selected and a blank search term, every
      product is shown, in the catalog's order. */
  lemma UnfilteredShowsAll(products: seq<Product>, selected: Option<Category>, searchTerm: string)
    requires !CategoryFilterActive(selected) && Text.IsBlank(searchTerm)
    ensures FilteredProducts(products, selected, searchTerm) == products
  {
    Text.TrimEmptyIffBlank(searchTerm);
  }

  /** A search term made only of white space filters nothing. */
  lemma BlankSearchIgnored(products: seq<Product>, selected: Option<Category>, searchTerm: string)
    requires Text.IsBlank(searchTerm)
    ensures FilteredProducts(products, selected, searchTerm) == FilteredProducts(products, selected, "")
  {
    Text.TrimEmptyIffBlank(searchTerm);
    Text.TrimEmptyIffBlank("");
  }
}
