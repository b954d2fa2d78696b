/** The search pipeline of the listing grid: the active filters
    (`filtrosAtivos`), `buscarEspacos`, `aplicarFiltros`, `ordenarEspacos`
    and the page slice taken before rendering (app.js:27-34, 693-772,
    838-841). */
module Pipeline {
  import opened Seqs
  import opened Text
  import opened Model

  const ITEMS_PER_PAGE: int := 9

  /** The category value that switches the category criterion off. */
  const ALL_CATEGORIES: Str := Lit("todos")

  /** `filtrosAtivos`. `ordenacao` stays the raw `<select>` value. */
  datatype Filters = Filters(
    categoria: Str,
    busca: Str,
    precoMin: real,
    precoMax: real,
    capacidadeMin: int,
    ordenacao: Str)

  /** The filters at page load. No control changes the price bounds or the
      minimum capacity. */
  function DefaultFilters(): (r: Filters)
    ensures forall l :: Matches(r, l) <==> 0.0 <= l.price <= 10000.0
    ensures ParseOrder(r.ordenacao) == Newest
  {
    Filters(ALL_CATEGORIES, [], 0.0, 10000.0, 0, Lit("recentes"))
  }

  /** The orders `ordenarEspacos` knows. */
  datatype SortOrder = PriceAsc | PriceDesc | BestRated | MostViewed | Newest

  /** The `switch` of `ordenarEspacos`: anything unknown sorts by recency. */
  function ParseOrder(s: Str): (o: SortOrder)
    ensures o == PriceAsc <==> s == Lit("preco-asc")
    ensures o == PriceDesc <==> s == Lit("preco-desc")
    ensures o == BestRated <==> s == Lit("avaliacao")
    ensures o == MostViewed <==> s == Lit("populares")
  {
    OrderNamesDistinct();
    if s == Lit("preco-asc") then PriceAsc
    else if s == Lit("preco-desc") then PriceDesc
    else if s == Lit("avaliacao") then BestRated
    else if s == Lit("populares") then MostViewed
    else Newest
  }

  lemma OrderNamesDistinct()
    ensures Lit("preco-asc") != Lit("preco-desc") && Lit("preco-asc") != Lit("avaliacao")
    ensures Lit("preco-asc") != Lit("populares") && Lit("preco-desc") != Lit("avaliacao")
    ensures Lit("preco-desc") != Lit("populares") && Lit("avaliacao") != Lit("populares")
  {
    assert Lit("preco-asc")[0] == 0x70 && Lit("preco-asc")[1] == 0x72;
    assert Lit("avaliacao")[0] == 0x61;
    assert Lit("populares")[1] == 0x6F;
  }

  // -----------------------------------------------------------------------
  // Filtering
  // -----------------------------------------------------------------------

  /** A non-empty field whose lower-cased text contains the term. */
  predicate FieldMentions(field: Str, term: Str) {
    |field| > 0 && Includes(ToLower(field), term)
  }

  /** The search criterion: the term occurs in the lower-cased title,
      description, address or city. */
  predicate MentionsTerm(l: Listing, term: Str) {
    FieldMentions(l.title, term) || FieldMentions(l.description, term)
    || FieldMentions(l.localizacao, term) || FieldMentions(l.city, term)
  }

  /** The four criteria of `aplicarFiltros` as one predicate: the reference
      the staged filtering is proved against. */
  predicate Matches(f: Filters, l: Listing) {
    && (f.categoria == ALL_CATEGORIES || l.category == f.categoria)
    && (|f.busca| == 0 || MentionsTerm(l, f.busca))
    && f.precoMin <= l.price <= f.precoMax
    && (f.capacidadeMin <= 0 || l.capacidade >= f.capacidadeMin)
  }

  function MatchesFn(f: Filters): Listing -> bool {
    (l: Listing) => Matches(f, l)
  }

  function InCategory(c: Str): Listing -> bool { (l: Listing) => l.category == c }
  function Mentions(term: Str): Listing -> bool { (l: Listing) => MentionsTerm(l, term) }
  function InPriceRange(lo: real, hi: real): Listing -> bool { (l: Listing) => lo <= l.price <= hi }
  function FitsCapacity(n: int): Listing -> bool { (l: Listing) => l.capacidade >= n }

  /** The criteria of the first `n` stages, in the order `aplicarFiltros`
      applies them. */
  function FirstStages(f: Filters, n: nat): Listing -> bool {
    (l: Listing) =>
      && (n < 1 || f.categoria == ALL_CATEGORIES || l.category == f.categoria)
      && (n < 2 || |f.busca| == 0 || MentionsTerm(l, f.busca))
      && (n < 3 || f.precoMin <= l.price <= f.precoMax)
      && (n < 4 || f.capacidadeMin <= 0 || l.capacidade >= f.capacidadeMin)
  }

  /** Adding one stage to a filtered sequence: filtering again when the
      stage is on, keeping the sequence when it is off. */
  lemma AddStage(s: seq<Listing>, before: Listing -> bool, on: bool, q: Listing -> bool,
                 after: Listing -> bool)
    requires forall l :: after(l) == (before(l) && (!on || q(l)))
    ensures (if on then Filter(Filter(s, before), q) else Filter(s, before)) == Filter(s, after)
  {
    if on {
      FilterFilter(s, before, q, after);
    } else {
      FilterExt(s, before, after);
    }
  }

  /** The four filter stages of `aplicarFiltros`, applied one after the
      other; the price stage is unconditional. The result is exactly the
      listings meeting every criterion, in storage order. */
  function FilterListings(s: seq<Listing>, f: Filters): (r: seq<Listing>)
    ensures r == Filter(s, MatchesFn(f))
    ensures forall l :: l in r <==> l in s && Matches(f, l)
  {
    var a := if f.categoria != ALL_CATEGORIES then Filter(s, InCategory(f.categoria)) else s;
    var b := if |f.busca| > 0 then Filter(a, Mentions(f.busca)) else a;
    var c := Filter(b, InPriceRange(f.precoMin, f.precoMax));
    var d := if f.capacidadeMin > 0 then Filter(c, FitsCapacity(f.capacidadeMin)) else c;
    StagesMatch(s, f, a, b, c, d);
    forall l | l in d ensures Matches(f, l) {
      var k :| 0 <= k < |d| && d[k] == l;
    }
    d
  }

  lemma StagesMatch(s: seq<Listing>, f: Filters, a: seq<Listing>, b: seq<Listing>,
                    c: seq<Listing>, d: seq<Listing>)
    requires a == if f.categoria != ALL_CATEGORIES then Filter(s, InCategory(f.categoria)) else s
    requires b == if |f.busca| > 0 then Filter(a, Mentions(f.busca)) else a
    requires c == Filter(b, InPriceRange(f.precoMin, f.precoMax))
    requires d == if f.capacidadeMin > 0 then Filter(c, FitsCapacity(f.capacidadeMin)) else c
    ensures d == Filter(s, MatchesFn(f))
  {
    FilterAll(s, FirstStages(f, 0));
    assert a == Filter(s, FirstStages(f, 1)) by {
      AddStage(s, FirstStages(f, 0), f.categoria != ALL_CATEGORIES, InCategory(f.categoria), FirstStages(f, 1));
    }
    assert b == Filter(s, FirstStages(f, 2)) by {
      AddStage(s, FirstStages(f, 1), |f.busca| > 0, Mentions(f.busca), FirstStages(f, 2));
    }
    assert c == Filter(s, FirstStages(f, 3)) by {
      AddStage(s, FirstStages(f, 2), true, InPriceRange(f.precoMin, f.precoMax), FirstStages(f, 3));
    }
    assert d == Filter(s, FirstStages(f, 4)) by {
      AddStage(s, FirstStages(f, 3), f.capacidadeMin > 0, FitsCapacity(f.capacidadeMin), FirstStages(f, 4));
    }
    FilterExt(s, FirstStages(f, 4), MatchesFn(f));
  }

  // -----------------------------------------------------------------------
  // Sorting
  // -----------------------------------------------------------------------

  /** Each order's comparator subtracts one key from another, so it sorts by
      a key: ascending price, descending price, descending rating,
      descending views, newest first. */
  function Key(o: SortOrder, l: Listing): real {
    match o
    case PriceAsc => l.price
    case PriceDesc => -l.price
    case BestRated => -l.rating
    case MostViewed => -(l.views as real)
    case Newest => -(l.createdAt as real)
  }

  ghost predicate SortedBy(o: SortOrder, s: seq<Listing>) {
    forall i, j :: 0 <= i < j < |s| ==> Key(o, s[i]) <= Key(o, s[j])
  }

  /** The listings whose key is `k`. */
  function KeyIs(o: SortOrder, k: real): Listing -> bool {
    (l: Listing) => Key(o, l) == k
  }

  /** Insert `x`, which came first in the input, before every element whose
      key is not smaller. */
  function Insert(o: SortOrder, x: Listing, s: seq<Listing>): (r: seq<Listing>)
    requires SortedBy(o, s)
    ensures SortedBy(o, r)
    ensures multiset(r) == multiset(s) + multiset{x}
    decreases |s|
  {
    if |s| == 0 || Key(o, x) <= Key(o, s[0]) then
      ConsSorted(o, x, s);
      [x] + s
    else
      var t := Insert(o, x, s[1..]);
      assert multiset(s) == multiset{s[0]} + multiset(s[1..]) by {
        assert s == [s[0]] + s[1..];
      }
      HeadBoundsInsert(o, x, s, t);
      ConsSorted(o, s[0], t);
      [s[0]] + t
  }

  /** A key no larger than every key of a sorted sequence can go in front. */
  lemma ConsSorted(o: SortOrder, a: Listing, t: seq<Listing>)
    requires SortedBy(o, t)
    requires forall j :: 0 <= j < |t| ==> Key(o, a) <= Key(o, t[j])
    ensures SortedBy(o, [a] + t)
  {
    var r := [a] + t;
    forall i, j | 0 <= i < j < |r| ensures Key(o, r[i]) <= Key(o, r[j]) {
      assert r[j] == t[j - 1];
      if i > 0 { assert r[i] == t[i - 1]; }
    }
  }

  /** The head of a sorted sequence bounds the keys of the rest with a
      larger element inserted. */
  lemma HeadBoundsInsert(o: SortOrder, x: Listing, s: seq<Listing>, t: seq<Listing>)
    requires SortedBy(o, s) && |s| > 0 && Key(o, s[0]) < Key(o, x)
    requires multiset(t) == multiset(s[1..]) + multiset{x}
    ensures forall j :: 0 <= j < |t| ==> Key(o, s[0]) <= Key(o, t[j])
  {
    forall j | 0 <= j < |t| ensures Key(o, s[0]) <= Key(o, t[j]) {
      assert t[j] in multiset(t);
      if t[j] != x {
        assert t[j] in multiset(s[1..]);
        var m :| 0 <= m < |s[1..]| && s[1..][m] == t[j];
        assert s[m + 1] == t[j];
      }
    }
  }

  /** `Array.prototype.sort` with the comparator of `o`: the result is a
      permutation ordered by the key. Stability is `SortByStable`. */
  function SortBy(o: SortOrder, s: seq<Listing>): (r: seq<Listing>)
    ensures SortedBy(o, r)
    ensures multiset(r) == multiset(s)
    decreases |s|
  {
    if |s| == 0 then []
    else
      var t := SortBy(o, s[1..]);
      assert multiset(s) == multiset{s[0]} + multiset(s[1..]) by {
        assert s == [s[0]] + s[1..];
      }
      Insert(o, s[0], t)
  }

  /** The sort is stable, as `Array.prototype.sort` is since ECMAScript
      2019: the listings with any one key value appear in the output in
      their input order. */
  lemma {:induction false} SortByStable(o: SortOrder, s: seq<Listing>, k: real)
    ensures Filter(SortBy(o, s), KeyIs(o, k)) == Filter(s, KeyIs(o, k))
    decreases |s|
  {
    if |s| > 0 {
      SortByStable(o, s[1..], k);
      InsertKeepsEqualKeys(o, s[0], SortBy(o, s[1..]), k);
      FilterCons(s, KeyIs(o, k));
    }
  }

  lemma FilterCons(s: seq<Listing>, p: Listing -> bool)
    requires |s| > 0
    ensures Filter(s, p) == (if p(s[0]) then [s[0]] else []) + Filter(s[1..], p)
  {
  }

  lemma FilterSingle(x: Listing, p: Listing -> bool)
    ensures Filter([x], p) == if p(x) then [x] else []
  {
    assert [x][1..] == [];
  }

  /** Among the listings with key `k`, an inserted `x` comes first. */
  lemma {:induction false} InsertKeepsEqualKeys(o: SortOrder, x: Listing, s: seq<Listing>, k: real)
    requires SortedBy(o, s)
    ensures Filter(Insert(o, x, s), KeyIs(o, k))
            == (if Key(o, x) == k then [x] else []) + Filter(s, KeyIs(o, k))
    decreases |s|
  {
    var p := KeyIs(o, k);
    var hx := if p(x) then [x] else [];
    if |s| == 0 || Key(o, x) <= Key(o, s[0]) {
      calc {
        Filter(Insert(o, x, s), p);
        Filter([x] + s, p);
        { FilterConcat([x], s, p); }
        Filter([x], p) + Filter(s, p);
        { FilterSingle(x, p); }
        hx + Filter(s, p);
      }
    } else {
      InsertKeepsEqualKeys(o, x, s[1..], k);
      InsertPastHead(o, x, s, k);
    }
  }

  /** The step of `InsertKeepsEqualKeys` when `x` goes past the head. */
  lemma InsertPastHead(o: SortOrder, x: Listing, s: seq<Listing>, k: real)
    requires SortedBy(o, s) && |s| > 0 && SortedBy(o, s[1..]) && Key(o, x) > Key(o, s[0])
    requires Filter(Insert(o, x, s[1..]), KeyIs(o, k))
             == (if Key(o, x) == k then [x] else []) + Filter(s[1..], KeyIs(o, k))
    ensures Filter(Insert(o, x, s), KeyIs(o, k))
            == (if Key(o, x) == k then [x] else []) + Filter(s, KeyIs(o, k))
  {
    var p := KeyIs(o, k);
    var t := Insert(o, x, s[1..]);
    InsertPast(o, x, s);
    FilterConcat([s[0]], t, p);
    FilterSingle(s[0], p);
    FilterSingle(x, p);
    SwapEmpty(Filter([s[0]], p), Filter([x], p), Filter(s[1..], p));
    FilterCons(s, p);
  }

  /** Two pieces of which one is empty can be put in either order. */
  lemma SwapEmpty<T>(a: seq<T>, b: seq<T>, c: seq<T>)
    requires a == [] || b == []
    ensures a + (b + c) == b + (a + c)
  {
    if a == [] {
      assert a + (b + c) == b + c;
      assert a + c == c;
    } else {
      assert b + c == c;
      assert b + (a + c) == a + c;
    }
  }

  /** `ordenarEspacos`. */
  function OrdenarEspacos(s: seq<Listing>, ordenacao: Str): (r: seq<Listing>)
    ensures multiset(r) == multiset(s)
    ensures ParseOrder(ordenacao) == PriceAsc ==>
      forall i, j :: 0 <= i < j < |r| ==> r[i].price <= r[j].price
    ensures ParseOrder(ordenacao) == PriceDesc ==>
      forall i, j :: 0 <= i < j < |r| ==> r[i].price >= r[j].price
    ensures ParseOrder(ordenacao) == BestRated ==>
      forall i, j :: 0 <= i < j < |r| ==> r[i].rating >= r[j].rating
    ensures ParseOrder(ordenacao) == MostViewed ==>
      forall i, j :: 0 <= i < j < |r| ==> r[i].views >= r[j].views
    ensures ParseOrder(ordenacao) == Newest ==>
      forall i, j :: 0 <= i < j < |r| ==> r[i].createdAt >= r[j].createdAt
    ensures forall k :: Filter(r, KeyIs(ParseOrder(ordenacao), k)) == Filter(s, KeyIs(ParseOrder(ordenacao), k))
  {
    var o := ParseOrder(ordenacao);
    var r := SortBy(o, s);
    assert forall i, j :: 0 <= i < j < |r| ==> Key(o, r[i]) <= Key(o, r[j]);
    forall k ensures Filter(r, KeyIs(o, k)) == Filter(s, KeyIs(o, k)) {
      SortByStable(o, s, k);
    }
    r
  }

  /** `aplicarFiltros` up to rendering: the matching listings, sorted. */
  function AplicarFiltros(st: State, f: Filters): (r: seq<Listing>)
    ensures multiset(r) == multiset(Filter(st.listings, MatchesFn(f)))
    ensures forall l :: l in r <==> l in st.listings && Matches(f, l)
    ensures SortedBy(ParseOrder(f.ordenacao), r)
    ensures forall k :: Filter(r, KeyIs(ParseOrder(f.ordenacao), k))
                        == Filter(FilterListings(st.listings, f), KeyIs(ParseOrder(f.ordenacao), k))
  {
    var m := FilterListings(st.listings, f);
    var o := ParseOrder(f.ordenacao);
    var r := SortBy(o, m);
    SameMembers(m, r);
    forall k ensures Filter(r, KeyIs(o, k)) == Filter(m, KeyIs(o, k)) {
      SortByStable(o, m, k);
    }
    r
  }

  lemma SameMembers(a: seq<Listing>, b: seq<Listing>)
    requires multiset(a) == multiset(b)
    ensures forall x :: x in a <==> x in b
  {
    forall x ensures x in a <==> x in b {
      assert x in a <==> x in multiset(a);
      assert x in b <==> x in multiset(b);
    }
  }

  /** `filtrarEspacos`: stores the chosen category. */
  function FiltrarEspacos(f: Filters, categoria: Str): (g: Filters)
    ensures g.categoria == categoria
    ensures g.(categoria := f.categoria) == f
  {
    f.(categoria := categoria)
  }

  /** A category button shows only listings of that category, and the
      "todos" button shows every listing any single category would show. */
  lemma CategoryButtons(st: State, f: Filters, c: Str)
    requires c != ALL_CATEGORIES
    ensures forall l :: l in AplicarFiltros(st, FiltrarEspacos(f, c)) ==> l.category == c
    ensures forall l :: l in AplicarFiltros(st, FiltrarEspacos(f, c)) ==>
      l in AplicarFiltros(st, FiltrarEspacos(f, ALL_CATEGORIES))
  {
  }

  /** `buscarEspacos`: stores the lower-cased term. */
  function BuscarEspacos(f: Filters, termo: Str): (g: Filters)
    ensures g.busca == ToLower(termo)
    ensures g.(busca := f.busca) == f
  {
    f.(busca := ToLower(termo))
  }

  // -----------------------------------------------------------------------
  // Pagination
  // -----------------------------------------------------------------------

  /** The listings of page `page` (1-based): the nine positions starting at
      nine times the number of earlier pages, clipped as `slice` clips. */
  function Page(s: seq<Listing>, page: int): (r: seq<Listing>)
    ensures |r| <= ITEMS_PER_PAGE
    ensures page >= 1 ==>
      r == s[Min((page - 1) * ITEMS_PER_PAGE, |s|)..Min(page * ITEMS_PER_PAGE, |s|)]
  {
    var start := (page - 1) * ITEMS_PER_PAGE;
    JsSlice(s, start, start + ITEMS_PER_PAGE)
  }

  /** The number of nine-listing pages, the last one possibly partial. */
  function TotalPages(n: nat): (t: nat)
    ensures (t - 1) * ITEMS_PER_PAGE < n || t == 0
    ensures n <= t * ITEMS_PER_PAGE
  {
    (n + ITEMS_PER_PAGE - 1) / ITEMS_PER_PAGE
  }

  /** The pages 1..n, one after the other. */
  function Pages(s: seq<Listing>, n: nat): seq<Listing> {
    if n == 0 then [] else Pages(s, n - 1) + Page(s, n)
  }

  lemma {:induction false} PagesPrefix(s: seq<Listing>, n: nat)
    ensures Pages(s, n) == s[..Min(n * ITEMS_PER_PAGE, |s|)]
  {
    if n > 0 {
      PagesPrefix(s, n - 1);
      var a := Min((n - 1) * ITEMS_PER_PAGE, |s|);
      var b := Min(n * ITEMS_PER_PAGE, |s|);
      assert s[..b] == s[..a] + s[a..b];
    }
  }

  /** Reading pages 1 to `TotalPages` in turn shows every listing exactly
      once, in order, and every one of those pages is non-empty; pages past
      the last one are empty. */
  lemma PagesCover(s: seq<Listing>)
    ensures Pages(s, TotalPages(|s|)) == s
    ensures forall p :: 1 <= p <= TotalPages(|s|) ==> |Page(s, p)| > 0
    ensures forall p :: p > TotalPages(|s|) ==> Page(s, p) == []
  {
    PagesPrefix(s, TotalPages(|s|));
  }

  /** `renderizarPaginacao` draws the controls only when there is more than
      one page, that is when more than nine listings match. */
  lemma PagerShownIff(n: nat)
    ensures TotalPages(n) > 1 <==> n > ITEMS_PER_PAGE
  {
  }

  // -----------------------------------------------------------------------
  // Properties of the search
  // -----------------------------------------------------------------------

  lemma LowerKeepsOccurrence(hay: Str, needle: Str, i: int)
    requires OccursAt(hay, needle, i)
    ensures OccursAt(ToLower(hay), ToLower(needle), i)
  {
    var h := ToLower(hay);
    var n := ToLower(needle);
    forall j | 0 <= j < |needle| ensures h[i..i + |needle|][j] == n[j] {
      assert hay[i..i + |needle|][j] == needle[j];
    }
  }

  /** Typing any part of a listing's title into the search box, in any mix of
      upper and lower case, keeps the listing among the results. */
  lemma SearchFindsTitle(st: State, f: Filters, termo: Str, k: int)
    requires 0 <= k < |st.listings|
    requires |termo| > 0 && Includes(st.listings[k].title, termo)
    requires Matches(f.(busca := []), st.listings[k])
    ensures st.listings[k] in AplicarFiltros(st, BuscarEspacos(f, termo))
  {
    var l := st.listings[k];
    var g := BuscarEspacos(f, termo);
    var i :| OccursAt(l.title, termo, i);
    LowerKeepsOccurrence(l.title, termo, i);
    assert Includes(ToLower(l.title), g.busca);
    assert MentionsTerm(l, g.busca);
    assert Matches(g, l);
    assert l in st.listings;
  }

  /** Lower-casing reaches the Latin-1 capitals: a search for "são" finds a
      listing whose city is written "SÃO PAULO". */
  lemma AccentedCityFound(l: Listing)
    requires l.city == Lit("SÃO PAULO")
    ensures MentionsTerm(l, ToLower(Lit("são")))
  {
    var city := ToLower(l.city);
    var term := ToLower(Lit("são"));
    assert city[0..3] == term;
    assert OccursAt(city, term, 0);
  }

  /** The price criterion is always on: with the filters of page load, a
      listing priced above 10000 is never shown, whatever the search. */
  lemma ExpensiveListingHidden(st: State, termo: Str, l: Listing)
    requires l.price > 10000.0
    ensures l !in AplicarFiltros(st, BuscarEspacos(DefaultFilters(), termo))
  {
  }

  /** Applying the same filters to their own result changes nothing. */
  lemma FilterListingsIdempotent(s: seq<Listing>, f: Filters)
    ensures FilterListings(FilterListings(s, f), f) == FilterListings(s, f)
  {
    var r := FilterListings(s, f);
    FilterAll(r, MatchesFn(f));
  }

  /** Twenty matches make three pages: items 1-9, 10-18 and 19-20; the
      fourth page is empty. */
  lemma TwentyItemPages(s: seq<Listing>)
    requires |s| == 20
    ensures TotalPages(|s|) == 3
    ensures Page(s, 1) == s[..9] && Page(s, 2) == s[9..18] && Page(s, 3) == s[18..]
    ensures Page(s, 4) == []
  {
  }

  /** Ascending price on prices 50, 10, 30, 10 gives 10, 10, 30, 50, the
      two listings at 10 in their input order. */
  lemma PriceAscExample(la: Listing, lb: Listing, lc: Listing, ld: Listing)
    requires la.price == 50.0 && lb.price == 10.0 && lc.price == 30.0 && ld.price == 10.0
    ensures SortBy(PriceAsc, [la, lb, lc, ld]) == [lb, ld, lc, la]
  {
    assert [la, lb, lc, ld][1..] == [lb, lc, ld];
    SortThreeExample(lb, lc, ld);
    SortCons(PriceAsc, [la, lb, lc, ld]);
    InsertFiftyLast(la, lb, ld, lc);
  }

  lemma SortTwoExample(lc: Listing, ld: Listing)
    requires lc.price == 30.0 && ld.price == 10.0
    ensures SortBy(PriceAsc, [lc, ld]) == [ld, lc]
  {
    assert [lc, ld][1..] == [ld];
    assert [ld][1..] == [];
    assert [ld] + [] == [ld];
    SortCons(PriceAsc, [ld]);
    InsertFront(PriceAsc, ld, []);
    SortCons(PriceAsc, [lc, ld]);
    InsertPast(PriceAsc, lc, [ld]);
    InsertFront(PriceAsc, lc, []);
  }

  lemma SortThreeExample(lb: Listing, lc: Listing, ld: Listing)
    requires lb.price == 10.0 && lc.price == 30.0 && ld.price == 10.0
    ensures SortBy(PriceAsc, [lb, lc, ld]) == [lb, ld, lc]
  {
    assert [lb, lc, ld][1..] == [lc, ld];
    assert [lb] + [ld, lc] == [lb, ld, lc];
    SortTwoExample(lc, ld);
    SortCons(PriceAsc, [lb, lc, ld]);
    InsertFront(PriceAsc, lb, [ld, lc]);
  }

  lemma InsertFiftyLast(la: Listing, lb: Listing, ld: Listing, lc: Listing)
    requires la.price == 50.0 && lb.price == 10.0 && lc.price == 30.0 && ld.price == 10.0
    ensures SortedBy(PriceAsc, [lb, ld, lc])
    ensures Insert(PriceAsc, la, [lb, ld, lc]) == [lb, ld, lc, la]
  {
    assert [lb, ld, lc][1..] == [ld, lc];
    assert [lb] + [ld, lc, la] == [lb, ld, lc, la];
    InsertFiftyTwo(la, ld, lc);
    InsertPast(PriceAsc, la, [lb, ld, lc]);
  }

  lemma InsertFiftyTwo(la: Listing, ld: Listing, lc: Listing)
    requires la.price == 50.0 && lc.price == 30.0 && ld.price == 10.0
    ensures Insert(PriceAsc, la, [ld, lc]) == [ld, lc, la]
  {
    assert [ld, lc][1..] == [lc];
    assert [ld] + [lc, la] == [ld, lc, la];
    InsertFiftyOne(la, lc);
    InsertPast(PriceAsc, la, [ld, lc]);
  }

  lemma InsertFiftyOne(la: Listing, lc: Listing)
    requires la.price == 50.0 && lc.price == 30.0
    ensures Insert(PriceAsc, la, [lc]) == [lc, la]
  {
    assert [lc][1..] == [];
    assert [lc] + [la] == [lc, la];
    InsertPast(PriceAsc, la, [lc]);
    InsertFront(PriceAsc, la, []);
  }

  lemma SortCons(o: SortOrder, s: seq<Listing>)
    requires |s| > 0
    ensures SortBy(o, s) == Insert(o, s[0], SortBy(o, s[1..]))
  {
  }

  lemma InsertFront(o: SortOrder, x: Listing, t: seq<Listing>)
    requires SortedBy(o, t)
    requires |t| == 0 || Key(o, x) <= Key(o, t[0])
    ensures Insert(o, x, t) == [x] + t
  {
  }

  lemma InsertPast(o: SortOrder, x: Listing, s: seq<Listing>)
    requires SortedBy(o, s) && |s| > 0
    requires Key(o, s[0]) < Key(o, x)
    ensures SortedBy(o, s[1..])
    ensures Insert(o, x, s) == [s[0]] + Insert(o, x, s[1..])
  {
  }
}
