/** The listing repository: `getListings`, `saveListing`, `deleteListing`,
    `getUserListings`, `getListingById` and `incrementViews`
    (app.js:375-504). */
module Listings {
  import opened Seqs
  import opened Text
  import opened Model
  import Favorites

  const MAX_IMAGES: nat := 10
  const DEFAULT_CAPACITY: int := 10
  const MULTIUSO: Str := Lit("multiuso")
  const HORA: Str := Lit("hora")
  const ACTIVE: Str := Lit("active")
  const PLACEHOLDER_IMAGE: Str := Lit("https://images.unsplash.com/photo-1497366216548-37526070297c?w=800")

  /** `getListings`: the stored collection in storage order. */
  function GetListings(st: State): seq<Listing> {
    st.listings
  }

  /** Keeps every listing whose id differs from `id`. */
  function OtherId(id: Str): Listing -> bool {
    (l: Listing) => l.id != id
  }

  /** A string field, or the fallback when the field is empty (JavaScript treats the empty string as false). */
  function OrDefault(s: Str, fallback: Str): (r: Str)
    ensures s != [] ==> r == s
    ensures s == [] ==> r == fallback
  {
    if s != [] then s else fallback
  }

  /** The record `saveListing` builds from its input (app.js:412-436):
      strings sanitised, optional fields defaulted, images clipped to ten
      or replaced by the placeholder, owner taken from the session. */
  function Complete(input: ListingInput, who: SessionUser, env: Env): (l: Listing)
    ensures l.id == (if input.id != [] then input.id else env.newId)
    ensures 1 <= |l.imagens| <= MAX_IMAGES
    ensures input.imagens == [] ==> l.imagens == [PLACEHOLDER_IMAGE]
    ensures input.imagens != [] ==>
      |l.imagens| == Min(|input.imagens|, MAX_IMAGES) && l.imagens == input.imagens[..|l.imagens|]
    ensures l.capacidade != 0
    ensures input.capacidade.Some? && input.capacidade.value != 0 ==> l.capacidade == input.capacidade.value
    ensures input.capacidade.None? || input.capacidade.value == 0 ==> l.capacidade == DEFAULT_CAPACITY
    ensures l.category != [] && l.periodo != [] && l.status != []
    ensures input.category != [] ==> l.category == input.category
    ensures input.periodo != [] ==> l.periodo == input.periodo
    ensures input.status != [] ==> l.status == input.status
    ensures l.title == env.sanitize(input.title) && l.description == env.sanitize(input.description)
    ensures l.city == env.sanitize(input.city) && l.whatsapp == env.sanitize(input.whatsapp)
    ensures l.recursos == input.recursos
    ensures input.category == [] ==> l.category == MULTIUSO
    ensures input.periodo == [] ==> l.periodo == HORA
    ensures input.status == [] ==> l.status == ACTIVE
    ensures l.localizacao == env.sanitize(if input.localizacao != [] then input.localizacao else input.city)
    ensures l.userId == who.id && l.userName == who.name
    ensures l.price == input.price && l.updatedAt == env.now
    ensures l.createdAt == (if input.createdAt.Some? then input.createdAt.value else env.now)
    ensures l.views == input.views && l.reviews == input.reviews
    ensures l.rating == input.rating && l.reviewCount == input.reviewCount
  {
    Listing(
      id := OrDefault(input.id, env.newId),
      title := env.sanitize(input.title),
      description := env.sanitize(input.description),
      category := OrDefault(input.category, MULTIUSO),
      price := input.price,
      periodo := OrDefault(input.periodo, HORA),
      city := env.sanitize(input.city),
      localizacao := env.sanitize(OrDefault(input.localizacao, input.city)),
      capacidade := if input.capacidade.Some? && input.capacidade.value != 0
                    then input.capacidade.value else DEFAULT_CAPACITY,
      imagens := if |input.imagens| > 0 then JsSlice(input.imagens, 0, MAX_IMAGES)
                 else [PLACEHOLDER_IMAGE],
      recursos := input.recursos,
      whatsapp := env.sanitize(input.whatsapp),
      userId := who.id,
      userName := who.name,
      createdAt := if input.createdAt.Some? then input.createdAt.value else env.now,
      updatedAt := env.now,
      views := input.views,
      rating := input.rating,
      reviewCount := input.reviewCount,
      reviews := input.reviews,
      status := OrDefault(input.status, ACTIVE))
  }

  /** The field checks of `saveListing`, all passed. */
  predicate FieldsValid(input: ListingInput, env: Env) {
    |input.title| >= 5 && |input.description| >= 20 && input.price > 0.0
    && |input.city| >= 3 && input.whatsapp != [] && env.isPhone(input.whatsapp)
  }

  /** `saveListing`: needs a session, checks the fields in order, refuses to
      overwrite another user's listing, then replaces the listing with the
      same id in place or appends a new one. An id that names no stored
      listing still yields the record but stores nothing. */
  function SaveListing(st: State, input: ListingInput, env: Env): (r: Step<Listing>)
    ensures r.out.Fail? ==> r.state == st
    ensures r.out == Fail(NotLoggedIn) <==> st.session.None?
    ensures r.out == Fail(TitleTooShort) <==> st.session.Some? && |input.title| < 5
    ensures r.out == Fail(DescriptionTooShort) <==>
      st.session.Some? && |input.title| >= 5 && |input.description| < 20
    ensures r.out == Fail(InvalidPrice) <==>
      st.session.Some? && |input.title| >= 5 && |input.description| >= 20 && input.price <= 0.0
    ensures r.out == Fail(InvalidCity) <==>
      st.session.Some? && |input.title| >= 5 && |input.description| >= 20 && input.price > 0.0
      && |input.city| < 3
    ensures r.out == Fail(InvalidPhone) <==>
      st.session.Some? && |input.title| >= 5 && |input.description| >= 20 && input.price > 0.0
      && |input.city| >= 3 && (input.whatsapp == [] || !env.isPhone(input.whatsapp))
    ensures var i := ListingIndex(st.listings, input.id);
      r.out == Fail(Forbidden) <==>
        st.session.Some? && FieldsValid(input, env) && input.id != []
        && i >= 0 && st.listings[i].userId != st.session.value.id
    ensures var i := ListingIndex(st.listings, input.id);
      r.out.Ok? <==>
        st.session.Some? && FieldsValid(input, env)
        && !(input.id != [] && i >= 0 && st.listings[i].userId != st.session.value.id)
    ensures r.out.Ok? ==> r.out.value == Complete(input, st.session.value, env)
    ensures r.out.Ok? && input.id == [] ==> r.state.listings == st.listings + [r.out.value]
    ensures var i := ListingIndex(st.listings, input.id);
      r.out.Ok? && input.id != [] && i >= 0 ==>
        st.listings[i].userId == st.session.value.id
        && r.state.listings == st.listings[i := r.out.value]
    ensures r.out.Ok? && input.id != [] && ListingIndex(st.listings, input.id) == -1 ==> r.state == st
    ensures r.state.users == st.users && r.state.session == st.session && r.state.stored == st.stored
  {
    if st.session.None? then Step(st, Fail(NotLoggedIn))
    else if |input.title| < 5 then Step(st, Fail(TitleTooShort))
    else if |input.description| < 20 then Step(st, Fail(DescriptionTooShort))
    else if input.price <= 0.0 then Step(st, Fail(InvalidPrice))
    else if |input.city| < 3 then Step(st, Fail(InvalidCity))
    else if input.whatsapp == [] || !env.isPhone(input.whatsapp) then Step(st, Fail(InvalidPhone))
    else
      var who := st.session.value;
      var l := Complete(input, who, env);
      if input.id != [] then
        var i := ListingIndex(st.listings, input.id);
        if i == -1 then Step(st, Ok(l))
        else if st.listings[i].userId != who.id then Step(st, Fail(Forbidden))
        else Step(st.(listings := st.listings[i := l]), Ok(l))
      else
        Step(st.(listings := st.listings + [l]), Ok(l))
  }

  /** `deleteListing`: needs a session and a stored listing with that id
      owned by the session user. It drops every listing with the id, keeping
      the others in order, and removes the id from every stored user's
      favourites. The in-memory session is left as it was. */
  function DeleteListing(st: State, id: Str): (r: Step<()>)
    ensures r.out.Fail? ==> r.state == st
    ensures r.out == Fail(NotLoggedIn) <==> st.session.None?
    ensures r.out == Fail(ListingNotFound) <==> st.session.Some? && !HasListing(st.listings, id)
    ensures var i := ListingIndex(st.listings, id);
      r.out == Fail(Forbidden) <==>
        st.session.Some? && i >= 0 && st.listings[i].userId != st.session.value.id
    ensures var i := ListingIndex(st.listings, id);
      r.out.Ok? <==>
        st.session.Some? && i >= 0 && st.listings[i].userId == st.session.value.id
    ensures r.out.Ok? ==>
      && (forall k :: 0 <= k < |r.state.listings| ==> r.state.listings[k].id != id)
      && (forall k :: 0 <= k < |st.listings| && st.listings[k].id != id ==> st.listings[k] in r.state.listings)
      && (forall k :: 0 <= k < |r.state.listings| ==> r.state.listings[k] in st.listings)
      && r.state.listings == Filter(st.listings, OtherId(id))
      && |r.state.users| == |st.users|
      && (forall j :: 0 <= j < |st.users| ==> id !in r.state.users[j].favorites)
      && (forall j, f :: 0 <= j < |st.users| && f != id ==>
            (f in r.state.users[j].favorites <==> f in st.users[j].favorites))
      && (forall j :: 0 <= j < |st.users| ==>
            r.state.users[j] == st.users[j].(favorites := r.state.users[j].favorites))
      && r.state.users == Favorites.RemoveFavoriteGlobally(st.users, id)
    ensures r.state.session == st.session && r.state.stored == st.stored
  {
    if st.session.None? then Step(st, Fail(NotLoggedIn))
    else
      var i := ListingIndex(st.listings, id);
      if i == -1 then Step(st, Fail(ListingNotFound))
      else if st.listings[i].userId != st.session.value.id then Step(st, Fail(Forbidden))
      else
        var listings' := Filter(st.listings, OtherId(id));
        assert forall k :: 0 <= k < |listings'| ==> OtherId(id)(listings'[k]);
        Step(st.(listings := listings', users := Favorites.RemoveFavoriteGlobally(st.users, id)), Ok(()))
  }

  /** `getUserListings`: the stored listings owned by the session user. */
  function GetUserListings(st: State): (r: seq<Listing>)
    ensures st.session.None? ==> r == []
    ensures forall k :: 0 <= k < |r| ==> r[k] in st.listings && r[k].userId == st.session.value.id
    ensures st.session.Some? ==>
      forall k :: 0 <= k < |st.listings| && st.listings[k].userId == st.session.value.id ==>
        st.listings[k] in r
    ensures st.session.Some? ==>
      forall l :: multiset(r)[l] ==
        if l.userId == st.session.value.id then multiset(st.listings)[l] else 0
  {
    match st.session
    case None => []
    case Some(s) =>
      var owned := (l: Listing) => l.userId == s.id;
      FilterCounts(st.listings, owned);
      Filter(st.listings, owned)
  }

  /** `getListingById`: the first listing with the id. */
  function GetListingById(st: State, id: Str): (r: Option<Listing>)
    ensures r.None? <==> !HasListing(st.listings, id)
    ensures r.Some? ==> r.value == st.listings[ListingIndex(st.listings, id)] && r.value.id == id
  {
    var i := ListingIndex(st.listings, id);
    if i == -1 then None else Some(st.listings[i])
  }

  /** `incrementViews`: one more view on the first listing with the id; an
      unknown id changes nothing. */
  function IncrementViews(st: State, id: Str): (r: State)
    ensures !HasListing(st.listings, id) ==> r == st
    ensures |r.listings| == |st.listings|
    ensures var i := ListingIndex(st.listings, id);
      i >= 0 ==> r.listings == st.listings[i := st.listings[i].(views := st.listings[i].views + 1)]
    ensures r.users == st.users && r.session == st.session && r.stored == st.stored
  {
    var i := ListingIndex(st.listings, id);
    if i == -1 then st
    else
      var l := st.listings[i];
      st.(listings := st.listings[i := l.(views := l.views + 1)])
  }

  // -----------------------------------------------------------------------
  // Properties relating several operations
  // -----------------------------------------------------------------------

  /** Deleting a listing never leaves a favourite pointing at a listing that
      is gone: if every favourite resolved before, every one resolves after. */
  lemma DeleteKeepsFavoritesResolved(st: State, id: Str)
    requires FavoritesResolve(st)
    ensures FavoritesResolve(DeleteListing(st, id).state)
  {
    var r := DeleteListing(st, id);
    if r.out.Ok? {
      var st' := r.state;
      forall j, k | 0 <= j < |st'.users| && 0 <= k < |st'.users[j].favorites|
        ensures HasListing(st'.listings, st'.users[j].favorites[k])
      {
        var f := st'.users[j].favorites[k];
        assert f != id;
        assert f in st.users[j].favorites;
        var k0 :| 0 <= k0 < |st.users[j].favorites| && st.users[j].favorites[k0] == f;
        var m :| 0 <= m < |st.listings| && st.listings[m].id == f;
        assert st.listings[m] in st'.listings;
        var m' :| 0 <= m' < |st'.listings| && st'.listings[m'] == st.listings[m];
      }
    }
  }

  /** After a delete the id resolves to nothing and the favourites page no
      longer shows it, even though the in-memory session may still list it. */
  lemma DeleteHidesListing(st: State, id: Str)
    requires DeleteListing(st, id).out.Ok?
    ensures var st' := DeleteListing(st, id).state;
            && GetListingById(st', id).None?
            && (forall k :: 0 <= k < |Favorites.GetFavorites(st')| ==> Favorites.GetFavorites(st')[k].id != id)
            && Favorites.IsFavorite(st', id) == Favorites.IsFavorite(st, id)
  {
  }

  /** Creating and editing keep listing ids unique when the generated id is
      fresh. */
  lemma SaveKeepsIdsUnique(st: State, input: ListingInput, env: Env)
    requires UniqueListingIds(st.listings)
    requires !HasListing(st.listings, env.newId)
    ensures UniqueListingIds(SaveListing(st, input, env).state.listings)
  {
    var r := SaveListing(st, input, env);
    if r.out.Ok? {
      var ls := r.state.listings;
      if input.id == [] {
        forall a, b | 0 <= a < b < |ls| ensures ls[a].id != ls[b].id {
          assert ls[a] == st.listings[a];
          if b < |st.listings| { assert ls[b] == st.listings[b]; }
        }
      } else {
        var i := ListingIndex(st.listings, input.id);
        if i >= 0 {
          forall a | 0 <= a < |ls| ensures ls[a].id == st.listings[a].id {
          }
        }
      }
    }
  }

  /** A newly created listing can be fetched by its id and shows up among
      the creator's listings. */
  lemma CreateThenFind(st: State, input: ListingInput, env: Env)
    requires !HasListing(st.listings, env.newId)
    requires input.id == [] && SaveListing(st, input, env).out.Ok?
    ensures var r := SaveListing(st, input, env);
            && GetListingById(r.state, env.newId) == Some(r.out.value)
            && r.out.value in GetUserListings(r.state)
  {
    var r := SaveListing(st, input, env);
    var n := |st.listings|;
    assert r.state.listings[n] == r.out.value;
    assert forall k :: 0 <= k < n ==> r.state.listings[k] == st.listings[k];
  }

  /** Recording a view never lowers any listing's view count. */
  lemma ViewsNeverDecrease(st: State, id: Str)
    ensures var r := IncrementViews(st, id);
            forall k :: 0 <= k < |st.listings| ==> r.listings[k].views >= st.listings[k].views
  {
  }

  /** The views recorded over all stored listings. */
  function TotalViews(ls: seq<Listing>): int
    decreases |ls|
  {
    if |ls| == 0 then 0 else ls[0].views + TotalViews(ls[1..])
  }

  /** Replacing one listing changes the total by the difference in views. */
  lemma {:induction false} TotalViewsUpdate(ls: seq<Listing>, i: nat, l: Listing)
    requires i < |ls|
    ensures TotalViews(ls[i := l]) == TotalViews(ls) - ls[i].views + l.views
    decreases |ls|
  {
    if i > 0 {
      assert ls[i := l][1..] == ls[1..][i - 1 := l];
      TotalViewsUpdate(ls[1..], i - 1, l);
    }
  }

  /** Each call records exactly one view in total when the id is stored,
      and none otherwise. */
  lemma IncrementViewsCountsOne(st: State, id: Str)
    ensures TotalViews(IncrementViews(st, id).listings)
            == TotalViews(st.listings) + (if HasListing(st.listings, id) then 1 else 0)
  {
    var i := ListingIndex(st.listings, id);
    if i >= 0 {
      var l := st.listings[i];
      TotalViewsUpdate(st.listings, i, l.(views := l.views + 1));
    }
  }
}
