/** Per-user favourites: `toggleFavorite`, `isFavorite`, `getFavorites` and
    the cascade `removeFavoriteGlobally` (app.js:512-566). */
module Favorites {
  import opened Seqs
  import opened Text
  import opened Model

  /** Keeps every favourite other than `id`. */
  function Except(id: Str): Str -> bool {
    f => f != id
  }

  /** The stored user's favourites carry no id twice. */
  ghost predicate NoDuplicates(favs: seq<Str>) {
    forall a, b :: 0 <= a < b < |favs| ==> favs[a] != favs[b]
  }

  /** The session's favourites mirror the stored record of the same user. */
  ghost predicate SessionInSync(st: State) {
    st.session.Some? &&
    var i := UserIndex(st.users, st.session.value.id);
    i >= 0 && st.session.value.favorites == st.users[i].favorites
  }

  /** `removeFavoriteGlobally`: every user whose favourites include the id
      gets them filtered; nothing else about any user changes. */
  function RemoveFavoriteGlobally(users: seq<User>, id: Str): (r: seq<User>)
    ensures |r| == |users|
    ensures forall j :: 0 <= j < |r| ==> id !in r[j].favorites
    ensures forall j :: 0 <= j < |r| ==>
      r[j] == users[j].(favorites := Filter(users[j].favorites, Except(id)))
    ensures forall j, f :: 0 <= j < |r| && f != id ==>
      (f in r[j].favorites <==> f in users[j].favorites)
  {
    seq(|users|, j requires 0 <= j < |users| => DropFavorite(users[j], id))
  }

  /** One user of the cascade: filtered only when the id is present. */
  function DropFavorite(u: User, id: Str): (v: User)
    ensures v == u.(favorites := Filter(u.favorites, Except(id)))
  {
    if id in u.favorites then u.(favorites := Filter(u.favorites, Except(id)))
    else
      FilterAll(u.favorites, Except(id));
      u
  }

  /** The favourites after one toggle of `id`: appended when absent, first
      occurrence spliced out when present. */
  function Toggled(favs: seq<Str>, id: Str): (r: seq<Str>)
    ensures id !in favs ==> r == favs + [id]
    ensures id in favs ==> multiset(r) == multiset(favs) - multiset{id}
    ensures id in favs ==>
      exists k :: 0 <= k < |favs| && favs[k] == id && id !in favs[..k] && r == RemoveAt(favs, k)
  {
    var k := IndexOf(favs, id);
    if k == -1 then favs + [id]
    else
      MultisetRemoveAt(favs, k);
      RemoveAt(favs, k)
  }

  /** `toggleFavorite`: needs a session and the session user's stored record.
      An absent id is appended; a present one loses its first occurrence.
      The stored record and both session copies get the new favourites. */
  function ToggleFavorite(st: State, listingId: Str): (r: Step<()>)
    ensures r.out.Fail? ==> r.state == st
    ensures r.out == Fail(NotLoggedIn) <==> st.session.None?
    ensures r.out == Fail(UserRecordMissing) <==>
      st.session.Some? && UserIndex(st.users, st.session.value.id) == -1
    ensures r.out.Ok? <==> st.session.Some? && UserIndex(st.users, st.session.value.id) >= 0
    ensures r.out.Ok? ==>
      && st.session.Some?
      && var i := UserIndex(st.users, st.session.value.id);
         && 0 <= i < |st.users|
         && var before := st.users[i].favorites;
            && |r.state.users| == |st.users|
            && var after := r.state.users[i].favorites;
            && after == Toggled(before, listingId)
            && (listingId !in before ==> after == before + [listingId])
            && (listingId in before ==> multiset(after) == multiset(before) - multiset{listingId})
            && r.state.users[i] == st.users[i].(favorites := after)
            && (forall j :: 0 <= j < |st.users| && j != i ==> r.state.users[j] == st.users[j])
            && r.state.session == Some(st.session.value.(favorites := after))
            && r.state.stored == r.state.session
    ensures r.state.listings == st.listings
  {
    if st.session.None? then Step(st, Fail(NotLoggedIn))
    else
      var sess := st.session.value;
      var i := UserIndex(st.users, sess.id);
      if i == -1 then Step(st, Fail(UserRecordMissing))
      else
        var favs' := Toggled(st.users[i].favorites, listingId);
        var sess' := sess.(favorites := favs');
        Step(st.(users := st.users[i := st.users[i].(favorites := favs')],
                 session := Some(sess'), stored := Some(sess')), Ok(()))
  }

  /** `isFavorite`: membership in the session's favourites. */
  function IsFavorite(st: State, listingId: Str): (r: bool)
    ensures r ==> st.session.Some?
    ensures st.session.Some? ==> (r <==> listingId in st.session.value.favorites)
  {
    match st.session
    case None => false
    case Some(s) => listingId in s.favorites
  }

  /** `getFavorites`: the stored listings whose id is among the session's
      favourites. */
  function GetFavorites(st: State): (r: seq<Listing>)
    ensures st.session.None? ==> r == []
    ensures forall k :: 0 <= k < |r| ==>
      r[k] in st.listings && st.session.Some? && r[k].id in st.session.value.favorites
    ensures st.session.Some? ==>
      forall k :: 0 <= k < |st.listings| && st.listings[k].id in st.session.value.favorites ==>
        st.listings[k] in r
    ensures st.session.Some? ==>
      forall l :: multiset(r)[l] ==
        if l.id in st.session.value.favorites then multiset(st.listings)[l] else 0
  {
    match st.session
    case None => []
    case Some(s) =>
      var favorite := (l: Listing) => l.id in s.favorites;
      FilterCounts(st.listings, favorite);
      Filter(st.listings, favorite)
  }

  // -----------------------------------------------------------------------
  // Properties
  // -----------------------------------------------------------------------

  lemma MultisetRemoveAt(s: seq<Str>, k: nat)
    requires k < |s|
    ensures multiset(RemoveAt(s, k)) == multiset(s) - multiset{s[k]}
  {
    assert s == s[..k] + [s[k]] + s[k + 1..];
  }

  /** An id listed once is gone after its first occurrence is spliced out. */
  lemma RemoveOnlyOccurrence(favs: seq<Str>, k: nat)
    requires NoDuplicates(favs) && k < |favs|
    ensures favs[k] !in RemoveAt(favs, k)
  {
    var r := RemoveAt(favs, k);
    forall j | 0 <= j < |r| ensures r[j] != favs[k] {
      if j < k { assert r[j] == favs[..k][j]; }
      else { assert r[j] == favs[j + 1]; }
    }
  }

  /** On a duplicate-free list, toggling twice restores the multiset, and
      the exact sequence when the id was absent. */
  lemma ToggledTwice(favs: seq<Str>, id: Str)
    requires NoDuplicates(favs)
    ensures multiset(Toggled(Toggled(favs, id), id)) == multiset(favs)
    ensures id !in favs ==> Toggled(Toggled(favs, id), id) == favs
  {
    if id in favs {
      var k :| 0 <= k < |favs| && favs[k] == id && Toggled(favs, id) == RemoveAt(favs, k);
      RemoveOnlyOccurrence(favs, k);
    } else {
      AppendThenToggle(favs, id);
    }
  }

  /** Toggling an id just appended removes it again from the end. */
  lemma AppendThenToggle(favs: seq<Str>, id: Str)
    requires id !in favs
    ensures Toggled(favs + [id], id) == favs
  {
    var mid := favs + [id];
    assert mid[..|favs|] == favs;
    var k := IndexOf(mid, id);
    assert k == |favs|;
    assert RemoveAt(mid, k)[..k] == favs;
  }

  lemma ToggleKeepsIndex(st: State, listingId: Str)
    requires ToggleFavorite(st, listingId).out.Ok?
    ensures var s1 := ToggleFavorite(st, listingId).state;
            var sid := st.session.value.id;
            s1.session.Some? && s1.session.value.id == sid
            && UserIndex(s1.users, sid) == UserIndex(st.users, sid)
  {
    var s1 := ToggleFavorite(st, listingId).state;
    assert forall j :: 0 <= j < |s1.users| ==> s1.users[j].id == st.users[j].id;
  }

  /** Toggling the same id twice gives a duplicate-free favourite list back
      as the same multiset, and as the very same sequence when the id was
      absent at first; no other user changes and the session mirrors the
      stored record. */
  lemma ToggleTwiceRestores(st: State, listingId: Str)
    requires ToggleFavorite(st, listingId).out.Ok?
    requires NoDuplicates(st.users[UserIndex(st.users, st.session.value.id)].favorites)
    ensures var s1 := ToggleFavorite(st, listingId).state;
            var r2 := ToggleFavorite(s1, listingId);
            var i := UserIndex(st.users, st.session.value.id);
            && r2.out.Ok?
            && |r2.state.users| == |st.users|
            && multiset(r2.state.users[i].favorites) == multiset(st.users[i].favorites)
            && (listingId !in st.users[i].favorites ==> r2.state.users == st.users)
            && (forall j :: 0 <= j < |st.users| && j != i ==> r2.state.users[j] == st.users[j])
            && r2.state.session.value.favorites == r2.state.users[i].favorites
  {
    var sid := st.session.value.id;
    var i := UserIndex(st.users, sid);
    var before := st.users[i].favorites;
    ToggleOkUsers(st, listingId);
    ToggleKeepsIndex(st, listingId);
    var s1 := ToggleFavorite(st, listingId).state;
    assert s1.session.value.id == sid && UserIndex(s1.users, sid) == i;
    ToggleOkUsers(s1, listingId);
    ToggledTwice(before, listingId);
    var f1 := Toggled(before, listingId);
    ResetFavorites(st.users, i, f1, Toggled(f1, listingId));
  }

  /** Two point updates of one user's favourites amount to the last one, and
      writing back the same list changes nothing. */
  lemma ResetFavorites(users: seq<User>, i: nat, f1: seq<Str>, f2: seq<Str>)
    requires i < |users|
    ensures var u1 := users[i := users[i].(favorites := f1)];
            u1[i := u1[i].(favorites := f2)] == users[i := users[i].(favorites := f2)]
    ensures f2 == users[i].favorites ==> users[i := users[i].(favorites := f2)] == users
  {
  }

  /** What a successful toggle does to the users and the session, as one
      point update. */
  lemma ToggleOkUsers(st: State, listingId: Str)
    requires ToggleFavorite(st, listingId).out.Ok?
    ensures var i := UserIndex(st.users, st.session.value.id);
            var favs := Toggled(st.users[i].favorites, listingId);
            var s1 := ToggleFavorite(st, listingId).state;
            && 0 <= i < |st.users|
            && s1.users == st.users[i := st.users[i].(favorites := favs)]
            && s1.session == Some(st.session.value.(favorites := favs))
  {
  }

  lemma RemoveAtKeepsNoDuplicates(favs: seq<Str>, k: nat)
    requires NoDuplicates(favs) && k < |favs|
    ensures NoDuplicates(RemoveAt(favs, k))
  {
    var after := RemoveAt(favs, k);
    forall a, b | 0 <= a < b < |after| ensures after[a] != after[b] {
      var a' := if a < k then a else a + 1;
      var b' := if b < k then b else b + 1;
      assert after[a] == favs[a'] && after[b] == favs[b'];
    }
  }

  lemma ToggledKeepsNoDuplicates(favs: seq<Str>, id: Str)
    requires NoDuplicates(favs)
    ensures NoDuplicates(Toggled(favs, id))
  {
    var k := IndexOf(favs, id);
    if k != -1 {
      RemoveAtKeepsNoDuplicates(favs, k);
    }
  }

  /** Toggling keeps a duplicate-free favourite list duplicate-free. */
  lemma ToggleKeepsNoDuplicates(st: State, listingId: Str)
    requires ToggleFavorite(st, listingId).out.Ok?
    requires NoDuplicates(st.users[UserIndex(st.users, st.session.value.id)].favorites)
    ensures var r := ToggleFavorite(st, listingId);
            NoDuplicates(r.state.users[UserIndex(st.users, st.session.value.id)].favorites)
  {
    var i := UserIndex(st.users, st.session.value.id);
    ToggledKeepsNoDuplicates(st.users[i].favorites, listingId);
  }

  /** With the session in step with the stored record and no duplicate
      favourites, a successful toggle flips what `isFavorite` reports. */
  lemma ToggleFlipsIsFavorite(st: State, listingId: Str)
    requires SessionInSync(st)
    requires NoDuplicates(st.session.value.favorites)
    requires ToggleFavorite(st, listingId).out.Ok?
    ensures IsFavorite(ToggleFavorite(st, listingId).state, listingId) == !IsFavorite(st, listingId)
    ensures SessionInSync(ToggleFavorite(st, listingId).state)
  {
    var sid := st.session.value.id;
    var i := UserIndex(st.users, sid);
    var before := st.users[i].favorites;
    var s1 := ToggleFavorite(st, listingId).state;
    var after := s1.users[i].favorites;
    if listingId in before {
      var k := IndexOf(before, listingId);
      assert after == RemoveAt(before, k);
      RemoveOnlyOccurrence(before, k);
    }
    assert UserIndex(s1.users, sid) == i by {
      assert forall j :: 0 <= j < |s1.users| ==> s1.users[j].id == st.users[j].id;
    }
  }
}
