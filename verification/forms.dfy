/** The listing forms: `handleCreateListing` and `handleEditListing`
    (app.js:1658-1724) turn the form fields into the object handed to
    `saveListing`; the image textarea holds one URL per line. */
module Forms {
  import opened Seqs
  import opened Text
  import opened Model
  import Listings

  /** The values read from the form. `price` is `parseFloat` of its field,
      `capacidade` is `parseInt` of its field (`None` for `NaN`), `imagens`
      is the raw textarea and `recursos` the checked boxes. */
  datatype ListingForm = ListingForm(
    title: Str,
    description: Str,
    category: Str,
    price: real,
    periodo: Str,
    city: Str,
    localizacao: Str,
    capacidade: Option<int>,
    whatsapp: Str,
    imagens: Str,
    recursos: seq<Str>)

  /** Every line trimmed. */
  function TrimAll(lines: seq<Str>): (r: seq<Str>)
    ensures |r| == |lines|
    ensures forall k :: 0 <= k < |r| ==> r[k] == Trim(lines[k])
    decreases |lines|
  {
    if |lines| == 0 then [] else [Trim(lines[0])] + TrimAll(lines[1..])
  }

  function NonEmpty(): Str -> bool {
    (s: Str) => |s| > 0
  }

  /** The image textarea split at line feeds, each line trimmed and the
      empty ones dropped: the non-blank lines, trimmed, in order. */
  function ParseImageLines(text: Str): (r: seq<Str>)
    ensures forall k :: 0 <= k < |r| ==>
      |r[k]| > 0 && LF !in r[k] && !IsSpace(r[k][0]) && !IsSpace(r[k][|r[k]| - 1])
  {
    var lines := Split(text, LF);
    KeptLinesClean(lines);
    Filter(TrimAll(lines), NonEmpty())
  }

  /** The non-blank trimmed lines are clean URLs when no line holds a line
      feed. */
  lemma KeptLinesClean(lines: seq<Str>)
    requires forall k :: 0 <= k < |lines| ==> LF !in lines[k]
    ensures var r := Filter(TrimAll(lines), NonEmpty());
            forall k :: 0 <= k < |r| ==>
              |r[k]| > 0 && LF !in r[k] && !IsSpace(r[k][0]) && !IsSpace(r[k][|r[k]| - 1])
  {
    var trimmed := TrimAll(lines);
    var r := Filter(trimmed, NonEmpty());
    forall k | 0 <= k < |r|
      ensures |r[k]| > 0 && LF !in r[k] && !IsSpace(r[k][0]) && !IsSpace(r[k][|r[k]| - 1])
    {
      var j :| 0 <= j < |trimmed| && trimmed[j] == r[k];
      TrimKeepsOut(lines[j], LF);
    }
  }

  lemma TrimKeepsOut(s: Str, c: u16)
    requires c !in s
    ensures c !in Trim(s)
  {
    var a, b := TrimWitness(s);
    assert Trim(s) == s[a..b];
  }

  /** A string that neither starts nor ends with white space trims to
      itself. */
  lemma TrimmedIsFixed(s: Str)
    requires s == [] || (!IsSpace(s[0]) && !IsSpace(s[|s| - 1]))
    ensures Trim(s) == s
  {
    if s != [] {
      assert LeadingSpace(s) == 0;
      assert s[0..] == s;
      assert TrailingSpace(s) == 0;
    }
  }

  /** A sequence of URLs with no white space in them, one per line, reads
      back as the same URLs. */
  lemma ParseJoinedUrls(urls: seq<Str>)
    requires forall k :: 0 <= k < |urls| ==> |urls[k]| > 0
    requires forall k, i :: 0 <= k < |urls| && 0 <= i < |urls[k]| ==> !IsSpace(urls[k][i])
    ensures ParseImageLines(Join(urls, LF)) == urls
  {
    if |urls| == 0 {
      assert Split([], LF) == [[]];
      assert TrimAll([[]]) == [[]];
      assert Filter([[]], NonEmpty()) == [];
    } else {
      assert forall k :: 0 <= k < |urls| ==> LF !in urls[k] by {
        forall k | 0 <= k < |urls| ensures LF !in urls[k] {
          assert IsSpace(LF);
        }
      }
      SplitJoin(urls, LF);
      var trimmed := TrimAll(urls);
      assert trimmed == urls;
      FilterAll(urls, NonEmpty());
    }
  }

  /** Lines without line feeds, written one per line, parse as those lines
      trimmed, with the blank ones dropped and the others in order. */
  lemma ParseLines(lines: seq<Str>)
    requires |lines| >= 1
    requires forall k :: 0 <= k < |lines| ==> LF !in lines[k]
    ensures ParseImageLines(Join(lines, LF)) == Filter(TrimAll(lines), NonEmpty())
  {
    SplitJoin(lines, LF);
  }

  /** A URL typed with blanks or tabs around it is stored without them. */
  lemma PaddedUrlParses(pre: Str, url: Str, post: Str)
    requires forall i :: 0 <= i < |pre| ==> IsSpace(pre[i]) && pre[i] != LF
    requires forall i :: 0 <= i < |post| ==> IsSpace(post[i]) && post[i] != LF
    requires |url| > 0 && LF !in url && !IsSpace(url[0]) && !IsSpace(url[|url| - 1])
    ensures ParseImageLines(pre + url + post) == [url]
  {
    var line := pre + url + post;
    assert LF !in line by {
      forall i | 0 <= i < |line| ensures line[i] != LF {
        if i < |pre| {
          assert line[i] == pre[i];
        } else if i < |pre| + |url| {
          assert line[i] == url[i - |pre|];
        } else {
          assert line[i] == post[i - |pre| - |url|];
        }
      }
    }
    assert Join([line], LF) == line;
    ParseLines([line]);
    TrimPadded(pre, url, post);
    assert TrimAll([line]) == [url];
    FilterAll([url], NonEmpty());
  }

  /** Blank lines and surrounding white space never reach the stored
      images: parsing what was parsed gives the same URLs back. */
  lemma ParseImageLinesStable(text: Str)
    ensures var r := ParseImageLines(text);
            forall k :: 0 <= k < |r| ==> Trim(r[k]) == r[k] && |r[k]| > 0
  {
    var r := ParseImageLines(text);
    forall k | 0 <= k < |r| ensures Trim(r[k]) == r[k] {
      TrimmedIsFixed(r[k]);
    }
  }

  /** Every form field except the images reaches the input unchanged. */
  ghost predicate CarriesForm(form: ListingForm, input: ListingInput) {
    && input.title == form.title && input.description == form.description
    && input.category == form.category && input.price == form.price
    && input.periodo == form.periodo && input.city == form.city
    && input.localizacao == form.localizacao && input.capacidade == form.capacidade
    && input.whatsapp == form.whatsapp && input.recursos == form.recursos
  }

  /** The object `handleCreateListing` passes to `saveListing`: the form
      fields, no id, no history and no status, every omitted field left to
      the defaults of `saveListing`. */
  function CreateInput(form: ListingForm): (input: ListingInput)
    ensures CarriesForm(form, input)
    ensures input.id == [] && input.createdAt.None? && input.reviews == []
    ensures input.views == 0 && input.rating == 0.0 && input.reviewCount == 0
    ensures input.status == []
    ensures input.imagens == ParseImageLines(form.imagens)
  {
    ListingInput(
      id := [],
      title := form.title,
      description := form.description,
      category := form.category,
      price := form.price,
      periodo := form.periodo,
      city := form.city,
      localizacao := form.localizacao,
      capacidade := form.capacidade,
      imagens := ParseImageLines(form.imagens),
      recursos := form.recursos,
      whatsapp := form.whatsapp,
      createdAt := None,
      views := 0,
      rating := 0.0,
      reviewCount := 0,
      reviews := [],
      status := [])
  }

  /** The object `handleEditListing` passes to `saveListing`: the stored
      listing spread under the form fields, keeping its images when the
      textarea holds no URL. */
  function EditInput(form: ListingForm, l: Listing): (input: ListingInput)
    ensures CarriesForm(form, input)
    ensures input.id == l.id && input.createdAt == Some(l.createdAt)
    ensures input.views == l.views && input.rating == l.rating
    ensures input.reviewCount == l.reviewCount && input.reviews == l.reviews
    ensures input.status == l.status
    ensures var parsed := ParseImageLines(form.imagens);
            input.imagens == if |parsed| > 0 then parsed else l.imagens
  {
    var parsed := ParseImageLines(form.imagens);
    ListingInput(
      id := l.id,
      title := form.title,
      description := form.description,
      category := form.category,
      price := form.price,
      periodo := form.periodo,
      city := form.city,
      localizacao := form.localizacao,
      capacidade := form.capacidade,
      imagens := if |parsed| > 0 then parsed else l.imagens,
      recursos := form.recursos,
      whatsapp := form.whatsapp,
      createdAt := Some(l.createdAt),
      views := l.views,
      rating := l.rating,
      reviewCount := l.reviewCount,
      reviews := l.reviews,
      status := l.status)
  }

  /** `handleCreateListing`. */
  function HandleCreateListing(st: State, form: ListingForm, env: Env): (r: Step<Listing>)
    ensures r.out.Ok? <==> st.session.Some? && Listings.FieldsValid(CreateInput(form), env)
    ensures r.out.Ok? ==> r.out.value == Listings.Complete(CreateInput(form), st.session.value, env)
    ensures r.out.Ok? ==> r.state.listings == st.listings + [r.out.value]
    ensures r.out.Ok? ==> r.out.value.id == env.newId && r.out.value.createdAt == env.now
    ensures r.out.Ok? ==> r.out.value.views == 0 && r.out.value.reviews == []
    ensures r.out.Fail? ==> r.state == st
  {
    Listings.SaveListing(st, CreateInput(form), env)
  }

  /** `handleEditListing`: nothing happens (`None`) when the id names no
      stored listing; otherwise the edit goes through `saveListing`. */
  function HandleEditListing(st: State, form: ListingForm, id: Str, env: Env): (r: Option<Step<Listing>>)
    ensures r.None? <==> !HasListing(st.listings, id)
    ensures r.Some? ==> r.value == Listings.SaveListing(st, EditInput(form, st.listings[ListingIndex(st.listings, id)]), env)
  {
    match Listings.GetListingById(st, id)
    case None => None
    case Some(l) => Some(Listings.SaveListing(st, EditInput(form, l), env))
  }

  /** A successful edit through the form replaces the listing in place and
      keeps its id, owner, creation time, views, reviews and rating; its
      images are the new URLs, or the old ones (when there were one to ten)
      if none were entered. Stored ids are never empty (an empty id would
      make `saveListing` append a copy instead). */
  lemma EditKeepsHistory(st: State, form: ListingForm, id: Str, env: Env)
    requires id != []
    requires HandleEditListing(st, form, id, env).Some?
    requires HandleEditListing(st, form, id, env).value.out.Ok?
    ensures var i := ListingIndex(st.listings, id);
            var old_ := st.listings[i];
            var r := HandleEditListing(st, form, id, env).value;
            var new_ := r.state.listings[i];
            && r.state.listings == st.listings[i := new_]
            && new_.id == old_.id && new_.userId == old_.userId
            && new_.createdAt == old_.createdAt && new_.views == old_.views
            && new_.reviews == old_.reviews && new_.rating == old_.rating
            && new_.reviewCount == old_.reviewCount
            && ((ParseImageLines(form.imagens) == [] && 1 <= |old_.imagens| <= Listings.MAX_IMAGES)
                ==> new_.imagens == old_.imagens)
  {
    var i := ListingIndex(st.listings, id);
    var l := st.listings[i];
    var input := EditInput(form, l);
    var r := HandleEditListing(st, form, id, env).value;
    assert r == Listings.SaveListing(st, input, env);
    var who := st.session.value;
    var c := Listings.Complete(input, who, env);
    assert r.state.listings == st.listings[i := c] by {
      assert ListingIndex(st.listings, input.id) == i;
      assert r.out.value == c;
    }
    assert c.userId == l.userId by {
      assert ListingIndex(st.listings, input.id) == i;
    }
    if ParseImageLines(form.imagens) == [] && 1 <= |l.imagens| <= Listings.MAX_IMAGES {
      assert c.imagens == l.imagens by {
        assert input.imagens == l.imagens;
        assert l.imagens[..|l.imagens|] == l.imagens;
      }
    }
  }
}
