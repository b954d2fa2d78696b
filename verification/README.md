# EspaçoGo data layer in Dafny

EspaçoGo is a single-page marketplace where hosts advertise spaces
("espaços") by the hour and guests search, favourite and review them. All
data lives in the browser's `localStorage`: the registered users, the
listings with their embedded reviews, and the logged-in user's session
record. This project models the data layer of `app.js`:

- the credential rules: the e-mail pattern, the password policy and the
  32-bit rolling password digest;
- accounts: `register`, `login`, `logout` and `getCurrentUser`;
- the listing repository: `saveListing` (create and edit), `deleteListing`
  with its favourite cascade, `getUserListings`, `getListingById` and
  `incrementViews`;
- favourites: `toggleFavorite`, `isFavorite`, `getFavorites` and
  `removeFavoriteGlobally`;
- reviews: `addReview` with its running mean, and `getReviews`;
- the search pipeline: the active filters, `filtrarEspacos`,
  `buscarEspacos`, `aplicarFiltros`, `ordenarEspacos`, the nine-per-page
  slice and the condition for drawing the pager;
- the two listing forms, `handleCreateListing` and `handleEditListing`,
  including the parsing of the one-URL-per-line image box.

The storage is a pure value `Model.State(users, listings, session,
stored)`. `session` is the in-memory `currentUser` and `stored` is the
persisted `currentUser` key. The account, repository, favourite and
review operations take a state; the search pipeline takes listings and
filters, and `Pipeline.Page` and `Pipeline.TotalPages` take a sequence or a
count. The operations that can fail return a `Step(state, out)`, where `out` is either
`Ok(value)` or `Fail(error)`: `register`, `login`, `saveListing`,
`deleteListing`, `toggleFavorite`, `addReview` and `handleCreateListing`.
The others return what the source returns:
- `logout` and `incrementViews` return the new state;
- `getCurrentUser` returns the state with the current user
  (`Accounts.Current`);
- `handleEditListing` returns `None` when it stops early, and otherwise
  the `Step` of `saveListing`;
- the getters and the pipeline return plain values.

Each `Model.Error` names one reason an operation gives up. The same reason
can show different toasts in different operations: `NotLoggedIn` stands
for three messages, and `ListingNotFound` and `Forbidden` for two each.
`Forbidden` is the edit refusal of `saveListing` (app.js:442) and the
delete refusal of `deleteListing` (app.js:472). `UserRecordMissing` is the
silent `return false` of `toggleFavorite`. A failing operation always
returns the state unchanged. The collaborators the data layer calls but does not define
are fields of `Model.Env`: `sanitizeInput`, `isValidWhatsApp`,
`encodeURIComponent`, `generateId` and the clock. Strings are sequences of
UTF-16 code units (`Text.u16`), as in JavaScript. Timestamps are integers.
Prices and ratings are reals.

The modules follow the sections of the source:

- `Seqs` and `Text` hold the array and string methods the code relies on.
  These are `findIndex` (which also serves `find`), `indexOf`, `filter`, `splice`, `slice`,
  `toLowerCase`, `includes`, `trim`, `split` and `join`.
- `Credentials`, `Model`, `Accounts`, `Listings`, `Favorites`, `Reviews`,
  `Pipeline` and `Forms` follow the source's own sections.

Some behaviour of the code is worth knowing. Each item is stated and proved
in the model:

- Duplicate e-mails are detected by comparing the e-mail as typed with the
  stored e-mail, which was sanitised. An e-mail containing `&` is stored
  escaped. It can therefore be registered twice, and neither account can
  log in with it (`Accounts.EscapedEmailRegistersTwice`).
- The digest is a 32-bit hash. Distinct valid passwords collide
  (`Credentials.CollidingPasswords`).
- The price criterion is always applied, and no control changes its
  bounds of 0 and 10000. A listing priced above 10000 is never shown
  (`Pipeline.ExpensiveListingHidden`).
- Deleting a listing removes it from every stored user's favourites. The
  in-memory session keeps the stale id. `getFavorites` hides the listing
  anyway, because it only returns listings that still exist
  (`Listings.DeleteHidesListing`).
- `saveListing` with an id that names no stored listing returns the
  completed record but stores nothing. An edit of a listing that does not
  exist is therefore silently lost.
- The favourite toggle splices out only the first occurrence of an id,
  and a second toggle appends the id at the end. On a list without
  duplicates, two toggles restore the multiset of favourites; they restore
  the exact list only when the id was absent, since a present id moves to
  the end (`Favorites.ToggledTwice`).

Two behaviours of the rendering code:

- The page slice is taken while rendering, in `renderizarCards`, and not
  inside the filter function.
- `currentPage` is not reset when the filters change. A filter change
  while on a later page can therefore show an empty page.

## Model

| member | source | states |
|---|---|---|
| Credentials.IsValidEmail | app.js:51-54 | true exactly when the e-mail splits as local part, `@`, domain, `.`, suffix, with no white space or `@` in any part and every part non-empty |
| Credentials.IsValidPassword | app.js:56-61 | true exactly when the password has at least 6 code units, an ASCII letter and an ASCII digit |
| Credentials.ToInt32 | app.js:100-101 | the result is a signed 32-bit value, congruent to the input modulo 2^32, and equal to it when it already fits |
| Credentials.HashStepIsTimes31 | app.js:100-101 | one loop round `((h << 5) - h) + c` with the `& hash` wrap equals `31*h + c` wrapped to 32 bits |
| Credentials.HashCodeClosedForm | app.js:96-104 | wrapping after every round equals wrapping the polynomial sum of c_i * 31^(n-1-i) once at the end |
| Credentials.ParseHexOfHex | app.js:103 | the `toString(16)` rendering of a non-negative number reads back as that number |
| Credentials.HashPassword | app.js:96-104 | every digest starts with `hash_`, followed by at least one code unit, each of them a lower-case hexadecimal digit |
| Credentials.DigestEqualIff | app.js:103 | two digests are equal exactly when the hash codes are equal up to sign, which `Math.abs` discards |
| Credentials.VerifyAcceptsIff | app.js:106-108 | a password is accepted against a stored digest exactly when its hash code equals the original's up to sign |
| Credentials.SameCodeExtends | app.js:98-102 | two strings with the same hash code keep the same hash code under any common suffix |
| Credentials.CollidingPasswords | app.js:96-108 | "Aa1234" and "BB1234" are distinct valid passwords, and each is accepted for the other's digest |
| Accounts.Register | app.js:310-361 | the checks fail in source order: missing field, name under 3, bad e-mail, weak password, mismatch, e-mail taken (compared as typed); on success exactly one user is appended, with the generated id, sanitised name and e-mail, a digest the password verifies against, empty favourites, the current time and the avatar URL built from the encoded name; sessions are untouched |
| Accounts.Login | app.js:268-308 | the errors, each exactly when it applies: missing field, bad e-mail, unknown e-mail, wrong password; success exactly when none applies; on success the account's `lastLogin` is set and the session, in memory and persisted, is the account without its password |
| Accounts.Logout | app.js:363-369 | both session copies are cleared and the users and listings are untouched |
| Model.Strip | app.js:297-298 | the session copy keeps every field of the account except the password digest |
| Accounts.GetCurrentUser | app.js:260-266 | the user is present exactly when a session exists in memory or in storage; the in-memory one wins, otherwise it is the persisted record, and the result is cached in memory |
| Accounts.GetCurrentUserIdempotent | app.js:260-266 | asking again after rehydrating gives the same user and state |
| Accounts.LogoutForgetsUser | app.js:363-369 | after logout no user is current, not even after reloading from storage |
| Accounts.RegisterKeepsEmailsUnique | app.js:336-355 | with a sanitiser that leaves the e-mail unchanged, registration keeps stored e-mails unique |
| Accounts.SecondRegistrationRefused | app.js:338-341 | registering an e-mail that was just registered fails with "e-mail taken" and leaves the users as they were |
| Accounts.RegisterKeepsIdsUnique | app.js:343-355 | with a fresh generated id, registration keeps user ids unique |
| Accounts.RegisterThenLogin | app.js:268-361 | after registering, logging in with the same e-mail and password succeeds and the session is the new account, with no favourites |
| Accounts.EscapeHtml | app.js:44-49 | escaping never shortens a string and lengthens any string containing `&` |
| Accounts.AmpEmailFacts | app.js:51-54 | "a&b@c.de" passes the e-mail pattern, and escaping changes it |
| Accounts.EscapedEmailRegistersTwice | app.js:338-346 | with escaping, "a&b@c.de" registers twice into an empty store; the two stored e-mails are equal, and logging in with the typed e-mail finds no user |
| Listings.Complete | app.js:412-436 | the record keeps a given id or takes the generated one; images are clipped to the first ten, or replaced by the placeholder when empty; capacity is the parsed one or 10; category, period and status are kept when given and default to `multiuso`, `hora` and `active`; title, description, city, address and WhatsApp are sanitised; the features pass through; the owner comes from the session; history fields carry over |
| Listings.SaveListing | app.js:379-455 | each validation error exactly when it is the first to apply; editing another user's listing is forbidden; success exactly when none of these applies; success replaces in place for a stored id, appends for no id, and stores nothing for an unknown id; users and sessions are untouched |
| Listings.DeleteListing | app.js:457-483 | fails without a session, for an unknown id, or for another owner's listing, each exactly when it is the first to apply, and succeeds for the owner of a stored listing; on success exactly the listings with the id go, the rest stay in order, and the users are those of the favourite cascade: the id leaves every stored user's favourites, the other favourites keep their order, and nothing else changes |
| Listings.GetUserListings | app.js:485-489 | exactly the stored listings owned by the session user, each as often as stored, and none without a session |
| Listings.GetListingById | app.js:491-494 | none exactly when no listing has the id, otherwise the first listing with it |
| Listings.IncrementViews | app.js:496-504 | the first listing with the id gains one view, everything else is unchanged, and an unknown id changes nothing |
| Listings.DeleteKeepsFavoritesResolved | app.js:476-479 | if every favourite named a stored listing before a delete, every favourite does after it |
| Listings.DeleteHidesListing | app.js:476-479 | after a delete the id resolves to nothing, the favourites page omits it, and `isFavorite` is unchanged |
| Listings.SaveKeepsIdsUnique | app.js:438-453 | with a fresh generated id, creating or editing keeps listing ids unique |
| Listings.CreateThenFind | app.js:379-494 | a created listing is found by its new id and appears among its owner's listings |
| Listings.ViewsNeverDecrease | app.js:496-504 | no listing's view count goes down |
| Listings.IncrementViewsCountsOne | app.js:496-504 | the views over all stored listings grow by exactly one when the id is stored, and not at all otherwise |
| Favorites.RemoveFavoriteGlobally | app.js:558-566 | every user loses the id from their favourites, keeps every other favourite, and is otherwise unchanged |
| Favorites.DropFavorite | app.js:560-564 | skipping users whose favourites lack the id is the same as filtering everyone |
| Favorites.Toggled | app.js:527-535 | an absent id is appended; a present id loses one occurrence, the first, and nothing else |
| Favorites.ToggleFavorite | app.js:512-545 | fails without a session or without the user's stored record, and succeeds exactly when both exist; on success the stored record and both session copies hold the toggled list, and no other user or listing changes |
| Favorites.IsFavorite | app.js:547-550 | true exactly when a session exists and its favourites contain the id |
| Favorites.GetFavorites | app.js:552-556 | exactly the stored listings whose id is among the session's favourites, each as often as stored, and none without a session |
| Favorites.RemoveOnlyOccurrence | app.js:533 | splicing out an id that occurs once removes it entirely |
| Favorites.ToggledTwice | app.js:527-535 | on a list without duplicates, two toggles restore the multiset, and the exact list when the id was absent |
| Favorites.ToggleTwiceRestores | app.js:512-545 | two successful toggles of one id restore the user's favourites (exactly when the id was absent), touch no other user, and leave the session in step |
| Favorites.ToggleKeepsNoDuplicates | app.js:527-535 | a toggle keeps a duplicate-free favourite list duplicate-free |
| Favorites.ToggleFlipsIsFavorite | app.js:512-550 | with the session in step with the stored record and no duplicate favourites, a toggle flips `isFavorite` and keeps them in step |
| Reviews.AddReview | app.js:581-636 | errors in source order: no session, rating outside [1, 5], comment under 10, unknown listing, author already reviewed; on success one review is appended, `reviewCount` is the number of reviews and `rating` is the mean of their ratings (their sum over their number), and nothing else changes |
| Reviews.GetReviews | app.js:638-641 | the reviews of the first listing with the id, or none for an unknown id |
| Reviews.SumAppend | app.js:627 | the rating sum of the reviews plus one review is the old sum plus its rating |
| Reviews.AddReviewMakesConsistent | app.js:623-629 | after a review the listing's rating is the mean of its reviews and its count is their number |
| Reviews.RunningMean | app.js:626-629 | from consistent fields, the count grows by one and the new rating is (old rating * old count + new rating) / (old count + 1) |
| Reviews.AppendedMean | app.js:626-629 | appending one review of a given rating to a listing with consistent fields, and recomputing them, yields that running mean |
| Reviews.AddReviewKeepsOnePerUser | app.js:607-611 | if every listing has at most one review per author, that stays so |
| Reviews.SecondReviewRefused | app.js:607-611 | the same user reviewing the same listing again is refused as already reviewed, with the state unchanged |
| Reviews.AddReviewThenGetReviews | app.js:613-641 | after a review, `getReviews` gives the old reviews followed by the new one, carrying the author, the rating and the sanitised comment |
| Reviews.AddReviewKeepsIndex | app.js:631 | a review moves no listing id to another position |
| Reviews.FourFiveThree | app.js:581-636 | three distinct users rating an unreviewed listing 4, 5 and 3 all succeed and leave a review count of 3 and a rating of 4 |
| Pipeline.DefaultFilters | app.js:27-34 | the filters at page load let through exactly the listings priced from 0 to 10000, whatever their category, text or capacity, and sort by recency |
| Pipeline.ParseOrder | app.js:734-748 | each of `preco-asc`, `preco-desc`, `avaliacao` and `populares` selects its order exactly when it is given; anything else sorts by recency |
| Pipeline.FilterListings | app.js:703-726 | the four stages, applied in order with the price stage unconditional, keep exactly the listings that meet every criterion, in storage order |
| Pipeline.Insert | app.js:734-748 | inserting into a sorted sequence keeps it sorted and adds exactly that element |
| Pipeline.SortBy | app.js:734-748 | the sort yields a permutation of its input ordered by the comparator's key |
| Pipeline.SortByStable | app.js:734-748 | the sort is stable: listings with equal keys keep their input order |
| Pipeline.InsertKeepsEqualKeys | app.js:734-748 | an inserted listing comes before every listing with the same key |
| Pipeline.OrdenarEspacos | app.js:734-748 | the result is a permutation of the input: ascending price, descending price, descending rating, descending views, or newest first, per the order chosen; listings with equal keys keep their input order |
| Pipeline.AplicarFiltros | app.js:700-732 | the grid shows exactly the stored listings that match the filters, each as often as stored, sorted by the chosen order, with listings of equal key in storage order |
| Pipeline.FiltrarEspacos | app.js:677-690 | only the category changes |
| Pipeline.CategoryButtons | app.js:704-706 | a category button shows only listings of that category, and "todos" shows everything any category shows |
| Pipeline.BuscarEspacos | app.js:693-696 | only the search term changes, and it is stored lower-cased |
| Pipeline.Page | app.js:769-772 | a page holds at most nine listings, and page p >= 1 is positions 9(p-1) to 9p of the sorted result, clipped to its end |
| Pipeline.TotalPages | app.js:838-839 | the page count is the least number of nine-listing pages that hold all matches, 0 when nothing matches |
| Pipeline.PagesPrefix | app.js:769-772 | pages 1 to n read in turn are the first 9n listings |
| Pipeline.PagesCover | app.js:769-772 | reading every page in turn shows each listing once and in order, no page up to the last is empty, and every later page is empty |
| Pipeline.PagerShownIff | app.js:838-841 | the pager is drawn exactly when more than nine listings match |
| Pipeline.LowerKeepsOccurrence | app.js:711-714 | lower-casing both sides keeps an occurrence at its position |
| Pipeline.SearchFindsTitle | app.js:693-716 | any part of a listing's title, typed in any mix of case, keeps the listing among the results when it meets the other criteria |
| Pipeline.AccentedCityFound | app.js:693-714 | a search typed as "são" matches a listing whose city is "SÃO PAULO", since both sides are lower-cased through the Latin-1 capitals |
| Pipeline.ExpensiveListingHidden | app.js:719-721 | with the filters of page load, a listing above 10000 is never shown, whatever the search |
| Pipeline.FilterListingsIdempotent | app.js:703-726 | filtering the filtered result again changes nothing |
| Pipeline.TwentyItemPages | app.js:769-772 | twenty matches make three pages of 9, 9 and 2, and the fourth page is empty |
| Pipeline.PriceAscExample | app.js:736-737 | prices 50, 10, 30, 10 sort ascending to 10, 10, 30, 50, with the two at 10 in input order |
| Text.Trim | app.js:1664 | the result is an infix of the input, only white space is cut from either end, and it neither starts nor ends with white space |
| Text.TrimPadded | app.js:1664 | white space around a core that neither starts nor ends with white space is removed, and the core is kept whole |
| Text.SplitJoin | app.js:1662-1663 | splitting at the separator gives back pieces that were joined with it, when no piece contains it |
| Text.JoinSplit | app.js:1662-1663 | joining the pieces of a split with the separator gives back the string |
| Forms.ParseImageLines | app.js:1662-1665 | every parsed URL is non-empty, has no line break, and neither starts nor ends with white space |
| Forms.ParseLines | app.js:1662-1665 | lines without line feeds, one per line, parse as exactly those lines trimmed, the blank ones dropped, in order |
| Forms.PaddedUrlParses | app.js:1697-1700 | a URL typed with blanks or tabs around it is stored as the bare URL |
| Forms.ParseJoinedUrls | app.js:1662-1665 | URLs without white space, written one per line, parse back as the same URLs |
| Forms.ParseImageLinesStable | app.js:1662-1665 | every parsed URL is already trimmed |
| Forms.CreateInput | app.js:1667-1683 | title, description, category, price, period, city, address, capacity, WhatsApp and features pass from the form unchanged; the create form sends no id, no creation time, no status, no reviews, zero views, rating and review count, and the parsed images |
| Forms.EditInput | app.js:1705-1720 | the same form fields pass unchanged; the edit carries over the stored id, creation time, views, rating, review count, reviews and status, and falls back to the stored images when no URL is given |
| Forms.HandleCreateListing | app.js:1658-1688 | the create succeeds exactly when a session exists and the fields pass validation; the stored record is the form's input completed by `saveListing`, appended with the generated id, the current time, no views and no reviews; a failure changes nothing |
| Forms.HandleEditListing | app.js:1690-1726 | nothing happens exactly when the id names no stored listing; otherwise the edit goes through `saveListing` |
| Forms.EditKeepsHistory | app.js:1690-1726 | a successful edit replaces the listing in place and keeps its id, owner, creation time, views, reviews, rating and count, and its one to ten old images when none were entered |

## Left out

- Rendering, modals, toasts, navigation, the theme toggle, the gallery and
  the favourite counter badge are DOM work and carry no data rules.
- `setStorage` reports a write failure (quota) on the console and with
  the toast "Erro ao salvar dados", but its callers ignore the result; the
  model treats every write as successful. `getStorage`'s JSON parsing and
  its default for a missing key are folded into the state value.
- `generateId`, `new Date()` and `toISOString()` are not modelled. They
  become the `Env` fields `newId` and `now`; timestamps are integers
  compared as numbers.
- `sanitizeInput`, `isValidWhatsApp` and `encodeURIComponent` are
  parameters (`Env.sanitize`, `Env.isPhone`, `Env.encode`). Only the
  escaping of `&` is made concrete, in `Accounts.EscapeHtml`, to exhibit
  the duplicate-e-mail behaviour.
- Prices and ratings are reals, not IEEE doubles: `NaN` from `parseFloat`,
  rounding in the mean, and `Infinity` are not modelled. A `NaN`
  capacity is `None` and falls back to 10, as `|| 10` does.
- `toLowerCase` is modelled on the Basic Latin and Latin-1 blocks only:
  A-Z and the capitals U+00C0 to U+00DE, except the multiplication sign
  U+00D7, become their small letters. Capitals of every other block are
  left as they are: Latin Extended, Greek and Cyrillic, for example. So is
  U+0130, which JavaScript lowers to two code units.
- Every stored record is assumed to carry all its fields. The `|| []` and
  `|| 0` guards for records missing `favorites`, `reviews`, `views` or
  `rating` are not modelled.
- The `reviews` array on users is written empty at registration and never
  read, so `Model.User` leaves it out. `updatedAt` is kept on listings.
- The review rating is a JavaScript number. `submitReview` reads it with
  `parseInt` from a required radio group of 1 to 5 (app.js:1026, 1078), so
  `Reviews.AddReview` takes an integer; the fractional and `NaN` ratings
  that `addReview` would accept from other callers are not modelled.
- `isLoggedIn` is `session != None` and has no member of its own.
- The search box's debounce (300 ms), `mudarPagina`'s scrolling and the
  `currentPage` variable are not modelled; `Pipeline.Page` takes the page
  as a parameter.
- `Credentials.VerifyPassword` has no contract of its own; what it
  accepts is stated by `Credentials.VerifyAcceptsIff`.
- `Listings.GetListings` is the identity on the stored listings and has
  no contract.
- `Pipeline.Page`: no contract for pages below 1. The JavaScript slice
  counts a negative start from the end, and no control asks for such a
  page.
- `Forms.EditKeepsHistory`: requires a non-empty id. A stored listing
  with an empty id would make `saveListing` append a copy instead of
  replacing it, and stored ids are always generated, so never empty.
- `Accounts.RegisterKeepsEmailsUnique`: requires a sanitiser that leaves
  the e-mail unchanged. Without it the property fails, as
  `Accounts.EscapedEmailRegistersTwice` shows.
- `Accounts.SecondRegistrationRefused`: requires the same condition on
  the sanitiser, for the same reason.
- `Accounts.RegisterThenLogin`: requires the same condition on the
  sanitiser, for the same reason.
- `Accounts.RegisterKeepsIdsUnique`: assumes the generated id differs
  from every stored id. `generateId` is random and gives no such promise.
- `Listings.SaveKeepsIdsUnique`: the same assumption, for listing ids.
- `Favorites.ToggleTwiceRestores`: stated for favourite lists without
  duplicates. With a duplicate, the splice removes only the first copy.
