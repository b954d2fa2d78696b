/** The persisted state of the marketplace as one immutable value: the
    `users` and `listings` collections, the in-memory session (`currentUser`)
    and the persisted session record. Operations are pure transitions
    `(State, inputs) -> Step` in the other modules. */
module Model {
  import opened Seqs
  import opened Text

  /** A registered account (app.js:343-353). `password` holds the digest. */
  datatype User = User(
    id: Str,
    name: Str,
    email: Str,
    password: Str,
    createdAt: int,
    lastLogin: int,
    avatar: Str,
    favorites: seq<Str>)

  /** The session object: a copy of a `User` without the password digest. */
  datatype SessionUser = SessionUser(
    id: Str,
    name: Str,
    email: Str,
    createdAt: int,
    lastLogin: int,
    avatar: Str,
    favorites: seq<Str>)

  /** The session copy of an account: every field except the password. */
  function Strip(u: User): (s: SessionUser)
    ensures s.id == u.id && s.name == u.name && s.email == u.email
    ensures s.favorites == u.favorites && s.lastLogin == u.lastLogin
    ensures s.createdAt == u.createdAt && s.avatar == u.avatar
  {
    SessionUser(u.id, u.name, u.email, u.createdAt, u.lastLogin, u.avatar, u.favorites)
  }

  /** A review embedded in its listing (app.js:613-621). */
  datatype Review = Review(
    id: Str,
    userId: Str,
    userName: Str,
    userAvatar: Str,
    rating: int,
    comment: Str,
    createdAt: int)

  /** A stored listing ("espaço", app.js:412-436). */
  datatype Listing = Listing(
    id: Str,
    title: Str,
    description: Str,
    category: Str,
    price: real,
    periodo: Str,
    city: Str,
    localizacao: Str,
    capacidade: int,
    imagens: seq<Str>,
    recursos: seq<Str>,
    whatsapp: Str,
    userId: Str,
    userName: Str,
    createdAt: int,
    updatedAt: int,
    views: int,
    rating: real,
    reviewCount: int,
    reviews: seq<Review>,
    status: Str)

  /** The object handed to `saveListing` by the create and edit forms. An
      empty string stands for a missing or falsy string field, `None` for a
      missing number (or `NaN` from `parseInt`). */
  datatype ListingInput = ListingInput(
    id: Str,
    title: Str,
    description: Str,
    category: Str,
    price: real,
    periodo: Str,
    city: Str,
    localizacao: Str,
    capacidade: Option<int>,
    imagens: seq<Str>,
    recursos: seq<Str>,
    whatsapp: Str,
    createdAt: Option<int>,
    views: int,
    rating: real,
    reviewCount: int,
    reviews: seq<Review>,
    status: Str)

  /** What the browser holds: the `users` and `listings` keys, the in-memory
      `currentUser` (`session`) and the persisted `currentUser` key
      (`stored`). */
  datatype State = State(
    users: seq<User>,
    listings: seq<Listing>,
    session: Option<SessionUser>,
    stored: Option<SessionUser>)

  /** Everything an operation takes from outside the data layer: the escaping
      of `sanitizeInput`, the WhatsApp regular expression, the
      `encodeURIComponent` used in avatar URLs, the next `generateId()` value
      and the current time. */
  datatype Env = Env(
    sanitize: Str -> Str,
    isPhone: Str -> bool,
    encode: Str -> Str,
    newId: Str,
    now: int)

  /** The distinct failure notifications of the data layer. */
  datatype Error =
    | MissingFields
    | NameTooShort
    | InvalidEmail
    | WeakPassword
    | PasswordMismatch
    | EmailTaken
    | UserNotFound
    | WrongPassword
    | NotLoggedIn
    | TitleTooShort
    | DescriptionTooShort
    | InvalidPrice
    | InvalidCity
    | InvalidPhone
    | Forbidden
    | ListingNotFound
    | UserRecordMissing
    | RatingOutOfRange
    | CommentTooShort
    | AlreadyReviewed

  datatype Outcome<+T> = Ok(value: T) | Fail(error: Error)

  /** The state after an operation together with what it reported. */
  datatype Step<+T> = Step(state: State, out: Outcome<T>)

  /** Index of the first user with this e-mail, as `users.find` looks it up. */
  function EmailIndex(users: seq<User>, email: Str): int {
    FindIndex(users, (u: User) => u.email == email)
  }

  /** Index of the first user with this id. */
  function UserIndex(users: seq<User>, id: Str): int {
    FindIndex(users, (u: User) => u.id == id)
  }

  /** Index of the first listing with this id. */
  function ListingIndex(listings: seq<Listing>, id: Str): int {
    FindIndex(listings, (l: Listing) => l.id == id)
  }

  /** No two users share an e-mail. */
  ghost predicate UniqueEmails(users: seq<User>) {
    forall i, j :: 0 <= i < j < |users| ==> users[i].email != users[j].email
  }

  /** No two users share an id. */
  ghost predicate UniqueUserIds(users: seq<User>) {
    forall i, j :: 0 <= i < j < |users| ==> users[i].id != users[j].id
  }

  /** No two listings share an id. */
  ghost predicate UniqueListingIds(listings: seq<Listing>) {
    forall i, j :: 0 <= i < j < |listings| ==> listings[i].id != listings[j].id
  }

  /** `id` names a stored listing. */
  ghost predicate HasListing(listings: seq<Listing>, id: Str) {
    exists i :: 0 <= i < |listings| && listings[i].id == id
  }

  /** Every favourite of every stored user names a stored listing. */
  ghost predicate FavoritesResolve(st: State) {
    forall i, k :: 0 <= i < |st.users| && 0 <= k < |st.users[i].favorites| ==>
      HasListing(st.listings, st.users[i].favorites[k])
  }
}
