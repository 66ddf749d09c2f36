/** The persistent entities of the marketplace (internal/domain/models.go).
    Go's `uint` identifiers are `nat` (64-bit width is not modelled), Go's
    `time.Time` is an `int` instant, `float64` prices are `real`. */
module Domain {

  /** A registered user. Usernames are unique (a unique, non-null column);
      `password` holds what registration stored, which is the plaintext. */
  datatype User = User(id: nat, username: string, password: string, createdAt: int)

  /** Go's zero value of `User`, which an ad carries until its owner is
      preloaded. */
  const NoUser := User(0, "", "", 0)

  /** An advertisement. `userId` references its single owner and `user` is
      that owner once preloaded. `isOwner` is excluded from persistence: it
      is computed per viewer and only ever set on a response. */
  datatype Advertisement = Advertisement(
    id: nat,
    title: string,
    description: string,
    imageUrl: string,
    price: real,
    userId: nat,
    user: User,
    isOwner: bool,
    createdAt: int)

  /** Column sizes declared for the title and the description. */
  const TitleSize := 100
  const DescriptionSize := 1000

  /** A token row, declared in the models but used by no code path: tokens
      are stateless and never stored. */
  datatype AuthToken = AuthToken(userId: nat, token: string, expiresAt: int)

  /** The row the database keeps for `ad`: every persisted column, and
      `isOwner` dropped (read back as its zero value). */
  function Persisted(ad: Advertisement): (row: Advertisement)
    ensures !row.isOwner
    ensures row.(isOwner := ad.isOwner) == ad
  {
    ad.(isOwner := false)
  }

  /** `ad` with its owner record loaded from the users table by `userId`;
      a missing owner leaves Go's zero value. */
  function Preload(ad: Advertisement, users: map<nat, User>): (loaded: Advertisement)
    ensures loaded.(user := ad.user) == ad
    ensures ad.userId in users ==> loaded.user == users[ad.userId]
    ensures ad.userId !in users ==> loaded.user == NoUser
  {
    ad.(user := if ad.userId in users then users[ad.userId] else NoUser)
  }
}
