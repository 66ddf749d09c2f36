/** Advertisement creation and listing (internal/services/advertisement_service.go):
    content validation before insertion, and normalisation of the listing
    parameters before they reach the repository. */
module AdService {
  import opened Wrappers
  import opened Domain
  import opened AdRepository

  const ErrTitle := "title must be between 5 and 100 characters"
  const ErrDescription := "description must be between 10 and 1000 characters"
  const ErrPrice := "price must be positive"

  const MinTitle := 5
  const MaxTitle := 100
  const MinDescription := 10
  const MaxDescription := 1000

  const DefaultLimit := 10
  const MaxLimit := 100

  // ---------------------------------------------------------------------------
  // Creation

  /** The first rule a new ad breaks, checked in the order title, description,
      price; None when it keeps all three. An accepted title and description
      fit the columns declared for them. */
  function CheckAd(title: string, description: string, price: real): (e: Option<string>)
    ensures e.None? <==>
              MinTitle <= |title| <= MaxTitle && MinDescription <= |description| <= MaxDescription && price > 0.0
    ensures !(MinTitle <= |title| <= MaxTitle) ==> e == Some(ErrTitle)
    ensures MinTitle <= |title| <= MaxTitle && !(MinDescription <= |description| <= MaxDescription) ==>
              e == Some(ErrDescription)
    ensures MinTitle <= |title| <= MaxTitle && MinDescription <= |description| <= MaxDescription && price <= 0.0 ==>
              e == Some(ErrPrice)
    ensures e.None? ==> |title| <= TitleSize && |description| <= DescriptionSize
  {
    if |title| < MinTitle || |title| > MaxTitle then Some(ErrTitle)
    else if |description| < MinDescription || |description| > MaxDescription then Some(ErrDescription)
    else if price <= 0.0 then Some(ErrPrice)
    else None
  }

  /** The bounds are inclusive: 5 and 100 title bytes, 10 and 1000
      description bytes are accepted, one fewer or one more is not. */
  lemma CheckAdBoundaries(t5: string, t100: string, d10: string, d1000: string, t4: string, t101: string, d9: string, d1001: string, price: real)
    requires |t5| == 5 && |t100| == 100 && |d10| == 10 && |d1000| == 1000
    requires |t4| == 4 && |t101| == 101 && |d9| == 9 && |d1001| == 1001
    requires price > 0.0
    ensures CheckAd(t5, d10, price).None? && CheckAd(t100, d1000, price).None?
    ensures CheckAd(t4, d10, price) == CheckAd(t101, d10, price) == Some(ErrTitle)
    ensures CheckAd(t5, d9, price) == CheckAd(t5, d1001, price) == Some(ErrDescription)
    ensures CheckAd(t5, d10, 0.0) == CheckAd(t5, d10, -price) == Some(ErrPrice)
  {
  }

  /** The ad the service hands to the repository: the given fields and
      owner, every other field at Go's zero value. */
  function NewAd(userId: nat, title: string, description: string, imageUrl: string, price: real): (ad: Advertisement)
    ensures ad.title == title && ad.description == description && ad.imageUrl == imageUrl && ad.price == price
    ensures ad.userId == userId
    ensures ad.id == 0 && ad.createdAt == 0 && ad.user == NoUser && !ad.isOwner
  {
    Advertisement(0, title, description, imageUrl, price, userId, NoUser, false, 0)
  }

  /** Creates an ad for `userId` at instant `now`. A rejected ad never
      reaches the table; an accepted one is inserted exactly once, carrying
      the given fields, its owner and no ownership flag; a repository error
      is passed on. */
  method CreateAd(table: AdTable, userId: nat, title: string, description: string, imageUrl: string,
                  price: real, now: int) returns (r: Result<Advertisement>)
    requires table.Valid()
    modifies table
    ensures table.Valid() && table.fault == old(table.fault)
    ensures CheckAd(title, description, price).Some? ==>
              && r == Err(CheckAd(title, description, price).value)
              && table.rows == old(table.rows) && table.nextId == old(table.nextId)
    ensures CheckAd(title, description, price).None? && old(table.fault).Some? ==>
              && r == Err(old(table.fault).value)
              && table.rows == old(table.rows) && table.nextId == old(table.nextId)
    ensures CheckAd(title, description, price).None? && old(table.fault).None? ==>
              && r == Ok(NewAd(userId, title, description, imageUrl, price).(id := old(table.nextId), createdAt := now))
              && table.rows == old(table.rows) + [r.value]
    ensures r.Ok? ==>
              && r.value.title == title && r.value.description == description
              && r.value.imageUrl == imageUrl && r.value.price == price
              && r.value.userId == userId && !r.value.isOwner
  {
    var invalid := CheckAd(title, description, price);
    if invalid.Some? {
      return Err(invalid.value);
    }
    r := table.Create(NewAd(userId, title, description, imageUrl, price), now);
  }

  // ---------------------------------------------------------------------------
  // Listing

  datatype ListParams = ListParams(
    page: int, limit: int, sortBy: string, order: string, minPrice: real, maxPrice: real)

  /** The sort fields the service lets through ("" leaves the choice to the
      repository). */
  predicate IsSortField(s: string) { s == "" || s == "price" || s == "created_at" }

  predicate IsSortOrder(s: string) { s == "" || s == "asc" || s == "desc" }

  /** The listing parameters as the service forwards them: out-of-range
      values are replaced by defaults instead of being refused, values in
      range and the price bounds pass unchanged. */
  function Normalize(p: ListParams): (q: ListParams)
    ensures q.page >= 1 && 1 <= q.limit <= MaxLimit
    ensures IsSortField(q.sortBy) && IsSortOrder(q.order)
    ensures p.page >= 1 ==> q.page == p.page
    ensures p.page < 1 ==> q.page == 1
    ensures 1 <= p.limit <= MaxLimit ==> q.limit == p.limit
    ensures !(1 <= p.limit <= MaxLimit) ==> q.limit == DefaultLimit
    ensures IsSortField(p.sortBy) ==> q.sortBy == p.sortBy
    ensures !IsSortField(p.sortBy) ==> q.sortBy == "created_at"
    ensures IsSortOrder(p.order) ==> q.order == p.order
    ensures !IsSortOrder(p.order) ==> q.order == "desc"
    ensures q.minPrice == p.minPrice && q.maxPrice == p.maxPrice
  {
    var page := if p.page < 1 then 1 else p.page;
    var limit := if p.limit < 1 || p.limit > MaxLimit then DefaultLimit else p.limit;
    var sortBy := if p.sortBy != "" && p.sortBy != "price" && p.sortBy != "created_at" then "created_at" else p.sortBy;
    var order := if p.order != "" && p.order != "asc" && p.order != "desc" then "desc" else p.order;
    ListParams(page, limit, sortBy, order, p.minPrice, p.maxPrice)
  }

  lemma NormalizeIdempotent(p: ListParams)
    ensures Normalize(Normalize(p)) == Normalize(p)
  {
  }

  /** The ordering a normalised request gets from the database. */
  function OrderingOf(q: ListParams): Ordering
    requires IsSortField(q.sortBy) && IsSortOrder(q.order)
  {
    if q.sortBy == "" then Ordering(CreatedAt, Desc)
    else Ordering(ColumnNamed(q.sortBy).value, if q.order == "desc" then Desc else Asc)
  }

  /** A listing: the repository's page for the normalised parameters. It
      fails only when the database does, since every normalised sort clause
      is one the database accepts; it holds at most 100 ads, all within the
      active price bounds, in the requested order. */
  function GetAds(table: AdTable, users: map<nat, User>, p: ListParams): (r: Result<seq<Advertisement>>)
    reads table
    ensures table.fault.Some? ==> r == Err(table.fault.value)
    ensures table.fault.None? ==> r.Ok?
    ensures r.Ok? ==>
              var q := Normalize(p);
              && r.value == PreloadAll(Window(Listing(table.rows, p.minPrice, p.maxPrice, OrderingOf(q)),
                                              Offset(q.page, q.limit), q.limit), users)
              && |r.value| <= MaxLimit
              && Sorted(r.value, OrderingOf(q))
              && forall i :: 0 <= i < |r.value| ==> InPriceRange(r.value[i], p.minPrice, p.maxPrice)
  {
    var q := Normalize(p);
    ClauseAccepted(q.sortBy, q.order);
    table.GetAll(users, q.page, q.limit, q.sortBy, q.order, q.minPrice, q.maxPrice)
  }

  /** Page numbers below 1 list page 1, and a limit out of [1, 100] lists
      10 ads, exactly as if those values had been asked for. */
  lemma OutOfRangeAsDefaults(table: AdTable, users: map<nat, User>, p: ListParams, page: int, limit: int)
    requires page < 1 && !(1 <= limit <= MaxLimit)
    ensures GetAds(table, users, p.(page := page)) == GetAds(table, users, p.(page := 1))
    ensures GetAds(table, users, p.(limit := limit)) == GetAds(table, users, p.(limit := DefaultLimit))
  {
    assert Normalize(p.(page := page)) == Normalize(p.(page := 1));
    assert Normalize(p.(limit := limit)) == Normalize(p.(limit := DefaultLimit));
  }
}
