/** The HTTP layer for advertisements (internal/api/handlers/advertisement_handler.go):
    query-parameter defaulting and the per-viewer listing response, the image
    check over the answer to a HEAD request, and the ordered outcomes of ad
    creation. The service, the HTTP client, JSON decoding, URL-syntax checking
    and float parsing are parameters. */
module AdHandler {
  import opened Wrappers
  import opened Domain
  import opened GoStrings
  import opened AdService

  const StatusOK := 200
  const StatusCreated := 201
  const StatusBadRequest := 400
  const StatusUnauthorized := 401
  const StatusInternalServerError := 500

  const ErrUnauthorized := "unauthorized"

  // ---------------------------------------------------------------------------
  // Image check

  const MaxImageSize := 10 * 1024 * 1024
  const AllowedImageTypes := "image/jpeg,image/png,image/webp"

  const ErrImageUnreachable := "invalid image URL or unable to verify"
  const ErrImageType := "only JPEG, PNG and WEBP images are allowed"
  const ErrImageSize := "image size exceeds maximum limit"

  /** The answer to a HEAD request for the image: a transport error, or the
      Content-Type header ("" when absent) and the Content-Length (-1 when
      unknown). */
  datatype HeadResult = HeadFailed(reason: string) | HeadOk(contentType: string, contentLength: int)

  /** The image check: the request must succeed, the content type must occur
      somewhere in the allowed-types text, and the announced size must not
      exceed 10 MiB; the first failing rule gives the error. */
  function ValidateImageUrl(head: HeadResult): (e: Option<string>)
    ensures e.None? <==>
              head.HeadOk? && Contains(AllowedImageTypes, head.contentType) && head.contentLength <= MaxImageSize
    ensures head.HeadFailed? ==> e == Some(ErrImageUnreachable)
    ensures head.HeadOk? && !Contains(AllowedImageTypes, head.contentType) ==> e == Some(ErrImageType)
    ensures head.HeadOk? && Contains(AllowedImageTypes, head.contentType) && head.contentLength > MaxImageSize ==>
              e == Some(ErrImageSize)
  {
    match head
    case HeadFailed(_) => Some(ErrImageUnreachable)
    case HeadOk(contentType, size) =>
      if !Contains(AllowedImageTypes, contentType) then Some(ErrImageType)
      else if size > MaxImageSize then Some(ErrImageSize)
      else None
  }

  /** The three image types, a missing Content-Type header and an unknown
      length pass the check. */
  lemma ImageCheckAccepts()
    ensures ValidateImageUrl(HeadOk("image/jpeg", MaxImageSize)).None?
    ensures ValidateImageUrl(HeadOk("image/png", -1)).None?
    ensures ValidateImageUrl(HeadOk("image/webp", 0)).None?
    ensures ValidateImageUrl(HeadOk("", 1048576)).None?
  {
    assert OccursAt(AllowedImageTypes, "image/jpeg", 0);
    assert OccursAt(AllowedImageTypes, "image/png", 11);
    assert OccursAt(AllowedImageTypes, "image/webp", 21);
    ContainsAt(AllowedImageTypes, "image/jpeg");
    ContainsAt(AllowedImageTypes, "image/png");
    ContainsAt(AllowedImageTypes, "image/webp");
    assert HasPrefix(AllowedImageTypes, "");
  }

  /** A content type other than the three is refused. */
  lemma ImageCheckRejectsType()
    ensures ValidateImageUrl(HeadOk("text/html", 10485760)) == Some(ErrImageType)
  {
    assert 't' !in AllowedImageTypes;
    NotContainsFirst(AllowedImageTypes, "text/html");
  }

  /** An image one byte over 10 MiB is refused. */
  lemma ImageCheckRejectsSize()
    ensures ValidateImageUrl(HeadOk("image/png", MaxImageSize + 1)) == Some(ErrImageSize)
  {
    assert OccursAt(AllowedImageTypes, "image/png", 11);
    ContainsAt(AllowedImageTypes, "image/png");
  }

  // ---------------------------------------------------------------------------
  // Listing

  /** gin's `DefaultQuery`: the query value when the key is present, even if
      empty, and the default only when it is absent. */
  function DefaultQuery(query: map<string, string>, key: string, default: string): (value: string)
    ensures key in query ==> value == query[key]
    ensures key !in query ==> value == default
  {
    if key in query then query[key] else default
  }

  /** The listing parameters read from the query string. Page and limit go
      through `strconv.Atoi` with the error dropped, so a value with a
      non-digit becomes 0 (and the service then replaces it), unless the
      digits before it already exceed 2^64 - 1, when it becomes the largest
      `int` (and the service keeps it); a price that does not
      parse, or is absent, becomes 0, which the repository reads as "no
      bound". */
  function ParseListQuery(query: map<string, string>, parseFloat: string -> Option<real>): (p: ListParams)
    requires parseFloat("") == None
    ensures "page" !in query ==> p.page == 1
    ensures "limit" !in query ==> p.limit == DefaultLimit
    ensures "sort_by" !in query ==> p.sortBy == "created_at"
    ensures "order" !in query ==> p.order == "desc"
    ensures "min_price" !in query ==> p.minPrice == 0.0
    ensures "max_price" !in query ==> p.maxPrice == 0.0
    ensures "page" in query ==> p.page == AtoiValue(query["page"])
    ensures "limit" in query ==> p.limit == AtoiValue(query["limit"])
    ensures "sort_by" in query ==> p.sortBy == query["sort_by"]
    ensures "order" in query ==> p.order == query["order"]
    ensures "min_price" in query ==> p.minPrice == parseFloat(query["min_price"]).GetOr(0.0)
    ensures "max_price" in query ==> p.maxPrice == parseFloat(query["max_price"]).GetOr(0.0)
  {
    assert AtoiValue("1") == 1 by { AtoiOfNumeral("1"); }
    assert AtoiValue("10") == 10 by { AtoiOfNumeral("10"); }
    ListParams(
      AtoiValue(DefaultQuery(query, "page", "1")),
      AtoiValue(DefaultQuery(query, "limit", "10")),
      DefaultQuery(query, "sort_by", "created_at"),
      DefaultQuery(query, "order", "desc"),
      parseFloat(DefaultQuery(query, "min_price", "")).GetOr(0.0),
      parseFloat(DefaultQuery(query, "max_price", "")).GetOr(0.0))
  }

  /** An empty query string gives the defaults: page 1 of 10, newest first,
      no price bounds. */
  lemma ParseListQueryDefaults(parseFloat: string -> Option<real>)
    requires parseFloat("") == None
    ensures ParseListQuery(map[], parseFloat) == ListParams(1, 10, "created_at", "desc", 0.0, 0.0)
  {
    var p := ParseListQuery(map[], parseFloat);
    assert p.page == 1 && p.limit == DefaultLimit;
  }

  /** The query string of the handler's tests, read with a float parser that
      knows "100" and "300", gives exactly the parameters passed on. */
  lemma ParseListQueryExample(parseFloat: string -> Option<real>)
    requires parseFloat("") == None
    requires parseFloat("100") == Some(100.0) && parseFloat("300") == Some(300.0)
    ensures ParseListQuery(map["page" := "2", "limit" := "5", "sort_by" := "price", "order" := "asc",
                               "min_price" := "100", "max_price" := "300"], parseFloat)
            == ListParams(2, 5, "price", "asc", 100.0, 300.0)
  {
    var q := map["page" := "2", "limit" := "5", "sort_by" := "price", "order" := "asc",
                 "min_price" := "100", "max_price" := "300"];
    assert q["page"] == "2" && q["limit"] == "5";
    assert AtoiValue("2") == 2 by { AtoiOfNumeral("2"); }
    assert AtoiValue("5") == 5 by { AtoiOfNumeral("5"); }
    var p := ParseListQuery(q, parseFloat);
    assert p.page == 2 && p.limit == 5;
  }

  /** A page with a non-digit after at most 19 digits is read as 0, which
      the service turns into page 1. */
  lemma UnparsablePageIsZero(query: map<string, string>, parseFloat: string -> Option<real>, k: nat)
    requires parseFloat("") == None
    requires "page" in query && 0 < k < |query["page"]| && !IsDigit(query["page"][k]) && k <= 19
    ensures ParseListQuery(query, parseFloat).page == 0
    ensures Normalize(ParseListQuery(query, parseFloat)).page == 1
  {
    AtoiOfNonNumeral(query["page"], k);
  }

  /** A page whose leading digits exceed 2^64 - 1 is read as the largest
      `int` even when a non-digit follows, and the service keeps it. */
  lemma OverflowingPageIsKept(parseFloat: string -> Option<real>)
    requires parseFloat("") == None
    ensures ParseListQuery(map["page" := "99999999999999999999x"], parseFloat).page == MaxInt64
    ensures Normalize(ParseListQuery(map["page" := "99999999999999999999x"], parseFloat)).page == MaxInt64
  {
    AtoiOfTwentyNinesAndLetter();
  }

  /** The `userID` stored in the request context by the authentication
      middleware, when there is one: a `uint`, or a value of another type. */
  datatype ContextValue = Uint(n: nat) | NotUint

  /** The viewer's id, 0 for an anonymous viewer. */
  function CurrentUserId(userId: Option<ContextValue>): (id: nat)
    ensures userId == Some(Uint(id)) || id == 0
    ensures userId.None? || userId == Some(NotUint) ==> id == 0
  {
    match userId
    case Some(Uint(n)) => n
    case _ => 0
  }

  /** One listed ad as sent to the client; `isOwner` None is an omitted field. */
  datatype ResponseAd = ResponseAd(
    id: nat, title: string, description: string, imageUrl: string, price: real,
    authorLogin: string, createdAt: int, isOwner: Option<bool>)

  /** `item` carries the fields of `ad`, with its owner's username as the
      author login. */
  predicate Copies(item: ResponseAd, ad: Advertisement) {
    && item.id == ad.id && item.title == ad.title && item.description == ad.description
    && item.imageUrl == ad.imageUrl && item.price == ad.price
    && item.authorLogin == ad.user.username && item.createdAt == ad.createdAt
  }

  /** Builds the response items, one per ad and in the same order. With an
      anonymous viewer (id 0) no item carries the ownership field; otherwise
      every item says whether the viewer owns the ad. */
  method BuildResponse(ads: seq<Advertisement>, currentUserId: nat) returns (response: seq<ResponseAd>)
    ensures |response| == |ads|
    ensures forall i :: 0 <= i < |ads| ==> Copies(response[i], ads[i])
    ensures currentUserId == 0 ==> forall i :: 0 <= i < |response| ==> response[i].isOwner.None?
    ensures currentUserId != 0 ==>
              forall i :: 0 <= i < |response| ==> response[i].isOwner == Some(ads[i].userId == currentUserId)
  {
    response := [];
    for i := 0 to |ads|
      invariant |response| == i
      invariant forall k :: 0 <= k < i ==> Copies(response[k], ads[k])
      invariant currentUserId == 0 ==> forall k :: 0 <= k < i ==> response[k].isOwner.None?
      invariant currentUserId != 0 ==>
                  forall k :: 0 <= k < i ==> response[k].isOwner == Some(ads[k].userId == currentUserId)
    {
      var ad := ads[i];
      var item := ResponseAd(ad.id, ad.title, ad.description, ad.imageUrl, ad.price,
                             ad.user.username, ad.createdAt, None);
      if currentUserId != 0 {
        item := item.(isOwner := Some(ad.userId == currentUserId));
      }
      response := response + [item];
    }
  }

  datatype ListReply = ListFailed(status: int, error: string) | Listed(status: int, items: seq<ResponseAd>)

  /** GET /ads: the parameters from the query string go to the service; its
      error becomes a 500 carrying the error text and no items; its ads come
      back with status 200, shaped for the viewer. */
  method GetAds(query: map<string, string>, parseFloat: string -> Option<real>, userId: Option<ContextValue>,
                service: ListParams -> Result<seq<Advertisement>>) returns (reply: ListReply)
    requires parseFloat("") == None
    ensures service(ParseListQuery(query, parseFloat)).Err? ==>
              reply == ListFailed(StatusInternalServerError, service(ParseListQuery(query, parseFloat)).error)
    ensures service(ParseListQuery(query, parseFloat)).Ok? ==>
              var ads := service(ParseListQuery(query, parseFloat)).value;
              && reply.Listed? && reply.status == StatusOK && |reply.items| == |ads|
              && (forall i :: 0 <= i < |ads| ==> Copies(reply.items[i], ads[i]))
              && (CurrentUserId(userId) == 0 ==> forall i :: 0 <= i < |ads| ==> reply.items[i].isOwner.None?)
              && (CurrentUserId(userId) != 0 ==>
                    forall i :: 0 <= i < |ads| ==> reply.items[i].isOwner == Some(ads[i].userId == CurrentUserId(userId)))
  {
    var params := ParseListQuery(query, parseFloat);
    var ads := service(params);
    if ads.Err? {
      return ListFailed(StatusInternalServerError, ads.error);
    }
    var items := BuildResponse(ads.value, CurrentUserId(userId));
    return Listed(StatusOK, items);
  }

  // ---------------------------------------------------------------------------
  // Creation

  datatype CreateAdRequest = CreateAdRequest(title: string, description: string, imageUrl: string, price: real)

  /** The validator's message for one field that fails one tag. */
  function FieldError(field: string, tag: string): string {
    "Key: 'CreateAdRequest." + field + "' Error:Field validation for '" + field + "' failed on the '" + tag + "' tag"
  }

  function JoinLines(lines: seq<string>): string {
    if |lines| == 0 then "" else if |lines| == 1 then lines[0] else lines[0] + "\n" + JoinLines(lines[1..])
  }

  /** The binding rules that fail for a decoded request: every field is
      required (non-empty, and a non-zero price), and the image URL must be a
      URL. */
  function FieldErrors(req: CreateAdRequest, isUrl: string -> bool): (errs: seq<string>)
    ensures errs == [] <==>
              req.title != "" && req.description != "" && req.imageUrl != "" && isUrl(req.imageUrl) && req.price != 0.0
  {
    (if req.title == "" then [FieldError("Title", "required")] else [])
    + (if req.description == "" then [FieldError("Description", "required")] else [])
    + (if req.imageUrl == "" then [FieldError("ImageURL", "required")]
       else if !isUrl(req.imageUrl) then [FieldError("ImageURL", "url")] else [])
    + (if req.price == 0.0 then [FieldError("Price", "required")] else [])
  }

  /** `ShouldBindJSON`: a body that does not decode gives the decoder's
      error, a decoded one must pass the binding rules. */
  function Bind(body: Result<CreateAdRequest>, isUrl: string -> bool): (r: Result<CreateAdRequest>)
    ensures r.Ok? <==> body.Ok? && FieldErrors(body.value, isUrl) == []
    ensures r.Ok? ==> r.value == body.value
  {
    match body
    case Err(e) => Err(e)
    case Ok(req) =>
      var errs := FieldErrors(req, isUrl);
      if errs == [] then Ok(req) else Err(JoinLines(errs))
  }

  datatype CreateReply = CreateFailed(status: int, error: string) | Created(status: int, ad: Advertisement)

  /** POST /ads. Outcomes in order: no authenticated user is a 401 before
      the body is read; a body that does not bind is a 400; an image that
      fails the check is a 400 and the service is not called; a service error
      is a 400; otherwise 201 with the created ad marked as the viewer's own. */
  function CreateAd(userId: Option<nat>, body: Result<CreateAdRequest>, isUrl: string -> bool,
                    head: string -> HeadResult,
                    service: (nat, string, string, string, real) -> Result<Advertisement>): (reply: CreateReply)
    ensures userId.None? ==> reply == CreateFailed(StatusUnauthorized, ErrUnauthorized)
    ensures userId.Some? && Bind(body, isUrl).Err? ==>
              reply == CreateFailed(StatusBadRequest, Bind(body, isUrl).error)
    ensures userId.Some? && Bind(body, isUrl).Ok? && ValidateImageUrl(head(body.value.imageUrl)).Some? ==>
              reply == CreateFailed(StatusBadRequest, ValidateImageUrl(head(body.value.imageUrl)).value)
    ensures && userId.Some? && Bind(body, isUrl).Ok? && ValidateImageUrl(head(body.value.imageUrl)).None?
            && service(userId.value, body.value.title, body.value.description, body.value.imageUrl, body.value.price).Err? ==>
              reply == CreateFailed(StatusBadRequest,
                                    service(userId.value, body.value.title, body.value.description,
                                            body.value.imageUrl, body.value.price).error)
    ensures reply.Created? <==>
              && userId.Some? && Bind(body, isUrl).Ok? && ValidateImageUrl(head(body.value.imageUrl)).None?
              && service(userId.value, body.value.title, body.value.description, body.value.imageUrl, body.value.price).Ok?
    ensures reply.Created? ==>
              && reply.status == StatusCreated && reply.ad.isOwner
              && reply.ad == service(userId.value, body.value.title, body.value.description,
                                     body.value.imageUrl, body.value.price).value.(isOwner := true)
    ensures reply.CreateFailed? ==> reply.status in {StatusUnauthorized, StatusBadRequest}
  {
    if userId.None? then CreateFailed(StatusUnauthorized, ErrUnauthorized)
    else match Bind(body, isUrl)
      case Err(e) => CreateFailed(StatusBadRequest, e)
      case Ok(req) =>
        match ValidateImageUrl(head(req.imageUrl))
        case Some(e) => CreateFailed(StatusBadRequest, e)
        case None =>
          match service(userId.value, req.title, req.description, req.imageUrl, req.price)
          case Err(e) => CreateFailed(StatusBadRequest, e)
          case Ok(ad) => Created(StatusCreated, ad.(isOwner := true))
  }

  /** Without an authenticated user the reply depends on nothing else: the
      body, the image and the service are never looked at. */
  lemma UnauthorizedDecidesAlone(body1: Result<CreateAdRequest>, body2: Result<CreateAdRequest>,
                                 isUrl1: string -> bool, isUrl2: string -> bool,
                                 head1: string -> HeadResult, head2: string -> HeadResult,
                                 service1: (nat, string, string, string, real) -> Result<Advertisement>,
                                 service2: (nat, string, string, string, real) -> Result<Advertisement>)
    ensures CreateAd(None, body1, isUrl1, head1, service1) == CreateAd(None, body2, isUrl2, head2, service2)
  {
  }

  /** When the image check fails, the reply is the same whatever the service
      would have done: the service is not called. */
  lemma ImageFailureSkipsService(userId: nat, body: Result<CreateAdRequest>, isUrl: string -> bool,
                                 head: string -> HeadResult,
                                 service1: (nat, string, string, string, real) -> Result<Advertisement>,
                                 service2: (nat, string, string, string, real) -> Result<Advertisement>)
    requires Bind(body, isUrl).Ok? && ValidateImageUrl(head(body.value.imageUrl)).Some?
    ensures CreateAd(Some(userId), body, isUrl, head, service1) == CreateAd(Some(userId), body, isUrl, head, service2)
    ensures CreateAd(Some(userId), body, isUrl, head, service1).status == StatusBadRequest
  {
  }
}
