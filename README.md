# A verified model of the marketplace back end

This project is a Dafny model of the core of keenetic29/vk-internship. That repository is a small marketplace service written in Go with gin, gorm and PostgreSQL. Users register and log in, and get a JWT that is valid for one hour. Authenticated users post advertisements: a title, a description, an image URL and a price. Anyone can list the advertisements, with paging, sorting and price filters. When the viewer is known, each listed ad says whether the viewer owns it; the router in internal/api/routes.go:38 serves `GET /ads` without the JWT middleware, so as shipped the viewer is never known there and `is_owner` is never sent.

The model covers these parts of the source:

- **Domain** (`domain.dfy`): the user and advertisement records, the row the database keeps for an ad, and the preloading of its owner.
- **AuthService** (`auth_service.dfy`): registration, login and token validation.
  - The user store is a class over a map keyed by username. It behaves like the repository double used by the service's tests.
  - The JWT library is a pair of functions: a signer and a parser. The predicate `Sound` states what is expected of them.
- **AdRepository** (`ad_repository.dfy`): the advertisements table and its listing query.
  - The table is a class over a sequence of rows, an id counter and an optional database fault.
  - A listing is a price filter, then an ORDER BY clause as the database reads it, then a stable sort, then gorm's OFFSET/LIMIT window taken at the page's true offset, then preloading of the owners. The source computes that offset in 64-bit `int` arithmetic, which can wrap (see "## Findings").
- **AdService** (`ad_service.dfy`): validation of a new ad, and normalisation of the listing parameters.
- **AdHandler** (`ad_handler.dfy`): the HTTP layer.
  - It covers query-string defaulting, the viewer-dependent `is_owner` field (built in a loop), and the image check over the answer to a HEAD request.
  - It also covers the ordered outcomes of POST /ads.
  - The service, the HTTP client, JSON decoding, URL syntax checking and float parsing are parameters.
- **Config** (`config.dfy`): reading the `.env` file into the process environment, settings with defaults, the JWT_SECRET requirement and the database URL.
  - The environment is a class over a map.
  - `LoadEnvFile` is a loop over the lines, proved against a fold.
- **GoStrings** (`go_strings.dfy`): the parts of `strings` and `strconv` the core uses: `TrimSpace`, `SplitN(…, 2)`, `Contains`, `Atoi` and `Itoa`. A Go string is modelled as a sequence of bytes, one `char` per byte.
- **Wrappers** (`wrappers.dfy`): `Option` and `Result`. A Go `error` is `Err(message)`.

Value conventions:

- Go's `uint` ids are `nat`.
- `time.Time` is an `int` instant.
- The current time is a parameter.
- `float64` prices are `real`.

## Model

| member | source | states |
|---|---|---|
| Domain.Persisted | internal/domain/models.go:14-24 | the stored row drops `IsOwner` (its column is excluded) and keeps every other field |
| Domain.Preload | internal/repository/advertisement_repository.go:23 | preloading `User` sets only the owner record: the user with the ad's `UserID`, or the zero user when there is none |
| AuthService.UserStore.Create | internal/services/auth_service_test.go:13-19 | a taken username is refused with "user already exists" and the store is unchanged; otherwise the user is stored under its name; each key stays its user's name |
| AuthService.UserStore.GetByUsername | internal/services/auth_service_test.go:21-26 | finds the user stored under the name, whose username is that name; otherwise "user not found" |
| AuthService.UserStore.Exists | internal/services/auth_service_test.go:28-31 | a name is taken exactly when a lookup finds it |
| AuthService.CreatedOr | internal/services/auth_service.go:51-55 | a store error is passed on, otherwise the user is returned |
| AuthService.AuthService.Register | internal/services/auth_service.go:29-56 | checks run in order: duplicate name, username length 3..20, password length ≥ 6; success exactly when all pass; the user is stored with id 0 and the plaintext password; a failure leaves the store unchanged |
| AuthService.AuthService.Login | internal/services/auth_service.go:58-74 | an unknown name and a wrong password both give "invalid credentials"; otherwise the result is the signer's, for the user's id, expiring one hour after the login |
| AuthService.AuthService.ValidateToken | internal/services/auth_service.go:76-83 | a token the parser accepts gives its user id and no error; otherwise 0 and the parser's error |
| AuthService.LoginFailuresAgree | internal/services/auth_service.go:59-66 | login cannot tell an unknown name from a wrong password |
| AuthService.LoginThenValidate | internal/services/auth_service.go:68 | with a sound codec, a login token validates to the user's id before issue time + 3600 and is refused from then on |
| AuthService.RegisterThenLogin | internal/services/auth_service.go:29-74 | registering a fresh valid name stores `User(0, name, password)`, and logging in with the same password reaches the signer for id 0 |
| AdRepository.ClauseAccepted | internal/repository/advertisement_repository.go:32-36 | every sort field and order the service lets through builds a clause the database accepts: no field means newest first, "desc" means descending, anything else ascending |
| AdRepository.InterpretJoin | internal/repository/advertisement_repository.go:33 | a clause joined from a column name and a keyword at one space is read as that name and keyword |
| AdRepository.DefaultClauseMeansNewestFirst | internal/repository/advertisement_repository.go:35 | the default clause orders by creation time, descending |
| AdRepository.NamedClause | internal/repository/advertisement_repository.go:33 | a whitelisted column and direction read back as that column, descending only for "desc" |
| AdRepository.Insert | internal/repository/advertisement_repository.go:33 | insertion adds exactly one element to the multiset |
| AdRepository.SortAds | internal/repository/advertisement_repository.go:33 | the ordered result is a permutation of the filtered rows |
| AdRepository.InsertSorted | internal/repository/advertisement_repository.go:33 | inserting into a sorted sequence keeps it sorted |
| AdRepository.SortAdsSorted | internal/repository/advertisement_repository.go:33 | the ordered result is sorted by the clause's column and direction |
| AdRepository.FilterByPrice | internal/repository/advertisement_repository.go:25-30 | a row is kept exactly when it meets every positive bound (price ≥ min, price ≤ max), as many times as the table holds it; no row is invented or dropped |
| AdRepository.OrderClause | internal/repository/advertisement_repository.go:32-36 | no sort field gives `created_at DESC`; a field without spaces and an order give a clause that splits back at its first space into that field and that order |
| AdRepository.Listing | internal/repository/advertisement_repository.go:25-36 | the ordered result is sorted, and holds each row within the price bounds exactly as many times as the table does, and no other row |
| AdRepository.DistinctIdsOnce | internal/domain/models.go:15 | in rows whose ids are distinct, no row occurs twice |
| AdRepository.ListingDistinct | internal/repository/advertisement_repository.go:25-36 | when the table's ids are distinct, the ordered result lists no id twice |
| AdRepository.WindowDistinct | internal/repository/advertisement_repository.go:38-39 | a window of a result with distinct ids has distinct ids |
| AdRepository.PageDistinct | internal/repository/advertisement_repository.go:20-42 | a page of a table with distinct ids lists no id twice |
| AdRepository.Window | internal/repository/advertisement_repository.go:38-39 | OFFSET/LIMIT as gorm applies them: a contiguous run starting at the offset (none when ≤ 0), of at most `limit` rows (no limit when negative) |
| AdRepository.WindowBetween | internal/repository/advertisement_repository.go:38-39 | a window at a non-negative offset is the slice from the offset to offset + limit, both capped at the length |
| AdRepository.WindowSorted | internal/repository/advertisement_repository.go:38-39 | a window of a sorted result is sorted |
| AdRepository.WindowWithin | internal/repository/advertisement_repository.go:38-39 | every element of a window comes from the result it is cut from |
| AdRepository.Offset | internal/repository/advertisement_repository.go:38 | page 1 starts at row 0; for page ≥ 1 the offset is non-negative, and with a positive limit it is exactly page − 1 whole pages |
| AdRepository.OffsetStep | internal/repository/advertisement_repository.go:38 | page k starts where page k − 1 ends, at a non-negative offset |
| AdRepository.PagesTile | internal/repository/advertisement_repository.go:38-39 | pages 1..k of a positive limit are exactly the first k·limit rows, with no gap or overlap |
| AdRepository.PageElement | internal/repository/advertisement_repository.go:38 | item i of page p is row (p−1)·limit + i of the ordered result |
| AdRepository.PageBeyondEndIsEmpty | internal/repository/advertisement_repository.go:38-39 | a page whose offset is at or past the end is empty |
| AdRepository.WrapInt64 | internal/repository/advertisement_repository.go:38 | 64-bit wrap-around: the result is in range and congruent modulo 2^64 |
| AdRepository.OffsetAsWritten | internal/repository/advertisement_repository.go:38 | the offset in Go `int` arithmetic agrees with the true offset whenever the true offset fits in 64 bits |
| AdRepository.OffsetOverflowReturnsFirstPage | internal/repository/advertisement_repository.go:38-39 | page 2^62+1 of 4 wraps the offset to 0 and lists the first page, where the true offset lists nothing |
| AdRepository.PreloadAll | internal/repository/advertisement_repository.go:23 | every listed ad is preloaded, in the same order |
| AdRepository.PreloadKeepsOrder | internal/repository/advertisement_repository.go:23 | preloading does not disturb the order |
| AdRepository.AdTable.constructor | internal/repository/advertisement_repository.go:12-14 | a new table is empty and valid |
| AdRepository.AdTable.Create | internal/repository/advertisement_repository.go:16-18 | a failing database returns its error and changes nothing; otherwise the ad gets the next id and its creation time, and its persisted row is appended |
| AdRepository.AdTable.GetAll | internal/repository/advertisement_repository.go:20-42 | a database fault or a rejected clause is an error; otherwise the result is the preloaded window of the ordered, filtered rows: sorted, at most `limit` long, within the price bounds, each a table row with its owner, and on a valid table no id listed twice |
| AdRepository.ResultFacts | internal/repository/advertisement_repository.go:20-42 | the listing facts above hold for every table and every parameter |
| AdService.CheckAd | internal/services/advertisement_service.go:22-32 | the first broken rule in order title 5..100, description 10..1000, price > 0; accepted exactly when all hold; an accepted title and description fit their columns |
| AdService.CheckAdBoundaries | internal/services/advertisement_service.go:22-32 | the length bounds are inclusive at both ends, and a price of 0 or below is refused |
| AdService.NewAd | internal/services/advertisement_service.go:34-40 | the ad handed to the repository carries the given title, description, image URL, price and owner id; its id, creation time, owner record and ownership flag are Go's zero values |
| AdService.CreateAd | internal/services/advertisement_service.go:21-47 | a rejected ad never reaches the table; an accepted one is inserted once with the given fields and owner; a repository error is passed on |
| AdService.Normalize | internal/services/advertisement_service.go:49-66 | page < 1 becomes 1; a limit outside 1..100 becomes 10; an unknown sort field becomes created_at; an unknown order becomes desc; values in range and the price bounds pass unchanged |
| AdService.NormalizeIdempotent | internal/services/advertisement_service.go:49-64 | normalising twice is normalising once |
| AdService.GetAds | internal/services/advertisement_service.go:49-67 | fails only with the database's error (every normalised clause is accepted); the result is at most 100 ads, sorted as requested, within the price bounds |
| AdService.OutOfRangeAsDefaults | internal/services/advertisement_service.go:50-56 | an out-of-range page or limit lists exactly what page 1 or limit 10 lists |
| AdHandler.ValidateImageUrl | internal/api/handlers/advertisement_handler.go:55-88 | passes exactly when the HEAD request succeeds, the content type is a substring of the allowed list and the size is ≤ 10 MiB; otherwise the first failing rule's error |
| AdHandler.ImageCheckAccepts | internal/api/handlers/advertisement_handler.go:69-77 | the three image types, a missing content type and an unknown length are accepted |
| AdHandler.ImageCheckRejectsType | internal/api/handlers/advertisement_handler.go:69-75 | text/html is refused as a format |
| AdHandler.ImageCheckRejectsSize | internal/api/handlers/advertisement_handler.go:77-83 | one byte over 10 MiB is refused as too large |
| AdHandler.ParseListQuery | internal/api/handlers/advertisement_handler.go:157-162 | an absent key gets its default (1, 10, created_at, desc, no price bound); a present key is used even when empty; page and limit read as `Atoi`'s value |
| AdHandler.DefaultQuery | internal/api/handlers/advertisement_handler.go:157-160 | a key in the query gives its value, even when empty; an absent key gives the default |
| AdHandler.ParseListQueryDefaults | internal/api/handlers/advertisement_handler.go:157-162 | the empty query reads as page 1, limit 10, newest first, no price bound |
| AdHandler.ParseListQueryExample | internal/api/handlers/advertisement_handler.go:157-162 | the handler tests' full query reads as the parameters it spells |
| AdHandler.UnparsablePageIsZero | internal/api/handlers/advertisement_handler.go:157 | a page with a non-digit after at most 19 digits reads as 0, which the service turns into page 1 |
| AdHandler.OverflowingPageIsKept | internal/api/handlers/advertisement_handler.go:157 | `page=99999999999999999999x` reads as the largest `int`, which the service keeps |
| AdHandler.CurrentUserId | internal/api/handlers/advertisement_handler.go:183-191 | the viewer is the context's `uint` user id; no user id, or one of another type, is the anonymous viewer 0 |
| AdHandler.BuildResponse | internal/api/handlers/advertisement_handler.go:204-222 | one item per ad, in order, with its fields and the owner's username; an anonymous viewer gets no `is_owner` field, a known one gets whether they own the ad |
| AdHandler.GetAds | internal/api/handlers/advertisement_handler.go:151-230 | a service error becomes a 500 with its text; otherwise 200 with the viewer-shaped items |
| AdHandler.FieldErrors | internal/api/handlers/advertisement_handler.go:48-53 | a request binds exactly when every field is present (a non-zero price) and the image URL is a URL |
| AdHandler.Bind | internal/api/handlers/advertisement_handler.go:105-113 | a body binds exactly when it decodes and passes the rules, and then as decoded |
| AdHandler.CreateAd | internal/api/handlers/advertisement_handler.go:90-149 | outcomes in order: 401 without a user, 400 with the bind error, 400 with the image error, 400 with the service's error text, otherwise 201 with the created ad marked as owned |
| AdHandler.UnauthorizedDecidesAlone | internal/api/handlers/advertisement_handler.go:96-103 | without a user the reply does not depend on the body, the image or the service |
| AdHandler.ImageFailureSkipsService | internal/api/handlers/advertisement_handler.go:121-131 | when the image check fails, the service's behaviour does not matter |
| Config.ParseLine | internal/config/config.go:64-78 | an assignment has a non-empty trimmed key without '=' and a trimmed value; blank lines, comments and lines without '=' assign nothing |
| Config.Accepted | internal/config/config.go:76-78 | the assignment a line makes is the one it asks for, exactly when `os.Setenv` accepts it |
| Config.Assignments | internal/config/config.go:63-79 | one assignment per line, in order |
| Config.ApplyLinesSnoc | internal/config/config.go:63-79 | one more line makes its own assignment on top of the earlier ones |
| Config.Environment.Setenv | internal/config/config.go:77 | a valid key and value are set, overriding any old value; otherwise nothing changes |
| Config.LoadEnvFile | internal/config/config.go:55-82 | a file that does not open changes nothing; otherwise every line read is applied in order, and the scanner's error is returned |
| Config.ParseLineAround | internal/config/config.go:64 | blank space around a line does not change the assignment it asks for |
| Config.ParseLineSplit | internal/config/config.go:69-76 | a trimmed line `key<blanks>=rest` asks for the key and the trimmed rest |
| Config.ParseLineOfAssignment | internal/config/config.go:64-78 | `key = value` with blank space around the line and on either side of '=' reads back as that key and value: both sides are trimmed separately |
| Config.EmptyKeySkipped | internal/config/config.go:74-77 | a line whose first non-blank byte is '=' has an empty key and assigns nothing |
| Config.LastSetWins | internal/config/config.go:77 | after a sequence of assignments, a key holds the value of the last one that sets it |
| Config.UnsetKept | internal/config/config.go:77 | a key no assignment sets keeps its value, or stays unset |
| Config.LastAssignmentWins | internal/config/config.go:63-79 | the last line that assigns a key decides its value |
| Config.UnassignedKeyKept | internal/config/config.go:63-79 | a key no line assigns keeps the process's value, or stays unset |
| Config.CommentsIgnored | internal/config/config.go:65-67 | blank and comment lines assign nothing |
| Config.GetEnv | internal/config/config.go:84-89 | a set variable wins over the default, even when empty |
| Config.Settings | internal/config/config.go:27-37 | each setting is its variable when set, and otherwise its default |
| Config.LoadConfig | internal/config/config.go:22-44 | a load error is wrapped as "error loading config file: …"; an empty secret gives "JWT_SECRET is required"; success exactly otherwise, with the settings from the loaded environment |
| Config.SecretFromFile | internal/config/config.go:33-40 | a file whose last JWT_SECRET assignment is non-empty configures that secret |
| Config.SecretRequired | internal/config/config.go:33-41 | a secret set neither by the process nor by the file is empty, so loading fails |
| Config.GetDBConnectionString | internal/config/config.go:46-53 | the URL is `postgres://` followed by the five parts and their four separators |
| Config.ConnectionStringRoundTrip | internal/config/config.go:46-53 | the URL names exactly the configured user, password, host, port and database when those parts hold no separator |
| GoStrings.TrimSpace | internal/config/config.go:64 | the result is the input without its leading and trailing ASCII white space |
| GoStrings.TrimSpaceSlice | internal/config/config.go:64 | what is kept is a slice of the input with only white space outside it |
| GoStrings.TrimSpaceAround | internal/config/config.go:74-75 | trimming removes exactly the white space around a trimmed text |
| GoStrings.SplitFirst | internal/config/config.go:69-72 | two parts exactly when the separator occurs; they are split at its first occurrence |
| GoStrings.SplitFirstJoin | internal/config/config.go:69 | splitting recovers a pair joined at a separator the first part lacks |
| GoStrings.ContainsAt | internal/api/handlers/advertisement_handler.go:69 | `Contains` holds exactly when the text occurs at some position |
| GoStrings.NotContainsFirst | internal/api/handlers/advertisement_handler.go:69 | a text whose first byte never occurs is not contained |
| GoStrings.AtoiValue | internal/api/handlers/advertisement_handler.go:157-158 | `strconv.Atoi`'s value is always a 64-bit `int`, and 0 when nothing, or a non-digit, follows the optional sign |
| GoStrings.AtoiOfSignedNumeral | internal/api/handlers/advertisement_handler.go:157-158 | an optional sign followed by digits reads as the signed value, clamped to the 64-bit range |
| GoStrings.AtoiOfNumeral | internal/api/handlers/advertisement_handler.go:157-158 | digits alone read as their value, clamped to the 64-bit range |
| GoStrings.AtoiOfItoa | internal/api/handlers/advertisement_handler.go:157-158 | Atoi reads back every 64-bit number Itoa prints, signed or not |
| GoStrings.AtoiOfNonNumeral | internal/api/handlers/advertisement_handler.go:157-158 | a non-digit after the first byte and at most 19 digits makes Atoi's value 0 |
| GoStrings.AtoiOfOverflowingDigits | internal/api/handlers/advertisement_handler.go:157-158 | digits already worth more than 2^64 − 1 make Atoi's value the largest `int`, whatever follows them |
| GoStrings.AtoiOfTwentyNinesAndLetter | internal/api/handlers/advertisement_handler.go:157-158 | `99999999999999999999x` reads as the largest `int`, not 0 |

## Left out

- Logging (pkg/logger) and all log calls: they have no effect on results.
- Password hashing. The source stores and compares passwords in plaintext, and the model does the same.
- The database-backed user repository (internal/repository/user_repository.go). The store follows the test double: it refuses a duplicate itself, and ids stay 0. An auto-increment id, the store's I/O errors and the `Exists` error path are not modelled.
- The JWT library: HS256 signing, the JSON claims, the clock. It is an abstract codec with the soundness contract `Sound`. `ValidateToken` takes the current time as a parameter.
- AuthService.AuthService.Login: the token's expiry is `now + 3600` in whole seconds. The JWT NumericDate rounding is not modelled.
- The auth handler and the JWT middleware (internal/api/handlers/auth_handler.go, internal/api/routes.go) are not part of this model. The request context's `userID` is a parameter.
- AdHandler.CreateAd: a `userID` in the context that is not a `uint` makes the source panic. The model takes the id as an `Option<nat>` and does not model the panic.
- AdHandler.GetAds: an empty result is sent as JSON `null`, because the response slice stays nil. The model returns an empty sequence. JSON encoding is not modelled.
- AdHandler.ParseListQuery: `strconv.ParseFloat` is a parameter. Its ±Inf result on an out-of-range number, which the source keeps, is not modelled. Only the first value of a repeated query key is read, and the query map holds just that value.
- AdHandler.FieldErrors: the `url` validator is the parameter `isUrl`. The JSON decoder's own messages are the decoder's `Err` text. The order of the joined validator messages follows the struct's field order.
- The HTTP client, its two-second timeout and closing the body. The HEAD answer is the `HeadResult` value.
- AdRepository.Interpret: only the clauses the code can build are read as the database does. Mixed-case keywords, extra spaces and SQL injection through `sortBy` are out of scope, because the service lets only the three whitelisted fields through.
- AdRepository.AdTable.GetAll: the window is taken at the true offset `(page − 1) · limit`, the corrected definition from "## Findings". The source's 64-bit wrap of that product is modelled only by `OffsetAsWritten`, so for a page whose offset does not fit in 64 bits `GetAll` lists nothing where the source lists the page the wrapped offset selects.
- AdService.GetAds: it lists through `GetAll`, so it too uses the true offset rather than the source's wrapped one.
- AdRepository.SortAds: rows with equal keys keep table order. The database leaves their order unspecified, so the model fixes one of the allowed orders.
- AdRepository.AdTable.Create: gorm keeps an id or creation time the caller set, but the model always assigns both. The service never sets them. Ids and `uint` width are unbounded.
- Config.LoadEnvFile: the scanner's 64 KiB line limit and its I/O are the `readError` of the `EnvFile` value. The lines are given as the scanner yields them, after it drops the line ending.
- Config.GetDBConnectionString: no escaping is done, as in the source. How the database driver parses the URL is not modelled. The round trip is stated only for parts that hold no separator.
- AtoiOfNonNumeral: it is stated for a non-digit after at most 19 digits, which cannot exceed 2^64 − 1. A longer run of digits worth at most 2^64 − 1 (leading zeros) before a non-digit also reads as 0 in `AtoiValue`, but no lemma states it; a run worth more reads as the bound of its sign (`AtoiOfOverflowingDigits`).
- UnparsablePageIsZero: stated under the same 19-digit bound as `AtoiOfNonNumeral`; `OverflowingPageIsKept` shows the other side.
- GoStrings.AtoiValue: Go's `int` is taken to be 64 bits wide.
- GoStrings.TrimSpace: only ASCII white space is trimmed. Unicode white space such as U+0085 or U+00A0 is not modelled.
- cmd/main.go, pkg/database and routing are wiring with no logic to verify.

## Findings

| source | as written | input that shows it | evidently intended | confidence | as-written member | corrected member |
|---|---|---|---|---|---|---|
| internal/repository/advertisement_repository.go:38 | `offset := (page - 1) * limit` in 64-bit `int`; the service only raises a page below 1, so a huge page reaches this line | page = 2^62 + 1, limit = 4: the product is 2^64, which wraps to 0, so the first page is listed | a page past the end of the result lists nothing | not executed; the wrap follows from Go's defined integer overflow | AdRepository.OffsetOverflowReturnsFirstPage | AdRepository.PageBeyondEndIsEmpty |
