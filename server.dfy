/**
 * The request handlers of the server: `POST /api/shorten`, `GET /:code` and the
 * catch-all route, as methods over the in-memory table. Responses are values.
 */
module Server {
  import opened Wrappers
  import opened Utils
  import opened Database

  /** The bound of the collision-retry loop. */
  const MaxAttempts := 10

  /** The `url` member of the JSON request body. */
  datatype UrlField =
    | Missing             // absent, `undefined` or `null`
    | NonString           // a number, boolean, array or object
    | Text(value: string)

  datatype Payload =
    | Shortened(shortUrl: string, originalUrl: string)
    | Failure(error: string)

  datatype Response =
    | Json(status: int, payload: Payload)
    | Redirect(status: int, location: string)
    | IndexPage           // `client/dist/index.html`

  /** The `shortUrl` reported for a code. */
  function ShortUrl(baseUrl: string, code: string): (r: string)
    ensures |r| == |baseUrl| + 1 + |code|
    ensures r[..|baseUrl|] == baseUrl && r[|baseUrl|] == '/' && r[|baseUrl| + 1..] == code
  {
    baseUrl + "/" + code
  }

  /** The input passes both checks of the shorten handler: a non-empty string that validates. */
  predicate Accepted(url: UrlField, parse: UrlParser)
  {
    url.Text? && url.value != "" && ValidateUrl(parse, url.value)
  }

  /** Every code in the table has the generator's length. */
  predicate CodesWellFormed(rows: seq<UrlRecord>)
  {
    forall i :: 0 <= i < |rows| ==> Utf16Length(rows[i].shortCode) == CodeLength
  }

  /** The first attempt in `[from, bound)` whose candidate is not in the table, or `bound`
      when every candidate there is taken. */
  function FirstFree(rows: seq<UrlRecord>, source: CodeSource, from: nat, bound: nat): (k: nat)
    requires from <= bound
    ensures from <= k <= bound
    ensures k < bound ==> !HasCode(rows, source(k))
    ensures forall j :: from <= j < k ==> HasCode(rows, source(j))
    decreases bound - from
  {
    if from == bound || !HasCode(rows, source(from)) then from
    else FirstFree(rows, source, from + 1, bound)
  }

  /** `FirstFree` is the attempt before which every candidate is taken and at which, below the
      bound, the candidate is free. */
  lemma FirstFreeIs(rows: seq<UrlRecord>, source: CodeSource, bound: nat, k: nat)
    requires k <= bound
    requires forall j :: 0 <= j < k ==> HasCode(rows, source(j))
    requires k < bound ==> !HasCode(rows, source(k))
    ensures FirstFree(rows, source, 0, bound) == k
  {
  }

  /** Only the first nine candidates decide the loop: the tenth is drawn but never used. */
  lemma TenthCandidateIrrelevant(rows: seq<UrlRecord>, s1: CodeSource, s2: CodeSource)
    requires forall j :: 0 <= j < MaxAttempts - 1 ==> s1(j) == s2(j)
    ensures FirstFree(rows, s1, 0, MaxAttempts - 1) == FirstFree(rows, s2, 0, MaxAttempts - 1)
  {
  }

  /** The `do … while` loop of the shorten handler: draw a candidate, count the attempt, and
      go on while the candidate is taken and fewer than `MaxAttempts` attempts were made. */
  method DrawCode(db: UrlDatabase, source: CodeSource) returns (code: string, attempts: nat)
    requires db.Valid()
    ensures 1 <= attempts <= MaxAttempts
    ensures code == source(attempts - 1)
    ensures forall j :: 0 <= j < attempts - 1 ==> HasCode(db.rows, source(j))
    ensures attempts < MaxAttempts ==> !HasCode(db.rows, code)
    ensures attempts == MaxAttempts <==> forall j :: 0 <= j < MaxAttempts - 1 ==> HasCode(db.rows, source(j))
    ensures attempts - 1 == FirstFree(db.rows, source, 0, MaxAttempts - 1)
  {
    // the body of the `do … while` runs once before the condition is first tested
    code := GenerateShortCode(source, 0);
    attempts := 1;
    var found := db.GetByShortCode(code);
    while found.Some? && attempts < MaxAttempts
      invariant 1 <= attempts <= MaxAttempts
      invariant code == source(attempts - 1)
      invariant found.Some? <==> HasCode(db.rows, code)
      invariant forall j :: 0 <= j < attempts - 1 ==> HasCode(db.rows, source(j))
      decreases MaxAttempts - attempts
    {
      code := GenerateShortCode(source, attempts);
      attempts := attempts + 1;
      found := db.GetByShortCode(code);
    }
    FirstFreeIs(db.rows, source, MaxAttempts - 1, attempts - 1);
  }

  /** `POST /api/shorten`. */
  method Shorten(db: UrlDatabase, url: UrlField, parse: UrlParser, source: CodeSource,
                 baseUrl: string, now: int) returns (resp: Response)
    requires db.Valid()
    modifies db
    ensures db.Valid()
    ensures CodesWellFormed(old(db.rows)) ==> CodesWellFormed(db.rows)
    // a missing, non-string or empty `url`
    ensures !url.Text? || url.value == "" ==>
      resp == Json(400, Failure("URL is required")) && unchanged(db)
    // a string the validator rejects
    ensures url.Text? && url.value != "" && !ValidateUrl(parse, url.value) ==>
      resp == Json(400, Failure("Invalid URL format")) && unchanged(db)
    // a URL already stored: its code again, nothing changes
    ensures Accepted(url, parse) && FindByOriginalUrl(old(db.rows), url.value).Some? ==>
      resp == Json(200, Shortened(ShortUrl(baseUrl, FindByOriginalUrl(old(db.rows), url.value).value.shortCode), url.value))
      && unchanged(db)
    // the first nine candidates all taken: 500, whatever the tenth is
    ensures Accepted(url, parse) && FindByOriginalUrl(old(db.rows), url.value).None?
            && FirstFree(old(db.rows), source, 0, MaxAttempts - 1) == MaxAttempts - 1 ==>
      resp == Json(500, Failure("Failed to generate unique short code")) && unchanged(db)
    // otherwise the first free candidate is stored as one new row
    ensures Accepted(url, parse) && FindByOriginalUrl(old(db.rows), url.value).None?
            && FirstFree(old(db.rows), source, 0, MaxAttempts - 1) < MaxAttempts - 1 ==>
      var code := source(FirstFree(old(db.rows), source, 0, MaxAttempts - 1));
      !HasCode(old(db.rows), code)
      && resp == Json(200, Shortened(ShortUrl(baseUrl, code), url.value))
      && db.rows == old(db.rows) + [UrlRecord(old(db.nextId), code, url.value, 0, now)]
      && db.nextId == old(db.nextId) + 1
  {
    if !url.Text? || url.value == "" {
      return Json(400, Failure("URL is required"));
    }
    if !ValidateUrl(parse, url.value) {
      return Json(400, Failure("Invalid URL format"));
    }
    var existing := db.GetByOriginalUrl(url.value);
    if existing.Some? {
      return Json(200, Shortened(ShortUrl(baseUrl, existing.value.shortCode), url.value));
    }
    var code, attempts := DrawCode(db, source);
    if attempts >= MaxAttempts {
      return Json(500, Failure("Failed to generate unique short code"));
    }
    var ok := db.Create(code, url.value, now);
    resp := Json(200, Shortened(ShortUrl(baseUrl, code), url.value));
  }

  /** `GET /:code`. */
  method Resolve(db: UrlDatabase, code: string) returns (resp: Response)
    requires db.Valid()
    modifies db
    ensures db.Valid()
    ensures CodesWellFormed(old(db.rows)) ==> CodesWellFormed(db.rows)
    // a malformed code is refused before the table is consulted
    ensures Utf16Length(code) != CodeLength ==>
      resp == Json(404, Failure("Short code not found")) && unchanged(db)
    // an unknown code
    ensures Utf16Length(code) == CodeLength && !HasCode(old(db.rows), code) ==>
      resp == Json(404, Failure("URL not found")) && unchanged(db)
    // a known code: one more click on its row, nothing else changes, 301 to its URL
    ensures Utf16Length(code) == CodeLength ==> |db.rows| == |old(db.rows)| && db.nextId == old(db.nextId)
    ensures Utf16Length(code) == CodeLength ==>
      forall i :: 0 <= i < |old(db.rows)| && old(db.rows)[i].shortCode == code ==>
        resp == Redirect(301, old(db.rows)[i].originalUrl)
        && db.rows[i] == old(db.rows)[i].(clicks := old(db.rows)[i].clicks + 1)
        && forall j :: 0 <= j < |old(db.rows)| && j != i ==> db.rows[j] == old(db.rows)[j]
  {
    if Utf16Length(code) != CodeLength {
      return Json(404, Failure("Short code not found"));
    }
    var urlData := db.GetByShortCode(code);
    if urlData.None? {
      return Json(404, Failure("URL not found"));
    }
    ghost var before := db.rows;
    db.IncrementClicks(code);
    resp := Redirect(301, urlData.value.originalUrl);
    forall i | 0 <= i < |before| && before[i].shortCode == code
      ensures resp == Redirect(301, before[i].originalUrl)
      ensures db.rows[i] == before[i].(clicks := before[i].clicks + 1)
      ensures forall j :: 0 <= j < |before| && j != i ==> db.rows[j] == before[j]
    {
      assert urlData == Some(before[i]);
      IncrementedTouchesOneRow(before, code, i);
    }
  }

  function StartsWith(s: string, prefix: string): bool
  {
    |prefix| <= |s| && s[..|prefix|] == prefix
  }

  /** The catch-all `GET *` route: unknown API paths and one-segment paths of the short-code
      length are 404; anything else serves the client page. */
  function CatchAll(path: string): (r: Response)
    ensures r.IndexPage? || (r.Json? && r.status == 404 && r.payload.Failure?)
    ensures StartsWith(path, "/api/") ==> r == Json(404, Failure("API endpoint not found"))
    ensures !StartsWith(path, "/api/") && Utf16Length(path) == 7 && StartsWith(path, "/")
      ==> r == Json(404, Failure("Short code not found"))
    ensures r.IndexPage? <==>
      !StartsWith(path, "/api/") && !(Utf16Length(path) == 7 && StartsWith(path, "/"))
  {
    if StartsWith(path, "/api/") then Json(404, Failure("API endpoint not found"))
    else if Utf16Length(path) == 7 && StartsWith(path, "/") then Json(404, Failure("Short code not found"))
    else IndexPage
  }

  /** A path made of `/` and a well-formed code never serves the client page. */
  lemma CatchAllRefusesCodePaths(code: string)
    requires Utf16Length(code) == CodeLength
    ensures CatchAll("/" + code).Json? && CatchAll("/" + code).status == 404
  {
    Utf16LengthConcat("/", code);
    assert ("/" + code)[..1] == "/";
  }

  /** Unknown `/api/` paths are reported as missing endpoints, never as the client page. */
  lemma CatchAllRefusesApiPaths(rest: string)
    ensures CatchAll("/api/" + rest) == Json(404, Failure("API endpoint not found"))
  {
    assert ("/api/" + rest)[..5] == "/api/";
  }

  /** At the level of the table: the code stored for a URL leads back to a row with that URL. */
  lemma LookupByUrlThenCode(rows: seq<UrlRecord>, url: string)
    requires UniqueCodes(rows)
    requires FindByOriginalUrl(rows, url).Some?
    ensures FindByCode(rows, FindByOriginalUrl(rows, url).value.shortCode).Some?
    ensures FindByCode(rows, FindByOriginalUrl(rows, url).value.shortCode).value.originalUrl == url
  {
    var r := FindByOriginalUrl(rows, url).value;
    var i :| 0 <= i < |rows| && rows[i] == r;
    FindByCodeIsTheRow(rows, r.shortCode, i);
  }

  /** Shorten then redirect: the code taken from a successful `shortUrl` redirects to the URL. */
  method RoundTrip(db: UrlDatabase, url: string, parse: UrlParser, source: CodeSource,
                   baseUrl: string, now: int) returns (shortened: Response, resolved: Response)
    requires db.Valid() && CodesWellFormed(db.rows)
    modifies db
    ensures db.Valid() && CodesWellFormed(db.rows)
    ensures shortened.Json? && shortened.status == 200 ==>
      shortened.payload.Shortened? && |baseUrl| + 1 <= |shortened.payload.shortUrl|
      && resolved == Redirect(301, url)
  {
    shortened := Shorten(db, Text(url), parse, source, baseUrl, now);
    resolved := Json(500, Failure("Internal server error"));
    if shortened.Json? && shortened.status == 200 {
      assert Accepted(Text(url), parse);
      var code := shortened.payload.shortUrl[|baseUrl| + 1..];
      ghost var rows := db.rows;
      ghost var i: nat :| i < |rows| && rows[i].shortCode == code && rows[i].originalUrl == url;
      resolved := Resolve(db, code);
    }
  }

  /** Shortening the same URL twice returns the same answer and leaves the table as the first
      call left it. */
  method ShortenTwice(db: UrlDatabase, url: string, parse: UrlParser, s1: CodeSource, s2: CodeSource,
                      baseUrl: string, now1: int, now2: int)
    returns (first: Response, second: Response, ghost between: seq<UrlRecord>)
    requires db.Valid()
    modifies db
    ensures db.Valid()
    ensures first.Json? && first.status == 200 ==>
      old(db.rows) <= between && |between| <= |old(db.rows)| + 1
    ensures first.Json? && first.status == 200 ==> second == first && db.rows == between
  {
    first := Shorten(db, Text(url), parse, s1, baseUrl, now1);
    between := db.rows;
    if first.Json? && first.status == 200 && FindByOriginalUrl(old(db.rows), url).None? {
      FindByOriginalUrlAfterAppend(old(db.rows), between[|between| - 1]);
      assert old(db.rows) + [between[|between| - 1]] == between;
    }
    second := Shorten(db, Text(url), parse, s2, baseUrl, now2);
  }
}
