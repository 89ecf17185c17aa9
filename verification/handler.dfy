/**
 * `handler`: read the `img` query parameter, download and decode the image,
 * look its fingerprint up in the `colors` collection, and either answer with
 * the stored colour or compute the colour, store it and answer with it.
 *
 * The network, MD5, image decoding and resampling, and whether the store is
 * reachable are the handler's collaborators; they are the fields of `Env`.
 */
module Handler {
  import opened Wrappers
  import opened Ints
  import opened Url
  import opened Resize
  import opened Pixels
  import opened HexColor
  import opened ThemeColor
  import opened Store

  type Bytes = seq<Byte>

  /** What the handler reaches outside its own code. */
  datatype Env = Env(
    // `reqwest::get(url)` followed by `resp.bytes()`
    fetch: string -> Result<Bytes, string>,
    // `format!("{:?}", md5::compute(bytes))`
    fingerprint: Bytes -> string,
    // `image::load_from_memory(bytes)`
    decode: Bytes -> Result<Image, string>,
    // `DynamicImage::resize(w, h, FilterType::Lanczos3)`
    resize: (Image, U32, U32) -> Image,
    // whether `collection.find(..)` and `collection.insert_one(..)` succeed
    findSucceeds: bool,
    insertSucceeds: bool)

  /** The body of the error answered when `img` is missing. */
  const MissingImgMessage: string := "请正确输入参数"

  datatype Response =
    | Color(rgb: string)          // status 200, `{"RGB": rgb}`
    | ErrorBody(message: string)  // status 500, `{"error": message}`
    | Propagated                  // `handler` returns `Err` through `?` (a store failure)
    | Panicked                    // the resize box divides by a zero width

  /** What `download_image_and_parse` yields. */
  datatype Download =
    | Parsed(image: Image, hex: string)
    | DownloadFailed(message: string)
    | ZeroWidth

  /**
   * The part of `download_image_and_parse` after the bytes arrive: fingerprint
   * them, decode them, and resize to the 50-wide box.
   */
  function ParseBytes(bytes: Bytes, env: Env): (d: Download)
    ensures env.decode(bytes).Failure? ==> d == DownloadFailed(env.decode(bytes).error)
    ensures d.ZeroWidth? <==> env.decode(bytes).Success? && env.decode(bytes).value.width == 0
    ensures d.Parsed? <==> env.decode(bytes).Success? && env.decode(bytes).value.width > 0
    ensures d.Parsed? ==> d.hex == env.fingerprint(bytes)
    ensures d.Parsed? ==>
      var decoded := env.decode(bytes).value;
      d.image == env.resize(decoded, TargetWidth, ResizeBox(decoded.width, decoded.height).value.1)
  {
    var hex := env.fingerprint(bytes);
    match env.decode(bytes)
    case Failure(e) => DownloadFailed(e)
    case Success(decoded) =>
      match ResizeBox(decoded.width, decoded.height)
      case None => ZeroWidth
      case Some(box) => Parsed(env.resize(decoded, box.0, box.1), hex)
  }

  /** `download_image_and_parse`: normalise the URL, fetch it, then parse the bytes. */
  function DownloadImageAndParse(url: string, env: Env): (d: Download)
    ensures env.fetch(FixUrl(url)).Failure? ==> d == DownloadFailed(env.fetch(FixUrl(url)).error)
    ensures d.DownloadFailed? <==>
      env.fetch(FixUrl(url)).Failure? || env.decode(env.fetch(FixUrl(url)).value).Failure?
    ensures !d.DownloadFailed? ==> env.fetch(FixUrl(url)).Success?
    ensures d.Parsed? ==> d.hex == env.fingerprint(env.fetch(FixUrl(url)).value)
  {
    match env.fetch(FixUrl(url))
    case Failure(e) => DownloadFailed(e)
    case Success(bytes) => ParseBytes(bytes, env)
  }

  /** The response, the collection afterwards, and whether `get_theme_color` ran. */
  datatype Outcome = Outcome(response: Response, records: seq<Img>, reduced: bool)

  /**
   * What one request does, as a function of the collection before it. The
   * reduction runs exactly on a successful lookup that misses, and the
   * collection keeps every document it had, gaining at most one at its end.
   */
  function Serve(records: seq<Img>, query: map<string, string>, env: Env): (o: Outcome)
    ensures o.reduced <==>
      "img" in query && DownloadImageAndParse(query["img"], env).Parsed? && env.findSucceeds &&
      Lookup(records, DownloadImageAndParse(query["img"], env).hex).None?
    ensures |records| <= |o.records| <= |records| + 1 && o.records[..|records|] == records
  {
    if "img" !in query then Outcome(ErrorBody(MissingImgMessage), records, false)
    else
      match DownloadImageAndParse(query["img"], env)
      case DownloadFailed(message) => Outcome(ErrorBody(message), records, false)
      case ZeroWidth => Outcome(Panicked, records, false)
      case Parsed(img, hex) =>
        if !env.findSucceeds then Outcome(Propagated, records, false)
        else
          match Lookup(records, hex)
          case Some(color) => Outcome(Color(color), records, false)
          case None =>
            var color := ThemeColorOf(img);
            if !env.insertSucceeds then Outcome(Propagated, records, true)
            else Outcome(Color(color), records + [Img(hex, color)], true)
  }

  /** `handler`, over the collection `store`. */
  method Handle(store: ColorStore, query: map<string, string>, env: Env)
    returns (response: Response, ghost reduced: bool)
    modifies store
    ensures response == Serve(old(store.records), query, env).response
    ensures store.records == Serve(old(store.records), query, env).records
    ensures reduced == Serve(old(store.records), query, env).reduced
  {
    reduced := false;
    if "img" !in query {
      response := ErrorBody(MissingImgMessage);
      return;
    }
    var imgUrl := query["img"];
    match DownloadImageAndParse(imgUrl, env)
    case DownloadFailed(message) =>
      response := ErrorBody(message);
      return;
    case ZeroWidth =>
      response := Panicked;
      return;
    case Parsed(img, imgHex) =>
      if !env.findSucceeds {
        response := Propagated;
        return;
      }
      var found := store.Find(imgHex);
      if found.Some? {
        response := Color(found.value);
        return;
      }
      var color := GetThemeColor(img);
      reduced := true;
      var doc := Img(imgHex, color);
      if !env.insertSucceeds {
        response := Propagated;
        return;
      }
      store.InsertOne(doc);
      response := Color(doc.color);
  }

  /**
   * Without `img` the request fails before anything is fetched or stored: the
   * answer is the same whatever the collaborators and the collection hold.
   */
  lemma MissingParameter(records: seq<Img>, records': seq<Img>, query: map<string, string>, env: Env, env': Env)
    requires "img" !in query
    ensures Serve(records, query, env) == Outcome(ErrorBody(MissingImgMessage), records, false)
    ensures Serve(records, query, env).response == Serve(records', query, env').response
  {
  }

  /** A failed download or decode is answered with its message; the collection is not touched. */
  lemma DownloadFailure(records: seq<Img>, query: map<string, string>, env: Env)
    requires "img" in query && DownloadImageAndParse(query["img"], env).DownloadFailed?
    ensures Serve(records, query, env) ==
      Outcome(ErrorBody(DownloadImageAndParse(query["img"], env).message), records, false)
  {
  }

  /**
   * Cache hit: the stored colour is the answer, the collection is unchanged and
   * no reduction runs.
   */
  lemma CacheHit(records: seq<Img>, query: map<string, string>, env: Env, img: Image, hex: string, color: string)
    requires "img" in query && DownloadImageAndParse(query["img"], env) == Parsed(img, hex)
    requires env.findSucceeds && Lookup(records, hex) == Some(color)
    ensures Serve(records, query, env) == Outcome(Color(color), records, false)
  {
  }

  /**
   * Cache miss: the colour is computed, exactly one document `{hex, color}` is
   * appended, and the answer carries that same colour.
   */
  lemma CacheMiss(records: seq<Img>, query: map<string, string>, env: Env, img: Image, hex: string)
    requires "img" in query && DownloadImageAndParse(query["img"], env) == Parsed(img, hex)
    requires env.findSucceeds && env.insertSucceeds && Lookup(records, hex).None?
    ensures var o := Serve(records, query, env);
      o.reduced && o.response == Color(ThemeColorOf(img)) &&
      o.records == records + [Img(hex, ThemeColorOf(img))]
  {
  }

  /**
   * A failed `insert_one` fails the whole request: the colour was computed but
   * is neither stored nor answered.
   */
  lemma InsertFailure(records: seq<Img>, query: map<string, string>, env: Env, img: Image, hex: string)
    requires "img" in query && DownloadImageAndParse(query["img"], env) == Parsed(img, hex)
    requires env.findSucceeds && !env.insertSucceeds && Lookup(records, hex).None?
    ensures Serve(records, query, env) == Outcome(Propagated, records, true)
  {
  }

  /**
   * The collection only ever grows by one document at its end, and only when
   * a colour was computed and answered; existing documents never change.
   */
  lemma ServeFrame(records: seq<Img>, query: map<string, string>, env: Env)
    ensures var o := Serve(records, query, env);
      o.records == records ||
      (o.reduced && o.response.Color? && o.records == records + [o.records[|records|]] &&
       o.records[|records|].color == o.response.rgb)
  {
  }

  /**
   * Asking twice: once a request has been answered with a colour, the same
   * request is answered with the same colour from the collection, without a
   * second reduction and without another write. Both requests share one `env`,
   * so the origin serves the same bytes both times.
   */
  lemma {:induction false} SecondRequestHits(records: seq<Img>, query: map<string, string>, env: Env)
    requires Serve(records, query, env).response.Color?
    ensures var o := Serve(records, query, env);
      Serve(o.records, query, env) == Outcome(o.response, o.records, false)
  {
    var o := Serve(records, query, env);
    var d := DownloadImageAndParse(query["img"], env);
    if Lookup(records, d.hex).None? {
      LookupAppend(records, Img(d.hex, ThemeColorOf(d.image)), d.hex);
    }
  }

  /** Every stored colour is a well-formed `#RRGGBB` string. */
  predicate ColorsWellFormed(records: seq<Img>)
  {
    forall i | 0 <= i < |records| :: IsColorString(records[i].color)
  }

  /**
   * A collection that holds only well-formed colours keeps doing so, and then
   * every colour answer is well-formed, whether read from the collection or
   * computed.
   */
  lemma ServeKeepsColorsWellFormed(records: seq<Img>, query: map<string, string>, env: Env)
    requires ColorsWellFormed(records)
    ensures ColorsWellFormed(Serve(records, query, env).records)
    ensures Serve(records, query, env).response.Color? ==> IsColorString(Serve(records, query, env).response.rgb)
  {
    if "img" in query && DownloadImageAndParse(query["img"], env).Parsed? {
      var d := DownloadImageAndParse(query["img"], env);
      var found := Lookup(records, d.hex);
      if found.Some? {
        var i :| 0 <= i < |records| && records[i] == Img(d.hex, found.value);
      }
    }
  }

  /** The fingerprint tells byte sequences apart (MD5 collisions are ignored). */
  ghost predicate FingerprintInjective(env: Env)
  {
    forall b1, b2 :: env.fingerprint(b1) == env.fingerprint(b2) ==> b1 == b2
  }

  /**
   * Every stored document holds the colour the pipeline computes for the bytes
   * whose fingerprint it is keyed by.
   */
  ghost predicate Consistent(records: seq<Img>, env: Env)
  {
    forall i, bytes | 0 <= i < |records| && env.fingerprint(bytes) == records[i].hex ::
      ParseBytes(bytes, env).Parsed? ==> records[i].color == ThemeColorOf(ParseBytes(bytes, env).image)
  }

  /**
   * With a collision-free fingerprint, serving keeps the collection consistent,
   * and a colour answer is always the colour of the downloaded image, whether
   * it came from the collection or was just computed.
   */
  lemma ServeConsistent(records: seq<Img>, query: map<string, string>, env: Env)
    requires FingerprintInjective(env) && Consistent(records, env)
    ensures Consistent(Serve(records, query, env).records, env)
    ensures var o := Serve(records, query, env);
      o.response.Color? ==>
        "img" in query && DownloadImageAndParse(query["img"], env).Parsed? &&
        o.response.rgb == ThemeColorOf(DownloadImageAndParse(query["img"], env).image)
  {
    var o := Serve(records, query, env);
    if "img" in query && DownloadImageAndParse(query["img"], env).Parsed? {
      var url := FixUrl(query["img"]);
      var fetched := env.fetch(url).value;
      var d := ParseBytes(fetched, env);
      assert DownloadImageAndParse(query["img"], env) == d;
      var found := Lookup(records, d.hex);
      if found.Some? {
        var i :| 0 <= i < |records| && records[i] == Img(d.hex, found.value);
        assert env.fingerprint(fetched) == records[i].hex;
      } else if env.findSucceeds && env.insertSucceeds {
        var doc := Img(d.hex, ThemeColorOf(d.image));
        assert o.records == records + [doc];
        forall i, bytes | 0 <= i < |o.records| && env.fingerprint(bytes) == o.records[i].hex
          ensures ParseBytes(bytes, env).Parsed? ==> o.records[i].color == ThemeColorOf(ParseBytes(bytes, env).image)
        {
          if i == |records| {
            assert bytes == fetched;
          } else {
            assert o.records[i] == records[i];
          }
        }
      }
    }
  }
}
