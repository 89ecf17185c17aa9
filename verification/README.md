# img2color in Dafny

A model of the Vercel handler `api/img2color.rs`. Given an image URL in the
`img` query parameter, the handler:

- normalises the URL's scheme (`fix_url`)
- downloads the bytes and fingerprints them with MD5
- decodes the image and resizes it to a box 50 pixels wide (`(height * 50) / width` high)
- looks the fingerprint up in the MongoDB collection `colors`
- on a hit, answers with the stored colour
- on a miss, averages the pixels (`get_theme_color`), stores `{hex, color}` and answers with the new colour

Modules, one per file:

- `Ints` (`ints.dfy`): `u32` wrap-around and a byte type.
- `Url` (`url.dfy`): `fix_url`.
- `Resize` (`resize.dfy`): the requested resize box.
- `Pixels` (`pixels.dfy`): the pixel grid, the order in which the nested loops visit it, and per-channel totals.
- `HexColor` (`hex_color.dfy`): the `#RRGGBB` format and a parser for it.
- `ThemeColor` (`theme_color.dfy`): `get_theme_color`. It is an imperative method with nested loops, proved against the specification function `ThemeColorOf`.
- `Store` (`store.dfy`): the collection, as a class whose `records` sequence `insert_one` appends to.
- `Handler` (`handler.dfy`): `handler`. It is a method over a `ColorStore`, proved against the specification function `Serve`.

Everything outside the program's own code is a field of `Handler.Env`:

- the HTTP fetch
- MD5
- image decoding and Lanczos resampling
- whether `find` and `insert_one` succeed

Behaviour of the code worth noting:

- Decoding and resizing happen before the cache lookup, so a cache hit still decodes.
- A failing `insert_one` fails the whole request (`?`). The computed colour is not returned.
- The resize height is truncating `u32` division (a floor), not a rounding. It wraps when `height * 50` overflows.
- The `u32` accumulators and `width * height` overflow silently in a release build, which the model assumes; it wraps them explicitly. A debug build would panic on the same overflows.
- A 404 from the origin is not an error in the code: its body goes to the decoder like any other.

## Model

| member | source | states |
|---|---|---|
| Url.FixUrl | api/img2color.rs:110-116 | the result always starts with `http://` or `https://`; it equals the input exactly when the input already does; otherwise it is `http://` followed by the input |
| Url.FixUrlKeepsUrl | api/img2color.rs:110-116 | the given URL is always the tail of the URL fetched |
| Url.FixUrlIdempotent | api/img2color.rs:110-116 | normalising an already normalised URL changes nothing |
| Url.FixUrlKeepsScheme | api/img2color.rs:111-112 | every URL starting with `http://` or `https://` is fetched as given |
| Url.FixUrlAddsHttp | api/img2color.rs:111-115 | every URL starting with neither gets `http://` prepended |
| Url.FixUrlCaseSensitive | api/img2color.rs:111 | example: `HTTP://a.io` is not recognised and becomes `http://HTTP://a.io` |
| Resize.ResizeBox | api/img2color.rs:126 | the box is undefined (the division panics) exactly when the width is 0; otherwise it is 50 wide |
| Resize.ResizeHeightIsFloor | api/img2color.rs:126 | without overflow the requested height h is the floor of height * 50 / width: h * width <= height * 50 < (h + 1) * width |
| Resize.ResizeHeightZero | api/img2color.rs:126 | without overflow (height * 50 < 2^32), the requested height is 0 exactly when height * 50 < width |
| Resize.ResizeSquare | api/img2color.rs:126 | without overflow (side * 50 < 2^32), a square image asks for a 50 x 50 box |
| Resize.ResizeSquareWraps | api/img2color.rs:126 | with overflow a square 100000000 x 100000000 image asks for a 50 x 7 box |
| Resize.ResizeHeightWraps | api/img2color.rs:126 | a 1 x 85899346 image asks for height 4, because height * 50 wraps in `u32` |
| Ints.Wrap | api/img2color.rs:134-143 | `u32` wrap-around: identity below 2^32, and always congruent to its argument modulo 2^32 |
| Ints.WrapAdd | api/img2color.rs:141-143 | wrapping after every addition equals wrapping once at the end, so the wrapping accumulators hold the wrapped exact total |
| Pixels.Visits | api/img2color.rs:138-139 | the cells the nested loops visit, in order; there are exactly width * height of them |
| Pixels.VisitsInBounds | api/img2color.rs:138-140 | every `get_pixel(x, y)` call is inside the grid |
| Pixels.ColumnOnce | api/img2color.rs:139 | the inner loop visits each row of its column exactly once and no other cell |
| Pixels.VisitsOnce | api/img2color.rs:138-139 | the nested loops visit every cell of the grid exactly once and nothing outside it (multiset count 1 inside, 0 outside) |
| Pixels.PrefixStep | api/img2color.rs:140-143 | one inner-loop step adds exactly the channel value of the pixel at (x, y) to the total so far |
| Pixels.PrefixNextColumn | api/img2color.rs:138-139 | finishing column x is the same visit prefix as starting column x + 1 |
| Pixels.TotalAppend | api/img2color.rs:138-145 | totals over consecutive ranges of visits add up, so partial sums over a split of the grid combine to the total |
| Pixels.TotalPermutation | api/img2color.rs:138-145 | any order that visits the same cells equally often gives the same channel total |
| Pixels.ChannelTotal | api/img2color.rs:138-145 | the exact sum of a channel over the visits; at most 255 * width * height |
| Pixels.ChannelTotalAnyOrder | api/img2color.rs:138-145 | any enumeration that visits every cell of the grid exactly once, in any order, sums to the loops' total |
| Pixels.TotalBounds | api/img2color.rs:141-143 | a total over n cells whose values lie in [lo, hi] lies in [lo * n, hi * n] |
| HexColor.Hex2 | api/img2color.rs:160 | one channel as exactly two upper-case hex digits (`{:02X}`) |
| HexColor.FormatHex | api/img2color.rs:160 | the colour is always `#` followed by six upper-case hex digits |
| HexColor.ParseColor | api/img2color.rs:160 | the parser accepts exactly the well-formed `#RRGGBB` strings |
| HexColor.ParseFormat | api/img2color.rs:160 | parsing the formatted colour gives back the three channels in R, G, B order |
| HexColor.FormatParse | api/img2color.rs:160 | every well-formed colour string is the formatting of the colour it parses to |
| HexColor.FormatInjective | api/img2color.rs:160 | distinct colours are formatted as distinct strings |
| HexColor.FormatExample | api/img2color.rs:160 | channels (10, 20, 30) are written `#0A141E`: zero-padded, upper-case |
| ThemeColor.Average | api/img2color.rs:147-150 | the rounded average lies within half a step of sum / count, or saturates at 255; a zero count gives 0 for a zero sum (NaN) and 255 otherwise (infinity) |
| ThemeColor.AverageWithin | api/img2color.rs:147-150 | an average of count values in [lo, hi] rounds to a value in [lo, hi] |
| ThemeColor.PixelCount | api/img2color.rs:147 | the `u32` product `width * height`: without overflow it equals the number of loop steps; an empty grid gives 0 |
| ThemeColor.ChannelAverage | api/img2color.rs:147-150 | up to 16843009 pixels nothing wraps and the average is the rounded exact mean of the channel; an empty image gives 0 |
| ThemeColor.ThemeColorOf | api/img2color.rs:147-160 | the colour for any image is a well-formed `#RRGGBB` string |
| ThemeColor.ThemeColorChannels | api/img2color.rs:153-160 | the returned string encodes the red, green and blue averages, in that order |
| ThemeColor.NoOverflow | api/img2color.rs:134-147 | up to 16843009 pixels, neither the pixel count nor any channel accumulator wraps |
| ThemeColor.AverageBetween | api/img2color.rs:138-150 | for a non-empty image without overflow, each channel's average lies between that channel's least and largest value |
| ThemeColor.UniformColor | api/img2color.rs:130-161 | for a non-empty image of at most 16843009 pixels, a single-colour image yields exactly its own colour, whatever its alpha |
| ThemeColor.UniformColorWraps | api/img2color.rs:134-150 | past that bound the accumulator wraps: a 50 x 336861 image with red 255 everywhere averages to red 0 |
| ThemeColor.TwoByTwoExample | api/img2color.rs:130-161 | a 2 x 2 image of (10, 20, 30) yields `#0A141E` |
| ThemeColor.EmptyImageIsBlack | api/img2color.rs:147-150 | an image without pixels divides 0 by 0 and yields `#000000` |
| ThemeColor.RunningTotal | api/img2color.rs:138-145 | the exact running total when the loops reach (x, y) is at most 255 times the number of pixels visited so far |
| ThemeColor.AddPixel | api/img2color.rs:141-143 | one wrapping `+=` keeps the accumulator equal to the wrapped running total one step further |
| ThemeColor.RunningTotalIsPrefixTotal | api/img2color.rs:138-145 | at every point of the loops, the step-by-step running total is the total over the cells visited so far |
| ThemeColor.RunningTotalComplete | api/img2color.rs:138-145 | when the outer loop ends, the running total is the channel total over the whole grid |
| ThemeColor.GetThemeColor | api/img2color.rs:130-161 | the nested loops with wrapping `u32` accumulators return exactly `ThemeColorOf(img)` |
| Store.FirstMatch | api/img2color.rs:82-83 | the index found is a match and no earlier document matches; `None` exactly when no document matches |
| Store.Lookup | api/img2color.rs:82-83 | a lookup misses exactly when no document has the fingerprint; a hit returns the colour of a stored document with it |
| Store.LookupAppend | api/img2color.rs:96-97 | appending a document changes no existing answer; it answers only for its own fingerprint, and only where that fingerprint was missing before |
| Store.FirstMatchUnique | api/img2color.rs:82-83 | a match with no match before it is the first match |
| Store.ColorStore.Find | api/img2color.rs:82-83 | searching the collection by `hex` reads the current records, with the same guarantees as `Lookup` |
| Store.ColorStore.InsertOne | api/img2color.rs:97 | `insert_one` appends exactly the document and changes nothing else |
| Handler.ParseBytes | api/img2color.rs:123-127 | a decode failure carries the decoder's message; a zero width panics; otherwise the image is the decoded one resized to `ResizeBox`'s box and the fingerprint is that of the bytes |
| Handler.DownloadImageAndParse | api/img2color.rs:118-128 | the normalised URL is fetched; the download fails exactly when the fetch or the decode fails, with the fetch's message when the fetch fails; a parsed image is keyed by the fingerprint of the fetched bytes |
| Handler.Serve | api/img2color.rs:44-107 | one request: the reduction runs exactly when the lookup succeeds and misses; the collection keeps all its documents and gains at most one at the end |
| Handler.Handle | api/img2color.rs:44-107 | the handler's response, the collection afterwards, and whether `get_theme_color` ran are those of `Serve` on the collection before |
| Handler.MissingParameter | api/img2color.rs:46-64 | without `img` the answer is the fixed error body, whatever the collaborators and the collection hold, and nothing is stored |
| Handler.DownloadFailure | api/img2color.rs:67-81 | a failed download or decode is answered with its message and the collection is unchanged |
| Handler.CacheHit | api/img2color.rs:82-95 | on a hit the stored colour is the answer, nothing is computed and nothing is written |
| Handler.CacheMiss | api/img2color.rs:96-107 | on a miss the colour is computed, exactly the document `{hex, color}` is appended, and the answer is that colour |
| Handler.InsertFailure | api/img2color.rs:96-97 | a failing `insert_one` fails the request: the computed colour is neither stored nor answered |
| Handler.ServeFrame | api/img2color.rs:82-107 | the collection either stays the same or grows by one document at the end, whose colour is the one answered |
| Handler.SecondRequestHits | api/img2color.rs:82-107 | after a request answered with a colour, the same request is answered with the same colour from the collection, with no computation and no write |
| Handler.ServeKeepsColorsWellFormed | api/img2color.rs:82-107 | if every stored colour is a well-formed `#RRGGBB` string, this stays so, and every colour answered is well-formed |
| Handler.ServeConsistent | api/img2color.rs:82-107 | with a collision-free fingerprint, the collection stays consistent with the pipeline, and every colour answered, cached or fresh, is the colour of the downloaded image |

## Left out

- Connection set-up (lines 26-42) is not modelled. This covers environment variables, the MongoDB URL and the client options; a failure there would fail the request.
- URL parsing of the request is not modelled. The handler receives the query as a `map`, so `Url::parse(..).unwrap()` and the last-wins handling of repeated keys are outside the model.
- The HTTP fetch is a function parameter. `reqwest::get` and `resp.bytes()` become one `Env.fetch`, and both of their errors fold into its failure. As a function, `Env.fetch` answers the same URL with the same bytes every time; `Handler.SecondRequestHits` relies on this.
- MD5 is a function parameter (`Env.fingerprint`). Its injectivity is only a hypothesis of `Handler.ServeConsistent`.
- Image decoding is a function parameter (`Env.decode`). It returns an already well-formed pixel grid.
- Lanczos resampling is a function parameter (`Env.resize`), and the size of its output is unconstrained. `DynamicImage::resize` fits the image inside the requested box and keeps its aspect ratio; the model does not capture this, so the grid that gets averaged is an input to the model.
- Whether the store is reachable is reduced to two booleans: `find` succeeds and `insert_one` succeeds.
- Response framing is abstracted into the `Response` datatype: JSON bodies, headers, the status codes and the Tokio runtime are outside the model.
- Store.ColorStore.Find: `deserialize_current` is read as "the first matching document". The code calls it without a preceding `advance()`, and what the MongoDB driver does then is not part of this model.
- ThemeColor.Average: computes the `f32` division and `round()` exactly, on rationals, so `f32` rounding is left out. Sums above 2^24 are not exact in `f32`. For large counts, even below 2^24, the `f32` quotient can also land on a .5 that the exact quotient falls just short of. For example, 8995128 / 70001 rounds to 128 exactly but to 129 in `f32`.
- ThemeColor.GetThemeColor: the `LinSrgb` round trip from `u8` to `f32 / 255.0` and back with `into_format::<u8>()` is treated as the identity on each channel.
- Concurrency is left out: the code reduces on one thread. Order independence of the reduction is stated by `Pixels.TotalPermutation` and `Pixels.TotalAppend`.
- Two concurrent requests for the same image are not modelled: each request is one atomic step on the collection.
