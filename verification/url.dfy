/** `fix_url`: the scheme normalisation applied to the `img` parameter before fetching. */
module Url {

  const Http: string := "http://"
  const Https: string := "https://"

  predicate StartsWith(s: string, prefix: string)
  {
    |prefix| <= |s| && s[..|prefix|] == prefix
  }

  /** The URL already names one of the two schemes the handler accepts (case-sensitive). */
  predicate HasScheme(url: string)
  {
    StartsWith(url, Http) || StartsWith(url, Https)
  }

  /** `fix_url`: a URL without a recognised scheme gets `http://` in front. */
  function FixUrl(url: string): (fixed: string)
    ensures HasScheme(fixed)
    ensures fixed == url <==> HasScheme(url)
    ensures fixed != url ==> fixed == Http + url
  {
    if HasScheme(url) then url else Http + url
  }

  /** The URL the caller gave is always the tail of the one fetched. */
  lemma FixUrlKeepsUrl(url: string)
    ensures var fixed := FixUrl(url);
      |url| <= |fixed| && fixed[|fixed| - |url|..] == url
  {
    var fixed := FixUrl(url);
    if !HasScheme(url) {
      assert fixed == Http + url;
      assert fixed[|Http|..] == url;
    }
  }

  /** Normalising twice is normalising once. */
  lemma FixUrlIdempotent(url: string)
    ensures FixUrl(FixUrl(url)) == FixUrl(url)
  {
  }

  /** A URL that starts with either scheme is fetched as given. */
  lemma FixUrlKeepsScheme(url: string)
    requires StartsWith(url, Http) || StartsWith(url, Https)
    ensures FixUrl(url) == url
  {
  }

  /** A URL that starts with neither scheme gets `http://` in front. */
  lemma FixUrlAddsHttp(url: string)
    requires !StartsWith(url, Http) && !StartsWith(url, Https)
    ensures FixUrl(url) == Http + url
  {
  }

  /** The scheme match is case-sensitive: `HTTP://` is not recognised. */
  lemma FixUrlCaseSensitive()
    ensures FixUrl("HTTP://a.io") == "http://HTTP://a.io"
  {
    assert "HTTP://a.io"[0] != 'h';
  }

}
