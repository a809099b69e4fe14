/** The base-URL choice of lib/base-url.ts, with the three environment
    variables it reads given as parameters (`None` when unset). */
module BaseUrl {
  import opened Common

  /** A variable that is set to a non-empty string (JavaScript truthiness). */
  predicate IsSet(v: Option<string>) {
    v.Some? && v.value != ""
  }

  const HttpsScheme: string := "https://"
  const LocalPrefix: string := "http://localhost:"

  /** `getBaseUrl()` for `NEXT_PUBLIC_BASE_URL`, `VERCEL_URL` and `PORT`. */
  function GetBaseUrl(publicBaseUrl: Option<string>, vercelUrl: Option<string>, port: Option<string>): (url: string)
    // an explicit base URL wins and is used verbatim
    ensures IsSet(publicBaseUrl) ==> url == publicBaseUrl.value
    // then the deployment host, behind https
    ensures !IsSet(publicBaseUrl) && IsSet(vercelUrl) ==>
      StartsWith(url, HttpsScheme) && url[|HttpsScheme|..] == vercelUrl.value
    // then localhost on PORT; 3000 only when PORT is unset, not when empty
    ensures !IsSet(publicBaseUrl) && !IsSet(vercelUrl) ==>
      StartsWith(url, LocalPrefix) && url[|LocalPrefix|..] == port.GetOr("3000")
  {
    if IsSet(publicBaseUrl) then publicBaseUrl.value
    else if IsSet(vercelUrl) then HttpsScheme + vercelUrl.value
    else LocalPrefix + port.GetOr("3000")
  }

  /** Unless the explicit base URL is used, the result carries a scheme. */
  lemma BaseUrlHasScheme(publicBaseUrl: Option<string>, vercelUrl: Option<string>, port: Option<string>)
    requires !IsSet(publicBaseUrl)
    ensures var url := GetBaseUrl(publicBaseUrl, vercelUrl, port);
      StartsWith(url, "https://") || StartsWith(url, "http://")
  {
    var url := GetBaseUrl(publicBaseUrl, vercelUrl, port);
    if !IsSet(vercelUrl) {
      assert url[..7] == LocalPrefix[..7];
    }
  }

  /** An explicit base URL makes the other variables irrelevant. */
  lemma ExplicitBaseUrlWins(publicBaseUrl: string, v1: Option<string>, p1: Option<string>, v2: Option<string>, p2: Option<string>)
    requires publicBaseUrl != ""
    ensures GetBaseUrl(Some(publicBaseUrl), v1, p1) == GetBaseUrl(Some(publicBaseUrl), v2, p2)
  {
  }

  /** Set but empty counts as unset for the first two variables. */
  lemma EmptyCountsAsUnset(port: Option<string>)
    ensures GetBaseUrl(Some(""), Some(""), port) == GetBaseUrl(None, None, port)
  {
  }

  /** The local fallback: port 3000 when PORT is unset, and no port at all
      when PORT is set to the empty string. */
  lemma LocalFallback()
    ensures GetBaseUrl(None, None, None) == "http://localhost:3000"
    ensures GetBaseUrl(None, None, Some("")) == "http://localhost:"
  {
  }
}
