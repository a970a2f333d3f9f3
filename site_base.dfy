/**
 * `getBaseUrl`, written identically in app/sitemap.ts and app/robots.ts: the first configured
 * environment value, given an `https://` scheme when it lacks `http`, reduced to its origin, with a
 * fixed fallback when nothing is configured or the value is not a URL.
 */
module SiteBase {
  import opened Wrappers
  import opened Strings

  const FALLBACK_URL := "https://yalmeida.vercel.app"

  /** NEXT_PUBLIC_BASE_URL, NEXT_PUBLIC_SITE_URL and VERCEL_URL; `None` when unset. */
  datatype Env = Env(baseUrl: Option<string>, siteUrl: Option<string>, vercelUrl: Option<string>)

  /** `a ?? b ?? c`: the first variable that is set, even if it is set to the empty string. */
  function EnvUrl(env: Env): (r: Option<string>)
    ensures env.baseUrl.Some? ==> r == env.baseUrl
    ensures env.baseUrl.None? && env.siteUrl.Some? ==> r == env.siteUrl
    ensures env.baseUrl.None? && env.siteUrl.None? ==> r == env.vercelUrl
  {
    env.baseUrl.OrElse(env.siteUrl).OrElse(env.vercelUrl)
  }

  /** `envUrl && !envUrl.startsWith("http") ? `https://${envUrl}` : envUrl` */
  function Normalize(v: Option<string>): (r: Option<string>)
    ensures r.Some? <==> v.Some?
    ensures v.Some? ==> (r.value == "" <==> v.value == "")
    ensures v.Some? && r.value != "" ==> StartsWith(r.value, "http")
    ensures v.Some? && StartsWith(v.value, "http") ==> r == v
    ensures v.Some? && v.value != "" && !StartsWith(v.value, "http") ==> r == Some("https://" + v.value)
  {
    match v
    case None => None
    case Some(s) =>
      if s != "" && !StartsWith(s, "http") then
        assert ("https://" + s)[..4] == "http";
        Some("https://" + s)
      else v
  }

  /** Normalizing twice changes nothing more. */
  lemma NormalizeIdempotent(v: Option<string>)
    ensures Normalize(Normalize(v)) == Normalize(v)
  {
  }

  /** The base URL, with `origin` standing for `new URL(u).origin` (`None` where the constructor throws). */
  function GetBaseUrl(env: Env, origin: string -> Option<string>): (r: string)
    ensures origin(Normalize(EnvUrl(env)).GetOr(FALLBACK_URL)).Some? ==> r == origin(Normalize(EnvUrl(env)).GetOr(FALLBACK_URL)).value
    ensures origin(Normalize(EnvUrl(env)).GetOr(FALLBACK_URL)).None? ==> r == FALLBACK_URL
  {
    match origin(Normalize(EnvUrl(env)).GetOr(FALLBACK_URL))
    case Some(o) => o
    case None => FALLBACK_URL
  }

  /** With nothing configured the fallback is used, and it is its own origin. */
  lemma UnconfiguredUsesFallback(env: Env, origin: string -> Option<string>)
    requires env.baseUrl.None? && env.siteUrl.None? && env.vercelUrl.None?
    requires origin(FALLBACK_URL) == Some(FALLBACK_URL)
    ensures GetBaseUrl(env, origin) == FALLBACK_URL
  {
  }

  /** A value that is not a URL falls back, and so does one set to the empty string, which hides the later variables. */
  lemma UnparseableUsesFallback(env: Env, origin: string -> Option<string>)
    requires EnvUrl(env).Some?
    requires origin(Normalize(EnvUrl(env)).value) == None
    ensures GetBaseUrl(env, origin) == FALLBACK_URL
    ensures env.baseUrl == Some("") ==> Normalize(EnvUrl(env)) == Some("")
  {
  }

  /** A bare host name such as a deployment's VERCEL_URL is read as an https URL. */
  lemma BareHostGetsHttps(env: Env, origin: string -> Option<string>, host: string)
    requires EnvUrl(env) == Some(host) && host != "" && !StartsWith(host, "http")
    ensures GetBaseUrl(env, origin) == origin("https://" + host).GetOr(FALLBACK_URL)
  {
  }
}
