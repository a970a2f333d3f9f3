/** The robots record of app/robots.ts: one permissive rule, and the sitemap and host under the base URL. */
module Robots {
  import opened Wrappers
  import opened Strings
  import opened SiteBase
  import Sitemap

  datatype Rule = Rule(userAgent: string, allow: string, disallow: seq<string>)
  datatype RobotsFile = RobotsFile(rules: seq<Rule>, sitemap: seq<string>, host: string)

  const DISALLOWED: seq<string> := ["/api", "/_next", "/trpc"]

  function RobotsFor(env: Env, origin: string -> Option<string>): RobotsFile {
    var baseUrl := GetBaseUrl(env, origin);
    RobotsFile([Rule("*", "/", DISALLOWED)], [baseUrl + "/sitemap.xml"], baseUrl)
  }

  /** A single rule for every agent that allows the site and closes the API, build and RPC paths; the one sitemap sits at `host/sitemap.xml`. */
  lemma RobotsShape(env: Env, origin: string -> Option<string>)
    ensures var r := RobotsFor(env, origin);
      && |r.rules| == 1 && r.rules[0].userAgent == "*" && r.rules[0].allow == "/"
      && r.rules[0].disallow == ["/api", "/_next", "/trpc"]
      && r.sitemap == [r.host + "/sitemap.xml"]
      && r.host == GetBaseUrl(env, origin)
      && (r.host == FALLBACK_URL || Some(r.host) == origin(Normalize(EnvUrl(env)).GetOr(FALLBACK_URL)))
  {
  }

  /** With no variable set the robots file points at the fallback site, given that the fallback is its own origin. */
  lemma UnconfiguredRobots(origin: string -> Option<string>)
    requires origin(FALLBACK_URL) == Some(FALLBACK_URL)
    ensures RobotsFor(Env(None, None, None), origin).sitemap == ["https://yalmeida.vercel.app/sitemap.xml"]
  {
    UnconfiguredUsesFallback(Env(None, None, None), origin);
    assert FALLBACK_URL + "/sitemap.xml" == "https://yalmeida.vercel.app/sitemap.xml";
  }

  /** The robots host is the base of every URL the sitemap lists. */
  lemma SitemapUnderRobotsHost(env: Env, origin: string -> Option<string>, locales: seq<string>, defaultLocale: string,
                               postsOf: string -> seq<Sitemap.SitemapPost>, parse: string -> Option<int>, now: int)
    ensures forall e :: e in Sitemap.BuildSitemap(env, origin, locales, defaultLocale, postsOf, parse, now) ==>
      StartsWith(e.url, RobotsFor(env, origin).host)
  {
    Sitemap.EntriesUnderBase(GetBaseUrl(env, origin), locales, defaultLocale, postsOf, parse, now);
  }
}
