/**
 * The sitemap of app/sitemap.ts: a home entry and a blog-index entry per locale, then one entry per
 * blog post of every locale, all under the base URL; the default locale's pages carry no prefix.
 */
module Sitemap {
  import opened Wrappers
  import opened Strings
  import opened Seqs
  import opened SiteBase
  import Blog

  datatype Entry = Entry(url: string, lastModified: int, changeFrequency: string, priority: real)

  /** The extracted head metadata a post may carry: its published time and its Open Graph fields. */
  datatype PostMetadata = PostMetadata(publishedTime: Option<string>, openGraph: map<string, string>)

  /** What the sitemap reads of a post; `metadata` is optional. */
  datatype SitemapPost = SitemapPost(slug: string, date: string, metadata: Option<PostMetadata>)

  const WEEKLY := "weekly"

  /** `parseDate`: nothing for a missing or empty value, else what the date parser makes of it. */
  function ParseDate(value: Option<string>, parse: string -> Option<int>): (r: Option<int>)
    ensures value.None? || value == Some("") ==> r.None?
    ensures value.Some? && value.value != "" ==> r == parse(value.value)
  {
    match value
    case None => None
    case Some(v) => if v == "" then None else parse(v)
  }

  /** `locale === defaultLocale ? "" : `/${locale}`` */
  function LocalePrefix(locale: string, defaultLocale: string): string {
    if locale == defaultLocale then "" else "/" + locale
  }

  function HomeEntry(base: string, locale: string, defaultLocale: string, now: int): Entry {
    var prefix := LocalePrefix(locale, defaultLocale);
    var homePath := if prefix != "" then prefix else "/";
    Entry(base + homePath, now, WEEKLY, if locale == defaultLocale then 1.0 else 0.9)
  }

  function BlogIndexEntry(base: string, locale: string, defaultLocale: string, now: int): Entry {
    var blogPath := LocalePrefix(locale, defaultLocale) + "/blog";
    Entry(base + (if blogPath != "" then blogPath else "/blog"), now, WEEKLY, 0.8)
  }

  /** `locales.flatMap(...)`: home then blog index, locale by locale. */
  function StaticEntries(base: string, locales: seq<string>, defaultLocale: string, now: int): (r: seq<Entry>)
    ensures |r| == 2 * |locales|
  {
    FlatPairs((l: string) => HomeEntry(base, l, defaultLocale, now),
              (l: string) => BlogIndexEntry(base, l, defaultLocale, now), locales)
  }

  /** The two entries of the `i`-th locale sit at `2 * i` and `2 * i + 1`. */
  lemma StaticEntriesAt(base: string, locales: seq<string>, defaultLocale: string, now: int, i: nat)
    requires i < |locales|
    ensures StaticEntries(base, locales, defaultLocale, now)[2 * i] == HomeEntry(base, locales[i], defaultLocale, now)
    ensures StaticEntries(base, locales, defaultLocale, now)[2 * i + 1] == BlogIndexEntry(base, locales[i], defaultLocale, now)
  {
    FlatPairsAt((l: string) => HomeEntry(base, l, defaultLocale, now),
                (l: string) => BlogIndexEntry(base, l, defaultLocale, now), locales, i);
  }

  /** A home entry: `base/` at priority 1 for the default locale, `base/<locale>` at 0.9 for the others. */
  lemma HomeEntryShape(base: string, locale: string, defaultLocale: string, now: int)
    ensures var e := HomeEntry(base, locale, defaultLocale, now);
      && (locale == defaultLocale ==> e.url == base + "/" && e.priority == 1.0)
      && (locale != defaultLocale ==> e.url == base + "/" + locale && e.priority == 0.9)
      && e.changeFrequency == WEEKLY && e.lastModified == now
  {
    if locale != defaultLocale {
      assert ("/" + locale)[0] == '/';
      assert base + ("/" + locale) == base + "/" + locale;
    }
  }

  /** A blog-index entry: `base/blog` or `base/<locale>/blog`, at priority 0.8; the `|| "/blog"` fallback never applies. */
  lemma BlogIndexEntryShape(base: string, locale: string, defaultLocale: string, now: int)
    ensures var e := BlogIndexEntry(base, locale, defaultLocale, now);
      && (locale == defaultLocale ==> e.url == base + "/blog")
      && (locale != defaultLocale ==> e.url == base + "/" + locale + "/blog")
      && e.priority == 0.8 && e.changeFrequency == WEEKLY && e.lastModified == now
  {
    var blogPath := LocalePrefix(locale, defaultLocale) + "/blog";
    assert |blogPath| >= 5;
    if locale == defaultLocale {
      assert blogPath == "/blog";
    } else {
      assert base + ("/" + locale + "/blog") == base + "/" + locale + "/blog";
    }
  }

  /** `lastModified` with the metadata optional: published time, then `og:updated_time`, then the post date, then now. */
  function LastModified(post: SitemapPost, parse: string -> Option<int>, now: int): int {
    var fromMetadata :=
      match post.metadata
      case None => None
      case Some(m) =>
        ParseDate(m.publishedTime, parse).OrElse(
          ParseDate(if "og:updated_time" in m.openGraph then Some(m.openGraph["og:updated_time"]) else None, parse));
    fromMetadata.OrElse(ParseDate(Some(post.date), parse)).GetOr(now)
  }

  /** Neither metadata date gives a time: there is no metadata, or its published time and `og:updated_time` are missing, empty or unparseable. */
  predicate MetadataUndated(post: SitemapPost, parse: string -> Option<int>) {
    match post.metadata
    case None => true
    case Some(m) =>
      && (m.publishedTime.None? || m.publishedTime == Some("") || parse(m.publishedTime.value).None?)
      && ("og:updated_time" !in m.openGraph || m.openGraph["og:updated_time"] == ""
          || parse(m.openGraph["og:updated_time"]).None?)
  }

  /**
   * The first date in the chain that parses wins: the published time, then `og:updated_time`, then,
   * when the metadata is missing or gives no time, the post's own date, and the current time last.
   */
  lemma LastModifiedChain(post: SitemapPost, parse: string -> Option<int>, now: int)
    ensures var r := LastModified(post, parse, now);
      && (post.metadata.Some? && ParseDate(post.metadata.value.publishedTime, parse).Some? ==>
            r == ParseDate(post.metadata.value.publishedTime, parse).value)
      && (post.metadata.Some? && ParseDate(post.metadata.value.publishedTime, parse).None? &&
          "og:updated_time" in post.metadata.value.openGraph &&
          ParseDate(Some(post.metadata.value.openGraph["og:updated_time"]), parse).Some? ==>
            r == ParseDate(Some(post.metadata.value.openGraph["og:updated_time"]), parse).value)
      && (MetadataUndated(post, parse) && post.date != "" && parse(post.date).Some? ==> r == parse(post.date).value)
      && (MetadataUndated(post, parse) && (post.date == "" || parse(post.date).None?) ==> r == now)
  {
  }

  function PostEntry(base: string, prefix: string, post: SitemapPost, parse: string -> Option<int>, now: int): Entry {
    Entry(base + prefix + "/blog/" + post.slug, LastModified(post, parse, now), WEEKLY, 0.7)
  }

  function LocalePostEntries(base: string, prefix: string, posts: seq<SitemapPost>, parse: string -> Option<int>, now: int)
    : (r: seq<Entry>)
    ensures |r| == |posts|
    ensures forall j :: 0 <= j < |posts| ==> r[j] == PostEntry(base, prefix, posts[j], parse, now)
  {
    seq(|posts|, j requires 0 <= j < |posts| => PostEntry(base, prefix, posts[j], parse, now))
  }

  /** Posts summed over the locales. */
  function TotalPosts(locales: seq<string>, postsOf: string -> seq<SitemapPost>): nat {
    if locales == [] then 0 else |postsOf(locales[0])| + TotalPosts(locales[1..], postsOf)
  }

  /** `(await Promise.all(locales.map(...))).flat()`: each locale's posts, locale by locale. */
  function BlogEntries(base: string, locales: seq<string>, defaultLocale: string,
                       postsOf: string -> seq<SitemapPost>, parse: string -> Option<int>, now: int): (r: seq<Entry>)
    ensures |r| == TotalPosts(locales, postsOf)
  {
    if locales == [] then []
    else
      LocalePostEntries(base, LocalePrefix(locales[0], defaultLocale), postsOf(locales[0]), parse, now)
      + BlogEntries(base, locales[1..], defaultLocale, postsOf, parse, now)
  }

  /** Every blog entry is the page of one post of one locale, at priority 0.7. */
  lemma {:induction false} BlogEntryShape(base: string, locales: seq<string>, defaultLocale: string,
                                          postsOf: string -> seq<SitemapPost>, parse: string -> Option<int>, now: int)
    ensures forall e :: e in BlogEntries(base, locales, defaultLocale, postsOf, parse, now) ==>
      && e.priority == 0.7 && e.changeFrequency == WEEKLY
      && exists l, p :: l in locales && p in postsOf(l) && e.url == base + LocalePrefix(l, defaultLocale) + "/blog/" + p.slug
  {
    if locales != [] {
      BlogEntryShape(base, locales[1..], defaultLocale, postsOf, parse, now);
      var here := LocalePostEntries(base, LocalePrefix(locales[0], defaultLocale), postsOf(locales[0]), parse, now);
      forall e | e in here
        ensures e.priority == 0.7 && e.changeFrequency == WEEKLY
        ensures exists l, p :: l in locales && p in postsOf(l) && e.url == base + LocalePrefix(l, defaultLocale) + "/blog/" + p.slug
      {
        var j :| 0 <= j < |here| && here[j] == e;
        assert postsOf(locales[0])[j] in postsOf(locales[0]);
      }
      forall e | e in BlogEntries(base, locales[1..], defaultLocale, postsOf, parse, now)
        ensures exists l, p :: l in locales && p in postsOf(l) && e.url == base + LocalePrefix(l, defaultLocale) + "/blog/" + p.slug
      {
        var l, p :| l in locales[1..] && p in postsOf(l) && e.url == base + LocalePrefix(l, defaultLocale) + "/blog/" + p.slug;
        assert l in locales;
      }
    }
  }

  /** `[...staticEntries, ...blogEntries]` for an already computed base URL. */
  function Entries(base: string, locales: seq<string>, defaultLocale: string,
                   postsOf: string -> seq<SitemapPost>, parse: string -> Option<int>, now: int): (r: seq<Entry>)
    ensures |r| == 2 * |locales| + TotalPosts(locales, postsOf)
    ensures r[..2 * |locales|] == StaticEntries(base, locales, defaultLocale, now)
    ensures r[2 * |locales|..] == BlogEntries(base, locales, defaultLocale, postsOf, parse, now)
  {
    StaticEntries(base, locales, defaultLocale, now) + BlogEntries(base, locales, defaultLocale, postsOf, parse, now)
  }

  /** The whole sitemap, under the base URL of the environment. */
  function BuildSitemap(env: Env, origin: string -> Option<string>, locales: seq<string>, defaultLocale: string,
                        postsOf: string -> seq<SitemapPost>, parse: string -> Option<int>, now: int): seq<Entry> {
    Entries(GetBaseUrl(env, origin), locales, defaultLocale, postsOf, parse, now)
  }

  lemma PrefixOfConcat(base: string, rest: string)
    ensures StartsWith(base + rest, base)
  {
    assert (base + rest)[..|base|] == base;
  }

  lemma StaticUnderBase(base: string, locales: seq<string>, defaultLocale: string, now: int)
    ensures forall e :: e in StaticEntries(base, locales, defaultLocale, now) ==> StartsWith(e.url, base)
  {
    var st := StaticEntries(base, locales, defaultLocale, now);
    forall e | e in st ensures StartsWith(e.url, base) {
      var k :| 0 <= k < |st| && st[k] == e;
      var i := k / 2;
      StaticEntriesAt(base, locales, defaultLocale, now, i);
      if k == 2 * i {
        HomeUnderBase(base, locales[i], defaultLocale, now);
      } else {
        assert k == 2 * i + 1;
        BlogIndexUnderBase(base, locales[i], defaultLocale, now);
      }
    }
  }

  lemma HomeUnderBase(base: string, locale: string, defaultLocale: string, now: int)
    ensures StartsWith(HomeEntry(base, locale, defaultLocale, now).url, base)
  {
    var prefix := LocalePrefix(locale, defaultLocale);
    PrefixOfConcat(base, if prefix != "" then prefix else "/");
  }

  lemma BlogIndexUnderBase(base: string, locale: string, defaultLocale: string, now: int)
    ensures StartsWith(BlogIndexEntry(base, locale, defaultLocale, now).url, base)
  {
    var prefix := LocalePrefix(locale, defaultLocale);
    PrefixOfConcat(base, if prefix + "/blog" != "" then prefix + "/blog" else "/blog");
  }


  lemma {:induction false} BlogUnderBase(base: string, locales: seq<string>, defaultLocale: string,
                                         postsOf: string -> seq<SitemapPost>, parse: string -> Option<int>, now: int)
    ensures forall e :: e in BlogEntries(base, locales, defaultLocale, postsOf, parse, now) ==> StartsWith(e.url, base)
  {
    if locales != [] {
      BlogUnderBase(base, locales[1..], defaultLocale, postsOf, parse, now);
      var prefix := LocalePrefix(locales[0], defaultLocale);
      var here := LocalePostEntries(base, prefix, postsOf(locales[0]), parse, now);
      forall e | e in here ensures StartsWith(e.url, base) {
        var j :| 0 <= j < |here| && here[j] == e;
        var slug := postsOf(locales[0])[j].slug;
        assert e.url == base + (prefix + "/blog/" + slug);
        PrefixOfConcat(base, prefix + "/blog/" + slug);
      }
      var rest := BlogEntries(base, locales[1..], defaultLocale, postsOf, parse, now);
      assert forall e :: e in here + rest ==> e in here || e in rest;
    }
  }

  /** Every URL of the sitemap starts with the base URL. */
  lemma EntriesUnderBase(base: string, locales: seq<string>, defaultLocale: string,
                         postsOf: string -> seq<SitemapPost>, parse: string -> Option<int>, now: int)
    ensures forall e :: e in Entries(base, locales, defaultLocale, postsOf, parse, now) ==> StartsWith(e.url, base)
  {
    StaticUnderBase(base, locales, defaultLocale, now);
    BlogUnderBase(base, locales, defaultLocale, postsOf, parse, now);
    var st := StaticEntries(base, locales, defaultLocale, now);
    var bl := BlogEntries(base, locales, defaultLocale, postsOf, parse, now);
    assert Entries(base, locales, defaultLocale, postsOf, parse, now) == st + bl;
    assert forall e :: e in st + bl ==> e in st || e in bl;
  }

  /** The record lib/blog.ts hands the sitemap: its posts have no `metadata` field at all. */
  function FromBlogPost(p: Blog.BlogPost): SitemapPost {
    SitemapPost(p.slug, p.date, None)
  }

  /** `lastModified` as written: `post.metadata.publishedTime` throws when `metadata` is undefined. */
  function LastModifiedAsWritten(post: SitemapPost, parse: string -> Option<int>, now: int): Result<int, string> {
    match post.metadata
    case None => Err("TypeError: cannot read properties of undefined (reading 'publishedTime')")
    case Some(_) => Ok(LastModified(post, parse, now))
  }

  /** The blog entries as written: the first post without metadata rejects the whole sitemap. */
  function BlogEntriesAsWritten(base: string, locales: seq<string>, defaultLocale: string,
                                postsOf: string -> seq<SitemapPost>, parse: string -> Option<int>, now: int)
    : Result<seq<Entry>, string>
  {
    if locales == [] then Ok([])
    else
      var posts := postsOf(locales[0]);
      if exists j :: 0 <= j < |posts| && posts[j].metadata.None? then
        Err("TypeError: cannot read properties of undefined (reading 'publishedTime')")
      else
        match BlogEntriesAsWritten(base, locales[1..], defaultLocale, postsOf, parse, now) {
          case Err(e) => Err(e)
          case Ok(rest) => Ok(LocalePostEntries(base, LocalePrefix(locales[0], defaultLocale), posts, parse, now) + rest)
        }
  }

  predicate AllHaveMetadata(locales: seq<string>, postsOf: string -> seq<SitemapPost>) {
    forall l, p :: l in locales && p in postsOf(l) ==> p.metadata.Some?
  }

  /** As written, the sitemap fails as soon as one locale lists a post without metadata, as every lib/blog.ts post is. */
  lemma {:induction false} AsWrittenFailsWithoutMetadata(base: string, locales: seq<string>, defaultLocale: string,
                                                        postsOf: string -> seq<SitemapPost>, parse: string -> Option<int>, now: int)
    requires !AllHaveMetadata(locales, postsOf)
    ensures BlogEntriesAsWritten(base, locales, defaultLocale, postsOf, parse, now).Err?
  {
    var l, p :| l in locales && p in postsOf(l) && p.metadata.None?;
    var posts := postsOf(locales[0]);
    if l == locales[0] {
      var j :| 0 <= j < |posts| && posts[j] == p;
      assert posts[j].metadata.None?;
    } else {
      assert l in locales[1..];
      AsWrittenFailsWithoutMetadata(base, locales[1..], defaultLocale, postsOf, parse, now);
    }
  }

  /** The lib/blog.ts listing of any locale that has a post is enough to make the as-written sitemap fail. */
  lemma BlogListingBreaksAsWritten(base: string, locales: seq<string>, defaultLocale: string,
                                   listing: string -> seq<Blog.BlogPost>, parse: string -> Option<int>, now: int, l: string)
    requires l in locales && |listing(l)| > 0
    ensures BlogEntriesAsWritten(base, locales, defaultLocale,
                                 (x: string) => seq(|listing(x)|, j requires 0 <= j < |listing(x)| => FromBlogPost(listing(x)[j])),
                                 parse, now).Err?
  {
    var postsOf := (x: string) => seq(|listing(x)|, j requires 0 <= j < |listing(x)| => FromBlogPost(listing(x)[j]));
    assert postsOf(l)[0] in postsOf(l) && postsOf(l)[0].metadata.None?;
    AsWrittenFailsWithoutMetadata(base, locales, defaultLocale, postsOf, parse, now);
  }

  /** Where every post does carry metadata, the corrected entries are exactly the as-written ones. */
  lemma {:induction false} CorrectedAgreesWithAsWritten(base: string, locales: seq<string>, defaultLocale: string,
                                                       postsOf: string -> seq<SitemapPost>, parse: string -> Option<int>, now: int)
    requires AllHaveMetadata(locales, postsOf)
    ensures BlogEntriesAsWritten(base, locales, defaultLocale, postsOf, parse, now)
         == Ok(BlogEntries(base, locales, defaultLocale, postsOf, parse, now))
  {
    if locales != [] {
      var posts := postsOf(locales[0]);
      assert forall j :: 0 <= j < |posts| ==> posts[j] in posts;
      assert AllHaveMetadata(locales[1..], postsOf) by {
        forall l, p | l in locales[1..] && p in postsOf(l) ensures p.metadata.Some? {
          assert l in locales;
        }
      }
      CorrectedAgreesWithAsWritten(base, locales[1..], defaultLocale, postsOf, parse, now);
    }
  }
}
