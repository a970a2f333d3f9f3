/**
 * GET /api/blog (app/api/blog/route.ts): the locale query parameter, defaulting to English, and the
 * route's own copy of the HTML listing, which repeats lib/blog.ts statement for statement.
 */
module BlogApi {
  import opened Wrappers
  import opened Seqs
  import opened Sorting
  import Blog

  const DEFAULT_LOCALE := "en"

  /** `searchParams.get(name)`: the value of the first parameter with that name, or `null`. */
  function QueryGet(params: seq<(string, string)>, name: string): (r: Option<string>)
    ensures r.Some? ==>
      exists i :: 0 <= i < |params| && params[i] == (name, r.value) && (forall k :: 0 <= k < i ==> params[k].0 != name)
    ensures r.None? ==> forall k :: 0 <= k < |params| ==> params[k].0 != name
  {
    match FindIndexFrom(params, (p: (string, string)) => p.0 == name, 0)
    case None => None
    case Some(i) => Some(params[i].1)
  }

  /** `searchParams.get('locale') || 'en'`: a missing or empty parameter means English. */
  function LocaleParam(params: seq<(string, string)>): (r: string)
    ensures r != ""
    ensures QueryGet(params, "locale").None? ==> r == DEFAULT_LOCALE
    ensures QueryGet(params, "locale") == Some("") ==> r == DEFAULT_LOCALE
    ensures QueryGet(params, "locale").Some? && QueryGet(params, "locale") != Some("") ==>
      r == QueryGet(params, "locale").value
  {
    match QueryGet(params, "locale")
    case Some(v) => if v != "" then v else DEFAULT_LOCALE
    case None => DEFAULT_LOCALE
  }

  /** The route's `getBlogPosts`: the same listing as lib/blog.ts, for the requested locale. */
  method GetBlogPosts(files: seq<Blog.BlogFile>, locale: string, parse: string -> Option<int>)
    returns (posts: seq<Blog.BlogPost>)
    ensures posts == SortNewestFirst(Blog.ExtractAll(Filter(files, Blog.IsHtmlFile), locale), Blog.DateKey(parse))
    ensures |posts| == |Filter(files, Blog.IsHtmlFile)|
    ensures NewestFirst(posts, Blog.DateKey(parse))
    ensures forall p :: p in posts ==> p.locale == locale
  {
    posts := Blog.GetBlogPosts(files, locale, parse);
    forall p | p in posts ensures p.locale == locale {
      var f :| f in files && Blog.IsHtmlFile(f) && p == Blog.ExtractPost(f, locale);
    }
  }

  /** `GET`: the listing for the locale named by the query string. */
  method Get(params: seq<(string, string)>, files: seq<Blog.BlogFile>, parse: string -> Option<int>)
    returns (posts: seq<Blog.BlogPost>)
    ensures posts == SortNewestFirst(Blog.ExtractAll(Filter(files, Blog.IsHtmlFile), LocaleParam(params)), Blog.DateKey(parse))
    ensures forall p :: p in posts ==> p.locale == LocaleParam(params) && p.locale != ""
  {
    var locale := LocaleParam(params);
    posts := GetBlogPosts(files, locale, parse);
  }
}
