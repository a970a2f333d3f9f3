/**
 * The MDX post catalogue of posts.ts: posts newest first, the posts of one category, and pages of
 * `limit` posts taken with `slice((page - 1) * limit, page * limit)`.
 */
module Posts {
  import opened Wrappers
  import opened Seqs
  import opened Sorting

  datatype Post = Post(slug: string, title: string, publishDate: string, categories: seq<string>)

  /** The `metadata` export of one post's MDX file; a `slug` in it overrides the directory name. */
  datatype Metadata = Metadata(slug: Option<string>, title: string, publishDate: string, categories: seq<string>)

  datatype Page = Page(posts: seq<Post>, total: nat)

  /** The MDX files that exist, by (post directory, locale). */
  type Sources = map<(string, string), Metadata>

  const FALLBACK_LOCALE := "en"

  /** `loadMetadata`: the locale's file, else the English one; `None` when both imports fail. */
  function LoadMetadata(sources: Sources, locale: string, slug: string): (r: Option<Metadata>)
    ensures r.Some? <==> (slug, locale) in sources || (slug, FALLBACK_LOCALE) in sources
    ensures (slug, locale) in sources ==> r == Some(sources[(slug, locale)])
    ensures (slug, locale) !in sources && (slug, FALLBACK_LOCALE) in sources ==> r == Some(sources[(slug, FALLBACK_LOCALE)])
  {
    if (slug, locale) in sources then Some(sources[(slug, locale)])
    else if (slug, FALLBACK_LOCALE) in sources then Some(sources[(slug, FALLBACK_LOCALE)])
    else None
  }

  /** `{ slug, ...metadata }`: later properties win, so the metadata's own slug takes precedence. */
  function PostOf(slug: string, m: Metadata): Post {
    Post(m.slug.GetOr(slug), m.title, m.publishDate, m.categories)
  }

  predicate Loadable(sources: Sources, locale: string, slugs: seq<string>) {
    forall i :: 0 <= i < |slugs| ==> LoadMetadata(sources, locale, slugs[i]).Some?
  }

  /** `Promise.all(slugs.map(...))`: every post in directory order, or a rejection if one import fails. */
  function LoadAll(sources: Sources, locale: string, slugs: seq<string>): (r: Option<seq<Post>>)
    ensures r.Some? <==> Loadable(sources, locale, slugs)
    ensures r.Some? ==> |r.value| == |slugs|
    ensures r.Some? ==>
      forall i :: 0 <= i < |slugs| ==> r.value[i] == PostOf(slugs[i], LoadMetadata(sources, locale, slugs[i]).value)
  {
    if slugs == [] then Some([])
    else
      match LoadMetadata(sources, locale, slugs[0]) {
        case None => None
        case Some(m) =>
          match LoadAll(sources, locale, slugs[1..]) {
            case None =>
              assert !Loadable(sources, locale, slugs) by {
                var i :| 0 <= i < |slugs[1..]| && LoadMetadata(sources, locale, slugs[1..][i]).None?;
                assert slugs[i + 1] == slugs[1..][i];
              }
              None
            case Some(rest) =>
              assert Loadable(sources, locale, slugs) by {
                forall i | 0 <= i < |slugs| ensures LoadMetadata(sources, locale, slugs[i]).Some? {
                  if i > 0 { assert slugs[i] == slugs[1..][i - 1]; }
                }
              }
              Some([PostOf(slugs[0], m)] + rest)
          }
      }
  }

  function PublishKey(parse: string -> Option<int>): Post -> Option<int> {
    (p: Post) => parse(p.publishDate)
  }

  /** `getPosts`: the loaded posts sorted by `publishDate`, newest first. */
  function GetPosts(sources: Sources, locale: string, slugs: seq<string>, parse: string -> Option<int>): Option<seq<Post>> {
    match LoadAll(sources, locale, slugs)
    case None => None
    case Some(ps) => Some(SortNewestFirst(ps, PublishKey(parse)))
  }

  /** The listing holds one post per directory, newest first, and fails only when a post has no MDX file at all. */
  lemma GetPostsSpec(sources: Sources, locale: string, slugs: seq<string>, parse: string -> Option<int>)
    ensures var r := GetPosts(sources, locale, slugs, parse);
      && (r.Some? <==> forall i :: 0 <= i < |slugs| ==> (slugs[i], locale) in sources || (slugs[i], FALLBACK_LOCALE) in sources)
      && (r.Some? ==> |r.value| == |slugs| && NewestFirst(r.value, PublishKey(parse))
                      && multiset(r.value) == multiset(LoadAll(sources, locale, slugs).value))
  {
    var r := GetPosts(sources, locale, slugs, parse);
    if r.Some? {
      var ps := LoadAll(sources, locale, slugs).value;
      SortIsNewestFirst(ps, PublishKey(parse));
      assert |multiset(r.value)| == |multiset(ps)|;
    }
  }

  predicate InCategory(category: string, p: Post) {
    category in p.categories
  }

  /** `posts.filter((post) => post.categories.indexOf(category) !== -1)` */
  function ByCategory(posts: seq<Post>, category: string): seq<Post> {
    Filter(posts, (p: Post) => InCategory(category, p))
  }

  /** The category filter keeps exactly the posts that carry the category, in listing order. */
  lemma ByCategorySpec(posts: seq<Post>, category: string)
    ensures var r := ByCategory(posts, category);
      && (forall i :: 0 <= i < |r| ==> category in r[i].categories)
      && (forall p :: multiset(r)[p] == if category in p.categories then multiset(posts)[p] else 0)
      && IsSubsequence(r, posts)
  {
    var r := ByCategory(posts, category);
    assert forall p :: multiset(r)[p] == if InCategory(category, p) then multiset(posts)[p] else 0;
  }

  function GetPostsByCategory(sources: Sources, locale: string, slugs: seq<string>, category: string,
                             parse: string -> Option<int>): Option<seq<Post>> {
    match GetPosts(sources, locale, slugs, parse)
    case None => None
    case Some(all) => Some(ByCategory(all, category))
  }

  /** One page: `slice((page - 1) * limit, page * limit)` and the length of the whole list. */
  function Paginate(all: seq<Post>, page: int, limit: int): Page {
    Page(JsSlice(all, (page - 1) * limit, page * limit), |all|)
  }

  function GetPaginatedPosts(sources: Sources, locale: string, slugs: seq<string>, page: int, limit: int,
                             parse: string -> Option<int>): Option<Page> {
    match GetPosts(sources, locale, slugs, parse)
    case None => None
    case Some(all) => Some(Paginate(all, page, limit))
  }

  function GetPaginatedPostsByCategory(sources: Sources, locale: string, slugs: seq<string>, page: int, limit: int,
                                       category: string, parse: string -> Option<int>): Option<Page> {
    match GetPostsByCategory(sources, locale, slugs, category, parse)
    case None => None
    case Some(inCategory) => Some(Paginate(inCategory, page, limit))
  }

  function Min(a: int, b: int): int {
    if a < b then a else b
  }

  /** From page 1 on, a page is the run of at most `limit` posts starting at `(page - 1) * limit`. */
  lemma PageIsRun(all: seq<Post>, page: int, limit: int)
    requires page >= 1 && limit >= 0
    ensures var lo, hi := Min((page - 1) * limit, |all|), Min(page * limit, |all|);
      && 0 <= lo <= hi <= |all|
      && Paginate(all, page, limit).posts == all[lo..hi]
      && |Paginate(all, page, limit).posts| <= limit
      && Paginate(all, page, limit).total == |all|
  {
    assert page * limit == (page - 1) * limit + limit;
    assert (page - 1) * limit >= 0;
  }

  /** A page that starts at or past the end is empty, and page 0 is always empty. */
  lemma PagesOutsideAreEmpty(all: seq<Post>, page: int, limit: int)
    requires limit >= 0
    ensures page >= 1 && (page - 1) * limit >= |all| ==> Paginate(all, page, limit).posts == []
    ensures page == 0 ==> Paginate(all, page, limit).posts == []
  {
    if page >= 1 { PageIsRun(all, page, limit); }
  }

  /** Pages 1 to `count`, concatenated. */
  function Pages(all: seq<Post>, limit: int, count: nat): seq<Post> {
    if count == 0 then [] else Pages(all, limit, count - 1) + Paginate(all, count, limit).posts
  }

  lemma {:induction false} PagesArePrefix(all: seq<Post>, limit: int, count: nat)
    requires limit > 0
    ensures Pages(all, limit, count) == all[..Min(count * limit, |all|)]
  {
    if count > 0 {
      PagesArePrefix(all, limit, count - 1);
      PageIsRun(all, count, limit);
      var lo := Min((count - 1) * limit, |all|);
      var hi := Min(count * limit, |all|);
      assert 0 <= lo <= hi <= |all|;
      assert Pages(all, limit, count) == all[..lo] + all[lo..hi];
      assert all[..lo] + all[lo..hi] == all[..hi];
    }
  }

  /** ceil(n / limit) pages of `limit` posts reach past the last post. */
  lemma CeilingPagesReach(n: nat, limit: int)
    requires limit > 0
    ensures (n + limit - 1) / limit >= 0
    ensures ((n + limit - 1) / limit) * limit >= n
  {
    var q, r := (n + limit - 1) / limit, (n + limit - 1) % limit;
    assert q * limit + r == n + limit - 1 && r < limit;
  }

  /** With a positive `limit`, pages 1 to ceil(n / limit) together are the whole list. */
  lemma PagesCoverAll(all: seq<Post>, limit: int)
    requires limit > 0
    ensures Pages(all, limit, (|all| + limit - 1) / limit) == all
  {
    CeilingPagesReach(|all|, limit);
    var count: nat := (|all| + limit - 1) / limit;
    PagesArePrefix(all, limit, count);
    assert Min(count * limit, |all|) == |all|;
    assert all[..|all|] == all;
  }

  /** Every post on a page is a post of the list it was cut from. */
  lemma PageElementsFromList(all: seq<Post>, page: int, limit: int)
    ensures forall i :: 0 <= i < |Paginate(all, page, limit).posts| ==>
      Paginate(all, page, limit).posts[i] == all[SliceIndex((page - 1) * limit, |all|) + i]
  {
  }

  /** A category page is a page of that category's posts, and its total counts that category only. */
  lemma CategoryPageSpec(sources: Sources, locale: string, slugs: seq<string>, page: int, limit: int,
                         category: string, parse: string -> Option<int>)
    ensures var r := GetPaginatedPostsByCategory(sources, locale, slugs, page, limit, category, parse);
      && (r.Some? <==> GetPosts(sources, locale, slugs, parse).Some?)
      && (r.Some? ==>
            var all := GetPosts(sources, locale, slugs, parse).value;
            && r.value.total == |ByCategory(all, category)|
            && r.value == Paginate(ByCategory(all, category), page, limit)
            && (forall i :: 0 <= i < |r.value.posts| ==> category in r.value.posts[i].categories))
  {
    var r := GetPaginatedPostsByCategory(sources, locale, slugs, page, limit, category, parse);
    if r.Some? {
      var all := GetPosts(sources, locale, slugs, parse).value;
      var cs := ByCategory(all, category);
      assert forall i :: 0 <= i < |cs| ==> InCategory(category, cs[i]);
      PageElementsFromList(cs, page, limit);
    }
  }
}
