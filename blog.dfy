/**
 * The HTML blog listing of lib/blog.ts: every `.html` file of a locale's post directory becomes one
 * post whose title, excerpt and date are read from its markup, and the posts come newest first.
 */
module Blog {
  import opened Wrappers
  import opened Strings
  import opened Seqs
  import opened Sorting
  import opened HtmlScan

  datatype BlogPost = BlogPost(
    slug: string,
    title: string,
    excerpt: string,
    date: string,
    author: string,
    tags: seq<string>,
    content: string,
    locale: string)

  /** One directory entry with the text of the file. */
  datatype BlogFile = BlogFile(name: string, content: string)

  const AUTHOR := "Yuri Almeida"
  const DEFAULT_DATE := "2025-01-01"
  const EXCERPT_LENGTH: nat := 150
  const ELLIPSIS := "..."

  predicate IsHtmlFile(f: BlogFile) {
    EndsWith(f.name, ".html")
  }

  /** `file.replace(".html", "")`: only the first `.html` goes. */
  function SlugOf(name: string): string {
    ReplaceFirst(name, ".html", "")
  }

  /** The title element's text, else the slug with its hyphens turned into spaces. */
  function TitleOf(content: string, slug: string): string {
    Capture(TITLE, content).GetOr(ReplaceAllChar(slug, '-', ' '))
  }

  /** The first 150 characters of the first paragraph's text, else of the whole file, then `...`. */
  function ExcerptOf(content: string): string {
    Take(Capture(PARAGRAPH, content).GetOr(content), EXCERPT_LENGTH) + ELLIPSIS
  }

  /** The `<meta name="date">` value, else the fixed default date. */
  function DateOf(content: string): string {
    Capture(DATE_META, content).GetOr(DEFAULT_DATE)
  }

  /** The body of the listing loop for one file. */
  function ExtractPost(f: BlogFile, locale: string): BlogPost {
    var slug := SlugOf(f.name);
    BlogPost(slug, TitleOf(f.content, slug), ExcerptOf(f.content), DateOf(f.content),
             AUTHOR, [], f.content, locale)
  }

  function ExtractAll(files: seq<BlogFile>, locale: string): (r: seq<BlogPost>)
    ensures |r| == |files|
    ensures forall i :: 0 <= i < |files| ==> r[i] == ExtractPost(files[i], locale)
  {
    seq(|files|, i requires 0 <= i < |files| => ExtractPost(files[i], locale))
  }

  /** The sort key: the post's date, when it parses. */
  function DateKey(parse: string -> Option<int>): BlogPost -> Option<int> {
    (p: BlogPost) => parse(p.date)
  }

  /** Every field of an extracted post, as a reader of the markup would state it. */
  lemma ExtractPostFields(f: BlogFile, locale: string)
    ensures var p := ExtractPost(f, locale);
      && p.slug == SlugOf(f.name)
      && (match Capture(TITLE, f.content)
          case Some(t) => p.title == t && t != "" && '<' !in t
          case None => p.title == ReplaceAllChar(p.slug, '-', ' ') && '-' !in p.title)
      && EndsWith(p.excerpt, ELLIPSIS) && |p.excerpt| <= EXCERPT_LENGTH + 3
      && (match Capture(PARAGRAPH, f.content)
          case Some(t) => p.excerpt == t[..if |t| < EXCERPT_LENGTH then |t| else EXCERPT_LENGTH] + ELLIPSIS
          case None =>
            p.excerpt == f.content[..if |f.content| < EXCERPT_LENGTH then |f.content| else EXCERPT_LENGTH] + ELLIPSIS)
      && (match Capture(DATE_META, f.content)
          case Some(d) => p.date == d && d != "" && '"' !in d
          case None => p.date == DEFAULT_DATE)
      && p.author == AUTHOR && p.tags == [] && p.content == f.content && p.locale == locale
  {
    var p := ExtractPost(f, locale);
    CaptureShape(TITLE, f.content);
    CaptureShape(PARAGRAPH, f.content);
    CaptureShape(DATE_META, f.content);
    var body := Capture(PARAGRAPH, f.content).GetOr(f.content);
    assert p.excerpt == Take(body, EXCERPT_LENGTH) + ELLIPSIS;
    assert p.excerpt[|p.excerpt| - 3..] == ELLIPSIS;
    if Capture(TITLE, f.content).None? {
      var t := ReplaceAllChar(p.slug, '-', ' ');
      assert forall i :: 0 <= i < |t| ==> t[i] != '-';
    }
  }

  /** A name that ends in `.html` and holds no other occurrence loses exactly that suffix. */
  lemma SlugStripsSuffix(base: string)
    requires forall k: nat :: !OccursAt(base, ".html", k)
    ensures SlugOf(base + ".html") == base
  {
    var name := base + ".html";
    assert OccursAt(name, ".html", |base|);
    forall k: nat | k < |base| ensures !OccursAt(name, ".html", k) {
      if k + 5 <= |base| {
        assert name[k..k + 5] == base[k..k + 5];
        assert !OccursAt(base, ".html", k);
      } else {
        var d := |base| - k;
        assert name[k..k + 5][d] == name[|base|] == '.';
        assert name[k..k + 5][d] != ".html"[d];
      }
    }
    assert name[..|base|] == base;
    assert name[|base| + 5..] == "";
  }

  /** Only the first `.html` is removed: `a.html.html` gives the slug `a.html`. */
  lemma SlugKeepsLaterHtml(base: string)
    requires forall k: nat :: !OccursAt(base, ".html", k)
    ensures SlugOf(base + ".html.html") == base + ".html"
  {
    var name := base + ".html.html";
    assert name == (base + ".html") + ".html";
    assert OccursAt(name, ".html", |base|);
    forall k: nat | k < |base| ensures !OccursAt(name, ".html", k) {
      if k + 5 <= |base| {
        assert name[k..k + 5] == base[k..k + 5];
        assert !OccursAt(base, ".html", k);
      } else {
        var d := |base| - k;
        assert name[k..k + 5][d] == name[|base|] == '.';
        assert name[k..k + 5][d] != ".html"[d];
      }
    }
    assert name[..|base|] == base;
    assert name[|base| + 5..] == ".html";
  }

  /** Every listed post is the extraction of one `.html` file of the directory. */
  lemma ListedPostsComeFromHtmlFiles(files: seq<BlogFile>, locale: string, parse: string -> Option<int>)
    ensures var posts := SortNewestFirst(ExtractAll(Filter(files, IsHtmlFile), locale), DateKey(parse));
      forall p :: p in posts ==> exists f :: f in files && IsHtmlFile(f) && p == ExtractPost(f, locale)
  {
    var htmlFiles := Filter(files, IsHtmlFile);
    var acc := ExtractAll(htmlFiles, locale);
    var posts := SortNewestFirst(acc, DateKey(parse));
    forall p | p in posts
      ensures exists f :: f in files && IsHtmlFile(f) && p == ExtractPost(f, locale)
    {
      assert p in multiset(acc);
      var k :| 0 <= k < |acc| && acc[k] == p;
      var f := htmlFiles[k];
      assert multiset(htmlFiles)[f] > 0;
      assert f in files;
    }
  }

  /** The sorted listing: as many posts as `.html` files, the same posts as extracted, newest first, each from a file. */
  lemma ListingSpec(files: seq<BlogFile>, locale: string, parse: string -> Option<int>)
    ensures var acc := ExtractAll(Filter(files, IsHtmlFile), locale);
      var posts := SortNewestFirst(acc, DateKey(parse));
      && multiset(posts) == multiset(acc)
      && |posts| == |Filter(files, IsHtmlFile)|
      && NewestFirst(posts, DateKey(parse))
      && forall p :: p in posts ==> exists f :: f in files && IsHtmlFile(f) && p == ExtractPost(f, locale)
  {
    var acc := ExtractAll(Filter(files, IsHtmlFile), locale);
    var posts := SortNewestFirst(acc, DateKey(parse));
    SortIsNewestFirst(acc, DateKey(parse));
    assert |posts| == |acc| by {
      assert |multiset(posts)| == |multiset(acc)|;
    }
    ListedPostsComeFromHtmlFiles(files, locale, parse);
  }

  /** The `for (const file of htmlFiles)` loop: one extracted post per file, pushed in order. */
  method CollectPosts(htmlFiles: seq<BlogFile>, locale: string) returns (acc: seq<BlogPost>)
    ensures |acc| == |htmlFiles|
    ensures forall k :: 0 <= k < |htmlFiles| ==> acc[k] == ExtractPost(htmlFiles[k], locale)
  {
    acc := [];
    for i := 0 to |htmlFiles|
      invariant |acc| == i
      invariant forall k :: 0 <= k < i ==> acc[k] == ExtractPost(htmlFiles[k], locale)
    {
      acc := acc + [ExtractPost(htmlFiles[i], locale)];
    }
  }

  /**
   * `getBlogPosts(locale)` over the directory's files: one post per `.html` file, pushed in
   * directory order, then sorted newest first.
   */
  method GetBlogPosts(files: seq<BlogFile>, locale: string, parse: string -> Option<int>)
    returns (posts: seq<BlogPost>)
    ensures posts == SortNewestFirst(ExtractAll(Filter(files, IsHtmlFile), locale), DateKey(parse))
    ensures multiset(posts) == multiset(ExtractAll(Filter(files, IsHtmlFile), locale))
    ensures |posts| == |Filter(files, IsHtmlFile)|
    ensures NewestFirst(posts, DateKey(parse))
    ensures forall p :: p in posts ==> exists f :: f in files && IsHtmlFile(f) && p == ExtractPost(f, locale)
  {
    var htmlFiles := Filter(files, IsHtmlFile);
    var acc := CollectPosts(htmlFiles, locale);
    assert acc == ExtractAll(htmlFiles, locale);
    posts := SortNewestFirst(acc, DateKey(parse));
    ListingSpec(files, locale, parse);
  }
}
