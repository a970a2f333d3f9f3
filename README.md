# Port2025 portfolio core in Dafny

This project models the logic of a Next.js portfolio site: a personal site with a blog and a project showcase, whose language switcher offers four languages (the middleware and the blog pages serve three of them: `en`, `pt-BR`, `es`). It covers:

- **Language switcher.** It finds the active locale from the URL, writes the preference cookie and computes the path to navigate to when the visitor picks another language.
- **HTML blog listing.** One post per `.html` file in a locale's directory. Title, excerpt and date come from three regular expressions, with defaults. The list is sorted newest first. The blog API route serves the same listing, choosing the locale from the query string.
- **MDX post catalogue.** Posts fall back to English metadata. The catalogue also filters by category and paginates with `slice`.
- **Sitemap and robots file.** Both use one base-URL rule built from the environment with an `https://` default. The sitemap has a home entry and a blog-index entry per locale, then one entry per blog post.
- **Project catalogue.** It is built from a fixed key/id table through translation lookups, with lookup by id. The projects tabs render the catalogue itself. The featured grid and the single featured card render `Project` values of the same shape that they are handed. All three show a few technology badges, a `+N` overflow badge, a placeholder image and the detail link.

Pure code is modelled as datatypes, functions and lemmas. Code that changes state step by step is modelled imperatively:

- `Blog.GetBlogPosts` collects posts with a loop into an accumulator.
- `LanguageToggle.Toggle` holds the open/mounted component state and the browser side effects (cookie writes, `router.push` navigations) as fields. `ChangeLanguage` navigates as the source does; `CorrectedChangeLanguage` navigates as the Findings table says it should.
- `ProjectsTabs.Tabs` holds the category filter state.

External behaviour is passed in as parameters:

- **Dates.** `new Date(s).getTime()` is a parameter `parse: string -> Option<int>`. `None` stands for `NaN`. ECMAScript's `SortCompare` reads a `NaN` comparator result as 0, so the newest-first order (`Sorting.NewestFirst`) says that no element is strictly newer than one placed before it.
- **URLs.** `new URL(u).origin` is a parameter `origin: string -> Option<string>`. `None` is a thrown `TypeError`.
- **Translations.** next-intl's `t` and `t.raw` are the parameters `t` and `raw`.
- **Locales.** `routing.locales` and `defaultLocale` are parameters. i18n/routing is not part of this model.
- **The clock.** `new Date()` is a parameter `now`. The sitemap calls `new Date()` once per locale's static entries and once per undated post (app/sitemap.ts:35, 64). The model gives all of those calls the same instant.
- **Files.** Directory listings and file contents are input sequences, and MDX imports are a map `Sources`.

JavaScript library behaviour is written out in `Strings` and `Seqs`:

- `split` always yields at least one piece.
- `replace` with a string changes only the first occurrence.
- `slice` clamps negative indices.
- `find` returns the first hit.
- `||` uses truthiness, so an empty string counts as missing; `??` does not.

`app/api/blog/route.ts` repeats `lib/blog.ts` statement for statement (route.ts:18-62 against blog.ts:15-55). `app/sitemap.ts` and `app/robots.ts` carry the same `getBaseUrl`. Each of these is defined once (`Blog`, `SiteBase`) and cited against both files.

## Model

| member | source | states |
|---|---|---|
| LanguageToggle.LangCodes | components/language-toggle.tsx:12-17 | the four locale codes are distinct and each is a single path segment |
| LanguageToggle.ActiveLang | components/language-toggle.tsx:39-43 | before mounting the locale is English; after, it is the language whose code is the first path segment, else English; always one of the four |
| LanguageToggle.SecondSegmentOf | components/language-toggle.tsx:41 | for `/seg` and `/seg/...` the segment looked up is `seg` |
| LanguageToggle.CookieFields | components/language-toggle.tsx:52 | the cookie is exactly `tdx_locale=<code>`, `path=/`, `max-age=31536000` |
| LanguageToggle.NewPathShape | components/language-toggle.tsx:56-59 | the target begins with `/<code>`, is never empty and never ends in `/`, so the fallback to `/<code>` never applies |
| LanguageToggle.NewPathDropsFirstSegment | components/language-toggle.tsx:56-57 | the first segment is always discarded and every later segment is kept in order |
| LanguageToggle.NewPathOfOneSegment | components/language-toggle.tsx:56-59 | from `/en` or `/en/` (any one segment) the target is exactly `/<code>` |
| LanguageToggle.NewPathLosesFirstSegment | components/language-toggle.tsx:54-57 | a first segment that is not a locale is lost too: `/blog/post` becomes `/<code>/post` |
| LanguageToggle.BlogIsNotALocale | components/language-toggle.tsx:12-17 | `blog` is none of the locale codes |
| LanguageToggle.CorrectedNewPathReplacesLocale | components/language-toggle.tsx:55-57 | with a locale first segment the corrected target equals the source's |
| LanguageToggle.CorrectedRestKeepsSegment | components/language-toggle.tsx:55-57 | with a non-locale first segment the corrected kept segments rejoin to that segment followed by the rest of the path |
| LanguageToggle.CorrectedNewPathKeepsSegment | components/language-toggle.tsx:55-57 | with any other first segment the corrected target keeps it: `/<code>/<seg>/<rest>` |
| LanguageToggle.CorrectedNewPathKeepsWholePath | components/language-toggle.tsx:55-57 | `/blog/post` becomes `/<code>/blog/post` |
| LanguageToggle.CorrectedShape | components/language-toggle.tsx:57-59 | the corrected target begins with `/<code>`, is non-empty and has no trailing `/` |
| LanguageToggle.Toggle.constructor | components/language-toggle.tsx:29-32 | menu closed, not mounted, nothing written or navigated |
| LanguageToggle.Toggle.Mount | components/language-toggle.tsx:34-36 | the mount effect sets `mounted` and nothing else |
| LanguageToggle.Toggle.ChangeLanguage | components/language-toggle.tsx:45-61 | the active language only closes the menu; another appends the cookie and one navigation to the as-written target `NewPath`, which begins with `/<code>`, and closes the menu |
| LanguageToggle.Toggle.CorrectedChangeLanguage | components/language-toggle.tsx:45-61 | the same steps with the corrected target of the Findings table: cookie, one navigation to `CorrectedNewPath`, beginning with `/<code>`, menu closed |
| HtmlScan.MatchAtMeaning | lib/blog.ts:29-35 | the scanner yields `c` at `i` exactly when the regular expression matches at `i` capturing `c`: `<tag` up to case, no `>` before the first `>`, a non-empty text without `<`, then `</tag>` up to case; or the meta prefix up to case, then a non-empty value without `"` up to the closing `"` |
| HtmlScan.FirstFromSpec | lib/blog.ts:29-35 | a left-to-right search returns the first position at or after the start that yields, and none when no position in range yields |
| HtmlScan.FirstMatchFromSpec | lib/blog.ts:29-35 | the regex scan returns the leftmost matching position with its capture, and none when no position matches |
| HtmlScan.CaptureIsLeftmost | lib/blog.ts:29-35 | `match(...)?.[1]` is present iff some position matches, and is the leftmost match's capture |
| HtmlScan.CaptureIsFirstRegexMatch | lib/blog.ts:29-35 | `match(...)?.[1]` is present exactly when the regular expression matches somewhere, and is the capture of its leftmost match |
| HtmlScan.CaptureShape | lib/blog.ts:29-35 | every capture is non-empty and free of its terminating character |
| Blog.ExtractPostFields | lib/blog.ts:25-47 | title is the `<title>` text else the slug with `-` turned to spaces; excerpt is exactly the first min(length, 150) characters of the first `<p>` text (else of the file) followed by `...`; date is the meta value else `2025-01-01`; fixed author, no tags, content and locale kept |
| Blog.SlugStripsSuffix | lib/blog.ts:25 | `name.html` gives the slug `name` |
| Blog.SlugKeepsLaterHtml | lib/blog.ts:25 | only the first `.html` is removed: `a.html.html` gives `a.html` |
| Blog.CollectPosts | lib/blog.ts:24-48 | the loop yields one post per file, in order, each extracted from its own file |
| Blog.ListingSpec | lib/blog.ts:19-50 | the sorted listing is a permutation of the posts extracted from the `.html` files, each from one such file, in the model's newest-first order (which the program guarantees only when every date parses, see Left out) |
| Blog.ListedPostsComeFromHtmlFiles | lib/blog.ts:19-24 | every listed post is extracted from one `.html` file of the directory |
| Blog.GetBlogPosts | lib/blog.ts:15-55 | one post per `.html` file, a permutation of the extracted posts, in the model's newest-first order (the program's when every date parses) |
| Sorting.SortNewestFirst | lib/blog.ts:50 | the sort is a permutation of its input |
| Sorting.SortIsNewestFirst | lib/blog.ts:50 | in the model's sorted order no post is strictly newer than one before it |
| Sorting.SortDescendingWhenDated | posts.ts:43-45 | when every date parses the dates are non-increasing |
| BlogApi.QueryGet | app/api/blog/route.ts:67-68 | `searchParams.get` returns the first parameter of that name, or nothing when none has it |
| BlogApi.LocaleParam | app/api/blog/route.ts:68 | a missing or empty `locale` means `en`; otherwise its value; never empty |
| BlogApi.GetBlogPosts | app/api/blog/route.ts:18-62 | the route's listing is the lib/blog.ts listing; every post carries the requested locale |
| BlogApi.Get | app/api/blog/route.ts:65-75 | GET lists the posts of the query's locale |
| Posts.LoadMetadata | posts.ts:23-31 | the locale's MDX metadata when that file exists; otherwise the English file's metadata when it exists; failure exactly when neither exists |
| Posts.LoadAll | posts.ts:36-41 | all posts in directory order with the metadata slug overriding, or failure iff some post has neither file |
| Posts.GetPostsSpec | posts.ts:33-46 | one post per directory, a permutation of the loaded posts in the model's newest-first order (the program's when every date parses); fails only when a post has no MDX file at all |
| Posts.ByCategorySpec | posts.ts:58-60 | exactly the posts carrying the category, each as often, in listing order |
| Posts.PageIsRun | posts.ts:77-82 | from page 1 on a page is the contiguous run of at most `limit` posts at `(page-1)*limit`; the total is the full count |
| Posts.PagesOutsideAreEmpty | posts.ts:77 | a page starting at or past the end, and page 0, are empty |
| Posts.PagesArePrefix | posts.ts:77 | pages 1..k concatenated are the first `k*limit` posts |
| Posts.PagesCoverAll | posts.ts:65-83 | pages 1..ceil(n/limit) concatenated are the whole list |
| Posts.PageElementsFromList | posts.ts:77 | every post on a page is the list's post at the page offset |
| Posts.CategoryPageSpec | posts.ts:85-108 | a category page is a page of that category's posts and its total counts only them |
| SiteBase.Normalize | app/robots.ts:9-10 | a non-empty value without an `http` prefix gets `https://`; others are unchanged |
| SiteBase.NormalizeIdempotent | app/sitemap.ts:11-12 | normalising twice is normalising once |
| SiteBase.GetBaseUrl | app/robots.ts:12-16 | when `new URL` accepts the normalised value (or the fallback when nothing is set) the base is its origin; when it throws, the base is the fallback |
| SiteBase.UnconfiguredUsesFallback | app/sitemap.ts:14-18 | with nothing configured the base is `https://yalmeida.vercel.app` |
| SiteBase.UnparseableUsesFallback | app/sitemap.ts:14-18 | a value that is not a URL gives the fallback; an empty `NEXT_PUBLIC_BASE_URL` hides the later variables |
| SiteBase.BareHostGetsHttps | app/sitemap.ts:11-15 | a bare host name is read as `https://<host>` |
| Sitemap.StaticEntries | app/sitemap.ts:31-51 | two static entries per locale |
| Sitemap.StaticEntriesAt | app/sitemap.ts:31-51 | the home and blog-index entries of locale `i` are at `2i` and `2i+1` |
| Sitemap.HomeEntryShape | app/sitemap.ts:32-43 | the default locale's home is `base/` at priority 1, others are `base/<locale>` at 0.9, weekly, dated now |
| Sitemap.BlogIndexEntryShape | app/sitemap.ts:32-49 | the blog index is `base/blog` or `base/<locale>/blog` at 0.8; the fallback to `/blog` never applies |
| Sitemap.LastModifiedChain | app/sitemap.ts:60-64 | the first parseable of published time, `og:updated_time`, post date, else now: the post date or now both when there is no metadata and when neither metadata date is present and parseable |
| Sitemap.BlogEntries | app/sitemap.ts:53-75 | as many post entries as posts over all locales |
| Sitemap.BlogEntryShape | app/sitemap.ts:56-71 | every post entry is `base<prefix>/blog/<slug>` for a post of one locale, weekly, at 0.7 |
| Sitemap.Entries | app/sitemap.ts:77 | static entries first (`2 * locales`), then post entries; total `2 * locales + posts` |
| Sitemap.EntriesUnderBase | app/sitemap.ts:27-78 | every sitemap URL starts with the base URL |
| Sitemap.AsWrittenFailsWithoutMetadata | app/sitemap.ts:59-62 | as written, one post without `metadata` makes the whole sitemap fail |
| Sitemap.BlogListingBreaksAsWritten | app/sitemap.ts:57-62 | the lib/blog.ts listing of any locale with a post makes the as-written sitemap fail |
| Sitemap.CorrectedAgreesWithAsWritten | app/sitemap.ts:59-64 | where every post has metadata the corrected entries are the as-written ones |
| Robots.RobotsShape | app/robots.ts:19-33 | one rule: agent `*`, allow `/`, disallow exactly `/api`, `/_next`, `/trpc`; sitemap exactly `[host/sitemap.xml]`; host is the base URL |
| Robots.UnconfiguredRobots | app/robots.ts:13-30 | with nothing configured the sitemap is `https://yalmeida.vercel.app/sitemap.xml` |
| Robots.SitemapUnderRobotsHost | app/robots.ts:20-31 | every sitemap URL starts with the robots `host` |
| Projects.GetProjects | lib/projects.ts:30-44 | one project per table entry |
| Projects.GetProjectsFields | lib/projects.ts:30-44 | project `i` has entry `i`'s id; title, description and category are `t(<key>.<field>)`; technologies are the raw array or `[]`; image, github and link are the raw string under `<key>.<field>` when it is one, and absent otherwise |
| Projects.ProjectIds | lib/projects.ts:3-8 | the ids are `1`, `2`, `3`, `4` in order |
| Projects.IdsDistinct | lib/projects.ts:3-8 | the table's ids are distinct |
| Projects.GetProjectByIdSpec | lib/projects.ts:47-50 | the lookup returns the project built from the id's table entry, and nothing iff no entry has the id |
| Projects.KnownIdsResolve | lib/projects.ts:47-50 | exactly the ids `1` to `4` resolve |
| ProjectCards.BadgesSpec | components/sections/featured-projects.tsx:50-60 | the badges are the first `k` technologies in order; `+N` appears iff there are more, and shown plus N is the count |
| ProjectCards.ImageSpec | components/sections/featured-projects.tsx:37 | the project's non-empty image, else `/placeholder.svg` |
| ProjectCards.LinksSpec | components/sections/featured-projects.tsx:65-70 | each external link appears iff its value is non-empty, pointing at that value |
| ProjectCards.DetailsSpec | components/sections/featured-projects.tsx:73 | the detail link is `/projects/<id>`, and distinct ids give distinct links |
| ProjectsTabs.FilteredSpec | components/sections/projects-tabs.client.tsx:32-33 | `all` keeps the list; another filter keeps exactly that category's projects, each as often, in order |
| ProjectsTabs.CardOfSpec | components/sections/projects-tabs.client.tsx:61-115 | the first two technologies, `+N` iff more with N = count - 2, placeholder image, `/projects/<id>`, links only when non-empty |
| ProjectsTabs.Tabs.constructor | components/sections/projects-tabs.client.tsx:30 | the initial filter is `all`, showing one card per project |
| ProjectsTabs.Tabs.Shown | components/sections/projects-tabs.client.tsx:48-52 | one card per filtered project |
| ProjectsTabs.Tabs.SetFilter | components/sections/projects-tabs.client.tsx:40 | the filter becomes the tab value; every card shown is of a project of that category |
| FeaturedProjects.FeaturedCards | components/sections/featured-projects.tsx:33 | one card per project |
| FeaturedProjects.FeaturedCardsSpec | components/sections/featured-projects.tsx:33-77 | card `i` is project `i`'s: first three technologies, `+N` for the rest, placeholder image, detail link, links only when truthy |
| FeaturedProjectCard.CardForSpec | components/FeaturedProjectCard.tsx:18-75 | first three technologies, `+N` iff more than three with N = count - 3, placeholder for an empty image, `/projects/<id>`, links only for non-empty strings |

## Left out

- JSX, layout, styling, the dropdown menu markup and the `isScrolled` header styling: presentation only.
- File-system reads, dynamic MDX `import`, and the `try`/`catch` blocks that log and return `[]` on an I/O error: directory contents and MDX files are inputs. A failed `Promise.all` in posts.ts is `None`.
- `NextResponse.json` responses, the 500 error response of the blog route, and `req.url` parsing: the query string is an input list of name/value pairs.
- Date parsing and the clock (`new Date`) are parameters; `getTime` values are unbounded integers.
- Sorting.SortNewestFirst: ECMAScript leaves the order implementation-defined when the comparator is inconsistent, as with unparseable dates (NaN). The model fixes one stable order, and `NewestFirst` is proved of that order only. The program guarantees it only when every date parses (`Sorting.SortDescendingWhenDated`): on dates `2020`, unparseable, `2021`, every comparison an engine needs to make is against the unparseable date and is NaN. So the engine may keep the input order, which is not newest first.
- Blog.ExtractPostFields: characters are Unicode scalar values, while `substring(0, 150)` counts UTF-16 code units. On text with characters outside the Basic Multilingual Plane (emoji, say) the source's excerpt is shorter than the model's and may end in half a surrogate pair.
- BlogApi.Get: the files are one input list whatever the locale. The route builds the directory from the raw `locale` value (route.ts:19), so a value such as `../x` reads outside `public/blog`. Path resolution is not modelled.
- Posts.LoadAll: `{ slug, ...metadata } as Post` is an unchecked cast. An MDX file without a `metadata` export, or whose metadata lacks `categories`, makes `post.categories.indexOf` throw in `getPostsByCategory` (posts.ts:59). The model's `Metadata` record always carries every field, so these failures are not modelled.
- Posts.PageIsRun: `page` and `limit` are modelled as integers. Fractional or NaN numbers passed to `slice` are not modelled.
- Projects.OptionalString: `t.raw(...) as string | undefined` is an unchecked cast. The model keeps a string and reads any other raw value as absent, whereas a non-string value would flow through at run time.
- Projects.Technologies: `Array.isArray` accepts arrays of any element type. The model's raw arrays hold strings.
- `category: t(...) as ProjectCategory` is not checked either. The category is whatever string the translation returns.
- Sitemap.LastModifiedChain: the corrected version reads `openGraph` as always present in a post's metadata. A metadata object without `openGraph` is not modelled.
- `getSlugs` (posts.ts:16-21) is a directory read. The slugs are an input sequence.
- lib/posts.ts is not part of this model: it is directory reads and imports around the same newest-first sort.
- components/contact-form.tsx, the revalidate route, the blog and project page components, and the HTML renderer are not part of this model.
- Translation lookups (`getTranslations`, `useTranslations`) are function parameters; locale resolution inside next-intl and the middleware's redirects are not modelled.

## Findings

| source | as written | input that shows it | evidently intended | confidence | as-written member | corrected member |
|---|---|---|---|---|---|---|
| components/language-toggle.tsx:56-57 | the destructuring of the split path skips the first segment whatever it is | The middleware's `localePrefix: 'as-needed'` (middleware.ts:15-21) leaves English paths unprefixed. So on `/blog/post`, choosing `fr` navigates to `/fr/post`. | Strip the locale prefix only if there is one (the comment at line 55), giving `/fr/blog/post`. | not executed | LanguageToggle.NewPathLosesFirstSegment | LanguageToggle.CorrectedNewPathKeepsWholePath |
| app/sitemap.ts:61-62 | `post.metadata.publishedTime` on posts from `getBlogPosts` of lib/blog.ts, whose `BlogPost` (lib/blog.ts:4-13) has no `metadata` | Any locale whose blog directory holds one `.html` file. `post.metadata` is undefined, reading `publishedTime` throws a `TypeError`, and `sitemap()` rejects. | Metadata is optional (`post.metadata?.…`), so the date falls through to `post.date`, then to now. | not executed | Sitemap.BlogListingBreaksAsWritten | Sitemap.LastModifiedChain |
