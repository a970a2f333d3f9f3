/**
 * The header's language switcher (components/language-toggle.tsx): which locale is active for a
 * path, where choosing another locale navigates to, and the preference cookie it writes.
 */
module LanguageToggle {
  import opened Wrappers
  import opened Strings
  import opened Seqs

  datatype Lang = Lang(code: string, name: string, flag: string)

  /** The switcher's languages, in menu order; the first is the fallback. */
  const LANGS: seq<Lang> := [
    Lang("en", "English", "\U{1F1FA}\U{1F1F8}"),
    Lang("fr", "Fran\U{E7}ais", "\U{1F1EB}\U{1F1F7}"),
    Lang("es", "Espa\U{F1}ol", "\U{1F1EA}\U{1F1F8}"),
    Lang("pt-BR", "Portugu\U{EA}s", "\U{1F1E7}\U{1F1F7}")
  ]

  /** A locale code that can stand as one path segment. */
  predicate IsSegment(code: string) {
    |code| > 0 && '/' !in code && ';' !in code
  }

  predicate IsLangCode(seg: string) {
    exists l :: l in LANGS && l.code == seg
  }

  lemma LangCodes()
    ensures forall l :: l in LANGS ==> IsSegment(l.code)
    ensures forall i, j :: 0 <= i < j < |LANGS| ==> LANGS[i].code != LANGS[j].code
  {
  }

  /** `pathname.split('/')[1]`, which is `undefined` when the path has no `/`. */
  function SecondSegment(pathname: string): Option<string> {
    var parts := Split(pathname, '/');
    if |parts| >= 2 then Some(parts[1]) else None
  }

  /** The active language: the first language before mounting, else the one named by the first segment. */
  function ActiveLang(mounted: bool, pathname: string): (r: Lang)
    ensures r in LANGS
    ensures !mounted ==> r == LANGS[0]
    ensures mounted ==> forall l :: l in LANGS && SecondSegment(pathname) == Some(l.code) ==> r == l
    ensures mounted && (forall l :: l in LANGS ==> SecondSegment(pathname) != Some(l.code)) ==> r == LANGS[0]
  {
    if !mounted then LANGS[0]
    else
      var seg := SecondSegment(pathname);
      var found := Find(LANGS, (l: Lang) => seg == Some(l.code));
      LangCodes();
      found.GetOr(LANGS[0])
  }

  /** The path segments after the one `changeLanguage` drops: `const [, , ...rest] = pathname.split('/')`. */
  function Rest(pathname: string): seq<string> {
    var parts := Split(pathname, '/');
    if |parts| >= 2 then parts[2..] else []
  }

  /** The navigation target as written: the first segment is dropped whatever it is. */
  function NewPath(code: string, pathname: string): string {
    StripTrailing("/" + code + "/" + Join(Rest(pathname), '/'), '/')
  }

  /** The cookie string that records the visitor's choice for one year. */
  function Cookie(code: string): string {
    "tdx_locale=" + code + ";path=/;max-age=31536000"
  }

  /** The cookie carries exactly three attributes: the locale, the path and the lifetime. */
  lemma CookieFields(code: string)
    requires ';' !in code
    ensures Split(Cookie(code), ';') == ["tdx_locale=" + code, "path=/", "max-age=31536000"]
  {
    var parts := ["tdx_locale=" + code, "path=/", "max-age=31536000"];
    assert Join(parts[2..], ';') == "max-age=31536000";
    assert Join(parts[1..], ';') == "path=/" + ";" + "max-age=31536000";
    assert Join(parts, ';') == Cookie(code);
    forall i | 0 <= i < |parts| ensures ';' !in parts[i] {
      if i == 0 {
        assert forall k :: 0 <= k < |parts[0]| ==> parts[0][k] in "tdx_locale=" || parts[0][k] in code;
      }
    }
    SplitJoin(parts, ';');
  }

  /** A stripped string that begins with `/code/` keeps at least `/code`. */
  lemma StripKeepsCode(code: string, tail: string)
    requires |code| > 0 && '/' !in code
    ensures var r := StripTrailing("/" + code + "/" + tail, '/');
      StartsWith(r, "/" + code) && r != "" && r[|r| - 1] != '/'
  {
    var s := "/" + code + "/" + tail;
    var r := StripTrailing(s, '/');
    assert s[|code|] != '/' by {
      assert s[|code|] == code[|code| - 1];
      assert code[|code| - 1] in code;
    }
    assert |r| > |code|;
    assert r[..|code| + 1] == s[..|code| + 1] == "/" + code;
  }

  /** The new path starts with `/code`, is never empty and never ends in `/`, so the `|| '/' + code` fallback never fires. */
  lemma NewPathShape(code: string, pathname: string)
    requires |code| > 0 && '/' !in code
    ensures var r := NewPath(code, pathname);
      StartsWith(r, "/" + code) && r != "" && r[|r| - 1] != '/'
  {
    StripKeepsCode(code, Join(Rest(pathname), '/'));
  }

  lemma {:induction false} SplitsOf(seg: string, tail: string)
    requires '/' !in seg
    ensures Split("/" + seg + "/" + tail, '/') == ["", seg] + Split(tail, '/')
    ensures Split("/" + seg, '/') == ["", seg]
  {
    var inner := seg + ['/'] + tail;
    SplitCons(seg, '/', tail);
    var whole := [] + ['/'] + inner;
    SplitCons([], '/', inner);
    assert whole == "/" + seg + "/" + tail;
    var short := [] + ['/'] + seg;
    SplitCons([], '/', seg);
    SplitNoSep(seg, '/');
    assert short == "/" + seg;
  }

  /** The active-locale lookup reads the segment right after the leading `/`. */
  lemma SecondSegmentOf(seg: string, tail: string)
    requires '/' !in seg
    ensures SecondSegment("/" + seg + "/" + tail) == Some(seg)
    ensures SecondSegment("/" + seg) == Some(seg)
  {
    SplitsOf(seg, tail);
  }

  /** The first segment is always discarded and the rest of the path is kept verbatim. */
  lemma NewPathDropsFirstSegment(code: string, seg: string, tail: string)
    requires '/' !in seg
    ensures NewPath(code, "/" + seg + "/" + tail) == StripTrailing("/" + code + "/" + tail, '/')
  {
    SplitsOf(seg, tail);
    JoinSplit(tail, '/');
  }

  /** From `/seg` or `/seg/`, whatever `seg` is, the new path is just `/code`. */
  lemma NewPathOfOneSegment(code: string, seg: string)
    requires |code| > 0 && '/' !in code && '/' !in seg
    ensures NewPath(code, "/" + seg) == "/" + code
    ensures NewPath(code, "/" + seg + "/") == "/" + code
  {
    SplitsOf(seg, "");
    var s := "/" + code + "/";
    assert Join(Rest("/" + seg), '/') == "";
    assert StripTrailing(s, '/') == StripTrailing(s[..|s| - 1], '/');
    assert s[..|s| - 1] == "/" + code;
    assert code[|code| - 1] in code;
    assert "/" + seg + "/" == "/" + seg + "/" + "";
    NewPathDropsFirstSegment(code, seg, "");
  }

  /** The first segment is dropped even when it is not a locale: `/blog/post` goes to `/fr/post`. */
  lemma NewPathLosesFirstSegment(code: string, seg: string, tail: string)
    requires '/' !in seg && !IsLangCode(seg)
    requires tail != [] && tail[|tail| - 1] != '/'
    ensures NewPath(code, "/" + seg + "/" + tail) == "/" + code + "/" + tail
  {
    NewPathDropsFirstSegment(code, seg, tail);
    var s := "/" + code + "/" + tail;
    assert s[|s| - 1] == tail[|tail| - 1];
  }

  /** `blog`, the segment every unprefixed English post path starts with, is not a locale. */
  lemma BlogIsNotALocale()
    ensures !IsLangCode("blog")
  {
    forall l | l in LANGS ensures l.code != "blog" { }
  }

  /** The segments the corrected switch keeps: all after the leading `/`, less a locale prefix. */
  function CorrectedRest(pathname: string): seq<string> {
    var parts := Split(pathname, '/');
    if |parts| < 2 then [] else if IsLangCode(parts[1]) then parts[2..] else parts[1..]
  }

  /** The target the source's comment describes: the first segment is dropped only when it is a locale. */
  function CorrectedNewPath(code: string, pathname: string): string {
    StripTrailing("/" + code + "/" + Join(CorrectedRest(pathname), '/'), '/')
  }

  /** A locale first segment is replaced, exactly as the source does. */
  lemma CorrectedNewPathReplacesLocale(code: string, seg: string, tail: string)
    requires '/' !in seg && IsLangCode(seg)
    ensures CorrectedNewPath(code, "/" + seg + "/" + tail) == NewPath(code, "/" + seg + "/" + tail)
  {
    SplitsOf(seg, tail);
  }

  /** Any other first segment is kept, with the rest of the path after it. */
  lemma CorrectedRestKeepsSegment(seg: string, tail: string)
    requires '/' !in seg && !IsLangCode(seg)
    ensures Join(CorrectedRest("/" + seg + "/" + tail), '/') == seg + "/" + tail
  {
    SplitsOf(seg, tail);
    var t := Split(tail, '/');
    var parts := Split("/" + seg + "/" + tail, '/');
    assert parts[1] == seg;
    assert CorrectedRest("/" + seg + "/" + tail) == [seg] + t by {
      assert parts[1..] == [seg] + t;
    }
    JoinCons(seg, t, '/');
    JoinSplit(tail, '/');
  }

  lemma CorrectedNewPathKeepsSegment(code: string, seg: string, tail: string)
    requires '/' !in seg && !IsLangCode(seg)
    ensures CorrectedNewPath(code, "/" + seg + "/" + tail) == StripTrailing("/" + code + "/" + seg + "/" + tail, '/')
  {
    var pathname := "/" + seg + "/" + tail;
    var joined := Join(CorrectedRest(pathname), '/');
    CorrectedRestKeepsSegment(seg, tail);
    assert CorrectedNewPath(code, pathname) == StripTrailing("/" + code + "/" + joined, '/');
    PrefixRegroup("/" + code + "/", seg, tail);
  }

  lemma PrefixRegroup(head: string, seg: string, tail: string)
    ensures head + (seg + "/" + tail) == head + seg + "/" + tail
  {
  }

  /** From an unprefixed English path the corrected switch keeps the whole path: `/blog/post` goes to `/fr/blog/post`. */
  lemma CorrectedNewPathKeepsWholePath(code: string, seg: string, tail: string)
    requires '/' !in seg && !IsLangCode(seg)
    requires tail != [] && tail[|tail| - 1] != '/'
    ensures CorrectedNewPath(code, "/" + seg + "/" + tail) == "/" + code + "/" + seg + "/" + tail
  {
    CorrectedNewPathKeepsSegment(code, seg, tail);
    var s := "/" + code + "/" + seg + "/" + tail;
    assert s[|s| - 1] == tail[|tail| - 1];
  }

  /** The switcher's state: the menu, the mount flag, and what it has told the browser to do. */
  class Toggle {
    var pathname: string
    var open: bool
    var mounted: bool
    /** Every string assigned to `document.cookie`, oldest first. */
    var cookieWrites: seq<string>
    /** Every path handed to `router.push`, oldest first. */
    var navigations: seq<string>

    constructor (pathname: string)
      ensures this.pathname == pathname && !open && !mounted
      ensures cookieWrites == [] && navigations == []
    {
      this.pathname := pathname;
      open := false;
      mounted := false;
      cookieWrites := [];
      navigations := [];
    }

    /** The mount effect: from now on the active language follows the path. */
    method Mount()
      modifies this
      ensures mounted
      ensures pathname == old(pathname) && open == old(open)
      ensures cookieWrites == old(cookieWrites) && navigations == old(navigations)
    {
      mounted := true;
    }

    function Current(): Lang
      reads this
    {
      ActiveLang(mounted, pathname)
    }

    /** Choosing a language: the active one only closes the menu; another writes the cookie and navigates. */
    method ChangeLanguage(lang: Lang)
      requires lang in LANGS
      modifies this
      ensures !open
      ensures pathname == old(pathname) && mounted == old(mounted)
      ensures lang.code == old(Current()).code ==>
        cookieWrites == old(cookieWrites) && navigations == old(navigations)
      ensures lang.code != old(Current()).code ==>
        && cookieWrites == old(cookieWrites) + [Cookie(lang.code)]
        && navigations == old(navigations) + [NewPath(lang.code, pathname)]
      ensures forall i :: old(|navigations|) <= i < |navigations| ==>
        StartsWith(navigations[i], "/" + lang.code) && navigations[i][|navigations[i]| - 1] != '/'
    {
      if lang.code == Current().code {
        open := false;
        return;
      }
      cookieWrites := cookieWrites + [Cookie(lang.code)];
      LangCodes();
      var newPath := NewPath(lang.code, pathname);
      NewPathShape(lang.code, pathname);
      var target := if newPath != "" then newPath else "/" + lang.code;
      navigations := navigations + [target];
      open := false;
    }

    /** The switch as its comment describes it: the same steps, navigating to the corrected target. */
    method CorrectedChangeLanguage(lang: Lang)
      requires lang in LANGS
      modifies this
      ensures !open
      ensures pathname == old(pathname) && mounted == old(mounted)
      ensures lang.code == old(Current()).code ==>
        cookieWrites == old(cookieWrites) && navigations == old(navigations)
      ensures lang.code != old(Current()).code ==>
        && cookieWrites == old(cookieWrites) + [Cookie(lang.code)]
        && navigations == old(navigations) + [CorrectedNewPath(lang.code, pathname)]
      ensures forall i :: old(|navigations|) <= i < |navigations| ==>
        StartsWith(navigations[i], "/" + lang.code) && navigations[i][|navigations[i]| - 1] != '/'
    {
      if lang.code == Current().code {
        open := false;
        return;
      }
      cookieWrites := cookieWrites + [Cookie(lang.code)];
      LangCodes();
      var newPath := CorrectedNewPath(lang.code, pathname);
      CorrectedShape(lang.code, pathname);
      var target := if newPath != "" then newPath else "/" + lang.code;
      navigations := navigations + [target];
      open := false;
    }
  }

  /** The corrected target has the same shape as the as-written one for every path. */
  lemma CorrectedShape(code: string, pathname: string)
    requires |code| > 0 && '/' !in code
    ensures var r := CorrectedNewPath(code, pathname);
      StartsWith(r, "/" + code) && r != "" && r[|r| - 1] != '/'
  {
    StripKeepsCode(code, Join(CorrectedRest(pathname), '/'));
  }
}
