/**
 * The three regular expressions the blog listing applies to a post's HTML, as leftmost-match
 * scanners. `/<tag[^>]*>([^<]+)<\/tag>/i` and `/prefix([^"]+)"/i` have at most one match at each
 * start position: `[^>]*` must stop at the first `>`, `[^<]+` at the first `<`, `[^"]+` at the first `"`.
 */
module HtmlScan {
  import opened Wrappers
  import opened Strings

  datatype Pattern =
    | TagText(tag: string)        // /<tag[^>]*>([^<]+)<\/tag>/i, capturing the text
    | QuotedValue(prefix: string) // /prefix([^"]+)"/i, capturing the value

  /** `/<title[^>]*>([^<]+)<\/title>/i` */
  const TITLE: Pattern := TagText("title")
  /** `/<p[^>]*>([^<]+)<\/p>/i` */
  const PARAGRAPH: Pattern := TagText("p")
  /** `/<meta name="date" content="([^"]+)"/i` */
  const DATE_META: Pattern := QuotedValue("<meta name=\"date\" content=\"")

  /** The captured group of a match of `p` that starts exactly at `i`, if there is one. */
  function MatchAt(p: Pattern, s: string, i: nat): (r: Option<string>)
    ensures r.Some? ==> i < |s| && |r.value| > 0
    ensures r.Some? && p.TagText? ==> '<' !in r.value
    ensures r.Some? && p.QuotedValue? ==> '"' !in r.value
  {
    match p
    case TagText(tag) =>
      var open := "<" + tag;
      if !OccursAtIgnoreCase(s, open, i) then None
      else
        match CharIndexFrom(s, '>', i + |open|) {
          case None => None
          case Some(j) =>
            match CharIndexFrom(s, '<', j + 1) {
              case None => None
              case Some(k) =>
                if j + 1 < k && OccursAtIgnoreCase(s, "</" + tag + ">", k) then
                  Some(s[j + 1..k])
                else None
            }
        }
    case QuotedValue(prefix) =>
      if !OccursAtIgnoreCase(s, prefix, i) then None
      else
        var from := i + |prefix|;
        match CharIndexFrom(s, '"', from) {
          case None => None
          case Some(k) =>
            if from < k then
              Some(s[from..k])
            else None
        }
  }

  /**
   * `/<tag[^>]*>([^<]+)<\/tag>/i` matches at `i`, `j` being its `>` and `k` the start of `</tag>`:
   * `<tag` up to case, no `>` before `j`, a non-empty text without `<`, then `</tag>` up to case.
   */
  predicate TagSpan(tag: string, s: string, i: nat, j: nat, k: nat) {
    && OccursAtIgnoreCase(s, "<" + tag, i)
    && i + |tag| + 1 <= j < k <= |s| && j + 1 < k && s[j] == '>'
    && (forall m :: i + |tag| + 1 <= m < j ==> s[m] != '>')
    && (forall m :: j + 1 <= m < k ==> s[m] != '<')
    && OccursAtIgnoreCase(s, "</" + tag + ">", k)
  }

  /** `/prefix([^"]+)"/i` matches at `i`, `k` being its closing quote. */
  predicate QuotedSpan(prefix: string, s: string, i: nat, k: nat) {
    && OccursAtIgnoreCase(s, prefix, i)
    && i + |prefix| < k < |s| && s[k] == '"'
    && (forall m :: i + |prefix| <= m < k ==> s[m] != '"')
  }

  /** The regular expression `p` matches at `i` with `c` as its captured group. */
  ghost predicate RegexMatch(p: Pattern, s: string, i: nat, c: string) {
    match p
    case TagText(tag) => exists j: nat, k: nat :: TagSpan(tag, s, i, j, k) && c == s[j + 1..k]
    case QuotedValue(prefix) => exists k: nat :: QuotedSpan(prefix, s, i, k) && c == s[i + |prefix|..k]
  }

  /** Only `<` itself lower-cases to `<`. */
  lemma LowerIsAngle(c: char)
    requires LowerAscii(c) == '<'
    ensures c == '<'
  {
  }

  /** A scanner match is a regular-expression match, its `>` and `<` found by the two searches. */
  lemma TagMatchSound(tag: string, s: string, i: nat)
    requires MatchAt(TagText(tag), s, i).Some?
    ensures var open := "<" + tag;
      var j := CharIndexFrom(s, '>', i + |open|).value;
      var k := CharIndexFrom(s, '<', j + 1).value;
      TagSpan(tag, s, i, j, k) && MatchAt(TagText(tag), s, i) == Some(s[j + 1..k])
  {
  }

  /** A regular-expression match is found by the scanner, with the same capture. */
  lemma TagMatchComplete(tag: string, s: string, i: nat, j: nat, k: nat)
    requires TagSpan(tag, s, i, j, k)
    ensures MatchAt(TagText(tag), s, i) == Some(s[j + 1..k])
  {
    var open := "<" + tag;
    var close := "</" + tag + ">";
    assert CharIndexFrom(s, '>', i + |open|) == Some(j);
    assert s[k..k + |close|][0] == s[k];
    LowerIsAngle(s[k]);
    assert CharIndexFrom(s, '<', j + 1) == Some(k);
  }

  lemma TagMatchAtMeaning(tag: string, s: string, i: nat, c: string)
    ensures MatchAt(TagText(tag), s, i) == Some(c) <==> RegexMatch(TagText(tag), s, i, c)
  {
    if MatchAt(TagText(tag), s, i) == Some(c) {
      TagMatchSound(tag, s, i);
    }
    if RegexMatch(TagText(tag), s, i, c) {
      var j: nat, k: nat :| TagSpan(tag, s, i, j, k) && c == s[j + 1..k];
      TagMatchComplete(tag, s, i, j, k);
    }
  }

  lemma QuotedMatchAtMeaning(prefix: string, s: string, i: nat, c: string)
    ensures MatchAt(QuotedValue(prefix), s, i) == Some(c) <==> RegexMatch(QuotedValue(prefix), s, i, c)
  {
    if MatchAt(QuotedValue(prefix), s, i) == Some(c) {
      var k := CharIndexFrom(s, '"', i + |prefix|).value;
      assert QuotedSpan(prefix, s, i, k) && c == s[i + |prefix|..k];
    }
    if RegexMatch(QuotedValue(prefix), s, i, c) {
      var k: nat :| QuotedSpan(prefix, s, i, k) && c == s[i + |prefix|..k];
      assert CharIndexFrom(s, '"', i + |prefix|) == Some(k);
    }
  }

  /** The scanner at `i` yields `c` exactly when the regular expression matches at `i` capturing `c`. */
  lemma MatchAtMeaning(p: Pattern, s: string, i: nat, c: string)
    ensures MatchAt(p, s, i) == Some(c) <==> RegexMatch(p, s, i, c)
  {
    match p
    case TagText(tag) => TagMatchAtMeaning(tag, s, i, c);
    case QuotedValue(prefix) => QuotedMatchAtMeaning(prefix, s, i, c);
  }

  /** The first position in `from..n` where `m` yields a value, with that value. */
  function FirstFrom<T>(m: nat -> Option<T>, from: nat, n: nat): Option<(nat, T)>
    requires from <= n
    decreases n - from
  {
    if from == n then None
    else
      match m(from) {
        case Some(c) => Some((from, c))
        case None => FirstFrom(m, from + 1, n)
      }
  }

  /** The scan stops at the first position that yields, and finds nothing only when none does. */
  lemma {:induction false} FirstFromSpec<T>(m: nat -> Option<T>, from: nat, n: nat)
    requires from <= n
    ensures var r := FirstFrom(m, from, n);
      && (r.Some? ==> from <= r.value.0 < n && m(r.value.0) == Some(r.value.1))
      && (r.Some? ==> forall k: nat :: from <= k < r.value.0 ==> m(k).None?)
      && (r.None? ==> forall k: nat :: from <= k < n ==> m(k).None?)
    decreases n - from
  {
    if from < n && m(from).None? {
      FirstFromSpec(m, from + 1, n);
    }
  }

  /** The leftmost match at or after `from`: its start and its capture. */
  function FirstMatchFrom(p: Pattern, s: string, from: nat): Option<(nat, string)>
    requires from <= |s|
  {
    FirstFrom((i: nat) => MatchAt(p, s, i), from, |s|)
  }

  /** The leftmost match is found, and nothing is found only when no position at or after `from` matches. */
  lemma FirstMatchFromSpec(p: Pattern, s: string, from: nat)
    requires from <= |s|
    ensures var r := FirstMatchFrom(p, s, from);
      && (r.Some? ==> from <= r.value.0 < |s| && MatchAt(p, s, r.value.0) == Some(r.value.1))
      && (r.Some? ==> forall k: nat :: from <= k < r.value.0 ==> MatchAt(p, s, k).None?)
      && (r.None? ==> forall k: nat :: from <= k <= |s| ==> MatchAt(p, s, k).None?)
  {
    var m := (i: nat) => MatchAt(p, s, i);
    FirstFromSpec(m, from, |s|);
    assert forall k: nat :: m(k) == MatchAt(p, s, k);
  }

  /** `s.match(p)?.[1]`: the capture of the leftmost match. */
  function Capture(p: Pattern, s: string): Option<string> {
    match FirstMatchFrom(p, s, 0)
    case None => None
    case Some((i, c)) => Some(c)
  }

  /** The capture is present exactly when some position matches, and it is the leftmost match's. */
  lemma CaptureIsLeftmost(p: Pattern, s: string)
    ensures Capture(p, s).Some? <==> exists i :: 0 <= i <= |s| && MatchAt(p, s, i).Some?
    ensures Capture(p, s).Some? ==>
      exists i :: 0 <= i <= |s| && MatchAt(p, s, i) == Capture(p, s) && (forall k :: 0 <= k < i ==> MatchAt(p, s, k).None?)
  {
    FirstMatchFromSpec(p, s, 0);
    var r := FirstMatchFrom(p, s, 0);
    if r.Some? {
      assert MatchAt(p, s, r.value.0).Some?;
    }
  }

  /** `s.match(p)?.[1]` is present exactly when the regular expression matches, and is the capture of its leftmost match. */
  lemma CaptureIsFirstRegexMatch(p: Pattern, s: string)
    ensures Capture(p, s).Some? <==> exists i: nat, c :: i <= |s| && RegexMatch(p, s, i, c)
    ensures Capture(p, s).Some? ==>
      exists i: nat :: i <= |s| && RegexMatch(p, s, i, Capture(p, s).value)
        && forall k: nat, d :: k < i ==> !RegexMatch(p, s, k, d)
  {
    FirstMatchFromSpec(p, s, 0);
    var r := FirstMatchFrom(p, s, 0);
    if r.Some? {
      var i, c := r.value.0, r.value.1;
      MatchAtMeaning(p, s, i, c);
      forall k: nat, d | k < i ensures !RegexMatch(p, s, k, d) {
        MatchAtMeaning(p, s, k, d);
      }
    } else {
      forall i: nat, c | i <= |s| ensures !RegexMatch(p, s, i, c) {
        MatchAtMeaning(p, s, i, c);
      }
    }
  }

  /** Whatever a capture is, it is non-empty and free of the character that ends it. */
  lemma CaptureShape(p: Pattern, s: string)
    ensures Capture(p, s).Some? ==> |Capture(p, s).value| > 0
    ensures Capture(p, s).Some? && p.TagText? ==> '<' !in Capture(p, s).value
    ensures Capture(p, s).Some? && p.QuotedValue? ==> '"' !in Capture(p, s).value
  {
    FirstMatchFromSpec(p, s, 0);
  }
}
