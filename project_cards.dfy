/**
 * The project card the three project views render alike: an image with a placeholder fallback,
 * the first `k` technologies as badges plus a `+N` badge for the rest, optional GitHub and site
 * links, and a link to the project's detail page.
 */
module ProjectCards {
  import opened Wrappers
  import opened Strings
  import Seqs

  const PLACEHOLDER := "/placeholder.svg"
  const DETAILS_PREFIX := "/projects/"

  /** The fields a card reads of a project; an absent optional field is `None`. */
  datatype CardInput = CardInput(id: string, title: string, description: string, image: Option<string>,
                                 technologies: seq<string>, github: Option<string>, link: Option<string>)

  /** What a card shows; `overflow` is the number on the `+N` badge, when there is one. */
  datatype CardView = CardView(imageSrc: string, title: string, description: string, badges: seq<string>,
                               overflow: Option<nat>, github: Option<string>, link: Option<string>, detailsHref: string)

  /** JavaScript truthiness of an optional string: present and not empty. */
  predicate Truthy(v: Option<string>) {
    v.Some? && v.value != ""
  }

  /** `value || fallback` */
  function OrFallback(v: Option<string>, fallback: string): string {
    if Truthy(v) then v.value else fallback
  }

  /** `{value && <link/>}`: the link is rendered only for a truthy value. */
  function WhenTruthy(v: Option<string>): Option<string> {
    if Truthy(v) then v else None
  }

  /** `technologies.slice(0, k)` then `technologies.length > k && +{technologies.length - k}`. */
  function Card(p: CardInput, k: nat): CardView {
    var n := |p.technologies|;
    CardView(OrFallback(p.image, PLACEHOLDER), p.title, p.description, Seqs.JsSlice(p.technologies, 0, k),
             if n > k then Some(n - k) else None,
             WhenTruthy(p.github), WhenTruthy(p.link), DETAILS_PREFIX + p.id)
  }

  /** The badges are the first `k` technologies in order, and the `+N` badge accounts for exactly the rest. */
  lemma BadgesSpec(p: CardInput, k: nat)
    ensures var c, n := Card(p, k), |p.technologies|;
      && |c.badges| == (if n < k then n else k)
      && c.badges == p.technologies[..|c.badges|]
      && (c.overflow.Some? <==> n > k)
      && (c.overflow.Some? ==> c.overflow.value > 0)
      && |c.badges| + c.overflow.GetOr(0) == n
  {
  }

  /** The image is the project's own when it has a non-empty one, the placeholder otherwise. */
  lemma ImageSpec(p: CardInput, k: nat)
    ensures Truthy(p.image) ==> Card(p, k).imageSrc == p.image.value
    ensures !Truthy(p.image) ==> Card(p, k).imageSrc == PLACEHOLDER
    ensures Card(p, k).imageSrc != ""
  {
  }

  /** Each external link is shown exactly when its value is non-empty, and then points at that value. */
  lemma LinksSpec(p: CardInput, k: nat)
    ensures Card(p, k).github.Some? <==> Truthy(p.github)
    ensures Card(p, k).github.Some? ==> Card(p, k).github == p.github
    ensures Card(p, k).link.Some? <==> Truthy(p.link)
    ensures Card(p, k).link.Some? ==> Card(p, k).link == p.link
  {
  }

  /** The detail link is `/projects/<id>`, and distinct ids give distinct links. */
  lemma DetailsSpec(p: CardInput, q: CardInput, k: nat)
    ensures StartsWith(Card(p, k).detailsHref, "/projects/")
    ensures Card(p, k).detailsHref[|DETAILS_PREFIX|..] == p.id
    ensures p.id != q.id ==> Card(p, k).detailsHref != Card(q, k).detailsHref
  {
    var a, b := Card(p, k).detailsHref, Card(q, k).detailsHref;
    assert a[..|DETAILS_PREFIX|] == DETAILS_PREFIX;
    assert a[|DETAILS_PREFIX|..] == p.id;
    assert b[|DETAILS_PREFIX|..] == q.id;
  }
}
