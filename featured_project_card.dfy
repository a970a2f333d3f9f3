/**
 * The stand-alone card of components/FeaturedProjectCard.tsx. Its project record holds plain
 * strings, so an image or link is missing exactly when it is the empty string.
 */
module FeaturedProjectCard {
  import opened Wrappers
  import ProjectCards

  const BADGES: nat := 3

  datatype CardProject = CardProject(id: string, title: string, description: string, image: string,
                                     technologies: seq<string>, github: string, link: string)

  function CardFor(p: CardProject): ProjectCards.CardView {
    ProjectCards.Card(ProjectCards.CardInput(p.id, p.title, p.description, Some(p.image), p.technologies,
                                             Some(p.github), Some(p.link)), BADGES)
  }

  /** The first three technologies, `+N` for the rest, the placeholder for an empty image, links only for non-empty strings. */
  lemma CardForSpec(p: CardProject)
    ensures var c, n := CardFor(p), |p.technologies|;
      && c.badges == p.technologies[..if n < 3 then n else 3]
      && (c.overflow.Some? <==> n > 3)
      && (n > 3 ==> c.overflow == Some(n - 3))
      && c.imageSrc == (if p.image != "" then p.image else "/placeholder.svg")
      && c.detailsHref == "/projects/" + p.id
      && (c.github == if p.github != "" then Some(p.github) else None)
      && (c.link == if p.link != "" then Some(p.link) else None)
  {
    var input := ProjectCards.CardInput(p.id, p.title, p.description, Some(p.image), p.technologies,
                                        Some(p.github), Some(p.link));
    ProjectCards.BadgesSpec(input, BADGES);
    ProjectCards.ImageSpec(input, BADGES);
    ProjectCards.LinksSpec(input, BADGES);
  }
}
