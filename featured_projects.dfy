/** The featured-projects grid of components/sections/featured-projects.tsx: one three-badge card per project. */
module FeaturedProjects {
  import opened Wrappers
  import ProjectCards

  const BADGES: nat := 3

  /** The grid's own project record: no category, optional image and links. */
  datatype Featured = Featured(id: string, title: string, description: string, image: Option<string>,
                               technologies: seq<string>, github: Option<string>, link: Option<string>)

  function CardInputOf(p: Featured): ProjectCards.CardInput {
    ProjectCards.CardInput(p.id, p.title, p.description, p.image, p.technologies, p.github, p.link)
  }

  /** `projects.map(project => <Card .../>)` */
  function FeaturedCards(projects: seq<Featured>): (r: seq<ProjectCards.CardView>)
    ensures |r| == |projects|
  {
    seq(|projects|, i requires 0 <= i < |projects| => ProjectCards.Card(CardInputOf(projects[i]), BADGES))
  }

  /** Card `i` is project `i`'s: its title, its first three technologies, `+N` with N the rest, placeholder and links as the fields allow. */
  lemma FeaturedCardsSpec(projects: seq<Featured>, i: nat)
    requires i < |projects|
    ensures var c, p := FeaturedCards(projects)[i], projects[i];
      var n := |p.technologies|;
      && c.title == p.title && c.description == p.description
      && c.badges == p.technologies[..if n < 3 then n else 3]
      && (c.overflow.Some? <==> n > 3)
      && |c.badges| + c.overflow.GetOr(0) == n
      && (c.imageSrc == if ProjectCards.Truthy(p.image) then p.image.value else "/placeholder.svg")
      && c.detailsHref == "/projects/" + p.id
      && (c.github.Some? <==> ProjectCards.Truthy(p.github))
      && (c.link.Some? <==> ProjectCards.Truthy(p.link))
  {
    var p := projects[i];
    ProjectCards.BadgesSpec(CardInputOf(p), BADGES);
    ProjectCards.ImageSpec(CardInputOf(p), BADGES);
    ProjectCards.LinksSpec(CardInputOf(p), BADGES);
  }
}
