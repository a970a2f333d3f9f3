/**
 * The tabbed project list of components/sections/projects-tabs.client.tsx: a category filter held
 * as component state, and two-badge cards for the projects it lets through.
 */
module ProjectsTabs {
  import opened Wrappers
  import Seqs
  import opened Projects
  import ProjectCards

  const ALL := "all"
  const BADGES: nat := 2

  /** `filter === "all" ? projects : projects.filter(p => p.category === filter)` */
  function Filtered(projects: seq<Project>, filter: string): seq<Project> {
    if filter == ALL then projects else Seqs.Filter(projects, (p: Project) => p.category == filter)
  }

  /** "all" keeps the list; any other filter keeps exactly the projects of that category, each as often and in the same order. */
  lemma FilteredSpec(projects: seq<Project>, filter: string)
    ensures filter == ALL ==> Filtered(projects, filter) == projects
    ensures filter != ALL ==> forall p :: p in Filtered(projects, filter) <==> p in projects && p.category == filter
    ensures filter != ALL ==>
      forall p :: multiset(Filtered(projects, filter))[p] == (if p.category == filter then multiset(projects)[p] else 0)
    ensures Seqs.IsSubsequence(Filtered(projects, filter), projects)
  {
    var r := Filtered(projects, filter);
    if filter != ALL {
      forall p ensures p in r <==> p in projects && p.category == filter {
        assert p in r <==> multiset(r)[p] > 0;
        assert p in projects <==> multiset(projects)[p] > 0;
      }
    } else {
      SubsequenceRefl(projects);
    }
  }

  lemma {:induction false} SubsequenceRefl(s: seq<Project>)
    ensures Seqs.IsSubsequence(s, s)
  {
    if s != [] {
      SubsequenceRefl(s[1..]);
    }
  }

  function CardInputOf(p: Project): ProjectCards.CardInput {
    ProjectCards.CardInput(p.id, p.title, p.description, p.image, p.technologies, p.github, p.link)
  }

  /** `ProjectCard`: the shared card with two badges. */
  function CardOf(p: Project): ProjectCards.CardView {
    ProjectCards.Card(CardInputOf(p), BADGES)
  }

  /** At most the first two technologies as badges, `+N` for the rest, the placeholder for a missing or empty image, and the detail link. */
  lemma CardOfSpec(p: Project)
    ensures var c, n := CardOf(p), |p.technologies|;
      && c.badges == p.technologies[..if n < 2 then n else 2]
      && (c.overflow.Some? <==> n > 2)
      && (n > 2 ==> c.overflow == Some(n - 2))
      && (c.imageSrc == if ProjectCards.Truthy(p.image) then p.image.value else "/placeholder.svg")
      && c.detailsHref == "/projects/" + p.id
      && (c.github.Some? <==> ProjectCards.Truthy(p.github))
      && (c.link.Some? <==> ProjectCards.Truthy(p.link))
  {
    ProjectCards.BadgesSpec(CardInputOf(p), BADGES);
    ProjectCards.ImageSpec(CardInputOf(p), BADGES);
    ProjectCards.LinksSpec(CardInputOf(p), BADGES);
  }

  /** The component: the projects it was given and the `filter` state, first `"all"`, replaced by `setFilter`. */
  class Tabs {
    const projects: seq<Project>
    var filter: string

    constructor(projects: seq<Project>)
      ensures this.projects == projects && filter == ALL
      ensures Shown() == seq(|projects|, i requires 0 <= i < |projects| => CardOf(projects[i]))
    {
      this.projects := projects;
      filter := ALL;
    }

    /** The cards on screen: one per filtered project, in order. */
    function Shown(): (r: seq<ProjectCards.CardView>)
      reads this
      ensures |r| == |Filtered(projects, filter)|
    {
      var fs := Filtered(projects, filter);
      seq(|fs|, i requires 0 <= i < |fs| => CardOf(fs[i]))
    }

    /** `onValueChange={(v) => setFilter(v)}` */
    method SetFilter(v: string)
      modifies this
      ensures filter == v
      ensures v == ALL ==> |Shown()| == |projects|
      ensures forall c :: c in Shown() ==> exists p :: p in projects && (v != ALL ==> p.category == v) && c == CardOf(p)
    {
      filter := v;
      FilteredSpec(projects, v);
      forall c | c in Shown()
        ensures exists p :: p in projects && (v != ALL ==> p.category == v) && c == CardOf(p)
      {
        var fs := Filtered(projects, filter);
        var i :| 0 <= i < |fs| && Shown()[i] == c;
        assert fs[i] in fs;
      }
    }
  }
}
