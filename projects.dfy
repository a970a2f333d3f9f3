/**
 * The project catalogue of lib/projects.ts: a fixed table of translation keys and ids, each turned
 * into a project by looking its fields up under `<key>.<field>`.
 */
module Projects {
  import opened Wrappers
  import Seqs

  /** What `t.raw` can hand back: a string, an array of strings, or nothing under that key. */
  datatype Raw = RString(s: string) | RArray(items: seq<string>) | RMissing

  datatype Project = Project(id: string, title: string, description: string, image: Option<string>,
                             technologies: seq<string>, github: Option<string>, link: Option<string>,
                             category: string)

  /** `PROJECTS`: translation key and id of every project, in display order. */
  const PROJECTS: seq<(string, string)> :=
    [("door-2-door", "1"), ("tdx", "2"), ("auto-notifier", "3"), ("match2fan", "4")]

  function FieldKey(key: string, field: string): string {
    key + "." + field
  }

  /** `Array.isArray(raw) ? raw : []` */
  function Technologies(raw: Raw): (r: seq<string>)
    ensures raw.RArray? ==> r == raw.items
    ensures !raw.RArray? ==> r == []
  {
    if raw.RArray? then raw.items else []
  }

  /** `t.raw(...) as string | undefined` */
  function OptionalString(raw: Raw): (r: Option<string>)
    ensures raw.RString? <==> r.Some?
    ensures raw.RString? ==> r == Some(raw.s)
  {
    if raw.RString? then Some(raw.s) else None
  }

  function BuildProject(key: string, id: string, t: string -> string, raw: string -> Raw): Project {
    Project(id, t(FieldKey(key, "title")), t(FieldKey(key, "description")), OptionalString(raw(FieldKey(key, "image"))),
            Technologies(raw(FieldKey(key, "technologies"))), OptionalString(raw(FieldKey(key, "github"))),
            OptionalString(raw(FieldKey(key, "link"))), t(FieldKey(key, "category")))
  }

  /** `getProjects`: `PROJECTS.map(...)` under the translations `t` (text) and `raw` (raw values) of one locale. */
  function GetProjects(t: string -> string, raw: string -> Raw): (r: seq<Project>)
    ensures |r| == |PROJECTS|
  {
    seq(|PROJECTS|, i requires 0 <= i < |PROJECTS| => BuildProject(PROJECTS[i].0, PROJECTS[i].1, t, raw))
  }

  /** One project per table entry, in table order, each field read under `<key>.<field>` of that entry. */
  lemma GetProjectsFields(t: string -> string, raw: string -> Raw, i: nat)
    requires i < |PROJECTS|
    ensures var p, key := GetProjects(t, raw)[i], PROJECTS[i].0;
      && p.id == PROJECTS[i].1
      && p.title == t(key + ".title") && p.description == t(key + ".description")
      && p.category == t(key + ".category")
      && (raw(key + ".technologies").RArray? ==> p.technologies == raw(key + ".technologies").items)
      && (!raw(key + ".technologies").RArray? ==> p.technologies == [])
      && (p.image.Some? <==> raw(key + ".image").RString?)
      && (p.github.Some? <==> raw(key + ".github").RString?)
      && (p.link.Some? <==> raw(key + ".link").RString?)
      && (raw(key + ".image").RString? ==> p.image == Some(raw(key + ".image").s))
      && (raw(key + ".github").RString? ==> p.github == Some(raw(key + ".github").s))
      && (raw(key + ".link").RString? ==> p.link == Some(raw(key + ".link").s))
  {
    var key := PROJECTS[i].0;
    assert GetProjects(t, raw)[i] == BuildProject(key, PROJECTS[i].1, t, raw);
    assert FieldKey(key, "title") == key + ".title";
    assert FieldKey(key, "description") == key + ".description";
    assert FieldKey(key, "category") == key + ".category";
    assert FieldKey(key, "technologies") == key + ".technologies";
    assert FieldKey(key, "image") == key + ".image";
    assert FieldKey(key, "github") == key + ".github";
    assert FieldKey(key, "link") == key + ".link";
  }

  /** The ids are `"1"` to `"4"` in order, whatever the translations. */
  lemma ProjectIds(t: string -> string, raw: string -> Raw)
    ensures var ps := GetProjects(t, raw);
      |ps| == 4 && ps[0].id == "1" && ps[1].id == "2" && ps[2].id == "3" && ps[3].id == "4"
  {
  }

  /** The ids of the table are distinct. */
  lemma IdsDistinct()
    ensures forall i, j :: 0 <= i < j < |PROJECTS| ==> PROJECTS[i].1 != PROJECTS[j].1
  {
  }

  /** `getProjectById`: `projects.find(p => p.id === projectId) ?? null` */
  function GetProjectById(projectId: string, t: string -> string, raw: string -> Raw): Option<Project> {
    Seqs.Find(GetProjects(t, raw), (p: Project) => p.id == projectId)
  }

  /** The lookup finds the table entry with that id, and nothing for an id the table does not have. */
  lemma {:induction false} GetProjectByIdSpec(projectId: string, t: string -> string, raw: string -> Raw)
    ensures var r := GetProjectById(projectId, t, raw);
      && (forall i :: 0 <= i < |PROJECTS| && PROJECTS[i].1 == projectId ==>
            r == Some(BuildProject(PROJECTS[i].0, projectId, t, raw)))
      && (r.None? <==> forall i :: 0 <= i < |PROJECTS| ==> PROJECTS[i].1 != projectId)
  {
    var ps := GetProjects(t, raw);
    var r := GetProjectById(projectId, t, raw);
    IdsDistinct();
    forall i | 0 <= i < |PROJECTS| && PROJECTS[i].1 == projectId
      ensures r == Some(BuildProject(PROJECTS[i].0, projectId, t, raw))
    {
      assert ps[i].id == projectId;
      var k :| 0 <= k < |ps| && ps[k] == r.value && forall m :: 0 <= m < k ==> ps[m].id != projectId;
      assert ps[k].id == projectId;
      assert k == i;
    }
    if r.Some? {
      var k :| 0 <= k < |ps| && ps[k] == r.value && forall m :: 0 <= m < k ==> ps[m].id != projectId;
      assert PROJECTS[k].1 == projectId;
    }
  }

  /** Each of the ids `"1"` to `"4"` resolves to a project; any other id to none. */
  lemma KnownIdsResolve(projectId: string, t: string -> string, raw: string -> Raw)
    ensures GetProjectById(projectId, t, raw).Some? <==> projectId in ["1", "2", "3", "4"]
  {
    GetProjectByIdSpec(projectId, t, raw);
    if projectId in ["1", "2", "3", "4"] {
      var i :| 0 <= i < 4 && ["1", "2", "3", "4"][i] == projectId;
      assert PROJECTS[i].1 == projectId;
    }
  }
}
