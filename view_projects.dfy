/** Reading a project with its teams and tasks, and listing all projects newest first. */
module ViewProjects {
  import opened Domain
  import opened Storage
  import TeamRepository
  import TasksRepository

  datatype ProjectDetailsDto = ProjectDetailsDto(
    name: Option<string>,
    description: string,
    startDate: DateTime,
    completionDate: Option<DateTime>,
    tasks: map<int, Task>,
    teams: map<int, Team>)

  /**
   * `GetProjectDetailsAsync`: none for an unknown project; otherwise the
   * project's name, its description (empty when it has none), its dates at
   * midnight, and exactly the teams and the tasks of that project.
   */
  function GetProjectDetails(s: Store, projectId: int): (r: Option<ProjectDetailsDto>)
    reads s
    ensures r.None? <==> projectId !in s.projects
    ensures r.Some? ==> r.value.name == s.projects[projectId].name
    ensures r.Some? ==> (r.value.description ==
      if s.projects[projectId].description.Some? then s.projects[projectId].description.value else "")
    ensures r.Some? ==> FromDateTime(r.value.startDate) == s.projects[projectId].startDate && r.value.startDate.timeOfDay == 0
    ensures r.Some? ==> (r.value.completionDate.Some? <==> s.projects[projectId].endDate.Some?)
    ensures r.Some? && r.value.completionDate.Some? ==>
      FromDateTime(r.value.completionDate.value) == s.projects[projectId].endDate.value &&
      r.value.completionDate.value.timeOfDay == 0
    ensures r.Some? ==> forall id :: id in r.value.teams <==> id in s.teams && s.teams[id].projectId == Some(projectId)
    ensures r.Some? ==> forall id :: id in r.value.tasks <==> id in s.tasks && s.tasks[id].projectId == projectId
    ensures r.Some? ==> forall id :: id in r.value.teams ==> r.value.teams[id] == s.teams[id]
    ensures r.Some? ==> forall id :: id in r.value.tasks ==> r.value.tasks[id] == s.tasks[id]
  {
    if projectId !in s.projects then None
    else
      var project := s.projects[projectId];
      var teams := TeamRepository.GetTeamsByProject(s, projectId);
      var tasks := TasksRepository.GetTasksByProject(s, projectId);
      Some(ProjectDetailsDto(
        project.name,
        if project.description.Some? then project.description.value else "",
        AtMidnight(project.startDate),
        if project.endDate.Some? then Some(AtMidnight(project.endDate.value)) else None,
        tasks,
        teams))
  }

  /**
   * The order of the project list: a later start date first, and among
   * projects starting the same day the one scanned first (the smaller key).
   */
  ghost predicate Before(projects: map<int, Project>, a: int, b: int)
    requires a in projects && b in projects
  {
    projects[a].startDate > projects[b].startDate ||
    (projects[a].startDate == projects[b].startDate && a < b)
  }

  ghost predicate InTable(projects: map<int, Project>, ids: seq<int>)
  {
    forall i :: 0 <= i < |ids| ==> ids[i] in projects
  }

  ghost predicate Ordered(projects: map<int, Project>, ids: seq<int>)
    requires InTable(projects, ids)
  {
    forall i, j :: 0 <= i < j < |ids| ==> Before(projects, ids[i], ids[j])
  }

  /**
   * One insertion step of a stable descending sort: `id` goes in front of
   * the first project that does not start later than it.
   */
  function Insert(projects: map<int, Project>, id: int, sorted: seq<int>): (r: seq<int>)
    requires id in projects && InTable(projects, sorted)
    ensures multiset(r) == multiset(sorted) + multiset{id}
    ensures InTable(projects, r)
  {
    if sorted == [] then [id]
    else if projects[id].startDate >= projects[sorted[0]].startDate then [id] + sorted
    else
      assert sorted == [sorted[0]] + sorted[1..];
      [sorted[0]] + Insert(projects, id, sorted[1..])
  }

  /** `OrderByDescending(p => p.StartDate)`: a stable sort of the scanned keys, latest start first. */
  function SortByStartDescending(projects: map<int, Project>, ids: seq<int>): (r: seq<int>)
    requires InTable(projects, ids)
    ensures multiset(r) == multiset(ids)
    ensures InTable(projects, r)
  {
    if ids == [] then []
    else
      assert ids == [ids[0]] + ids[1..];
      Insert(projects, ids[0], SortByStartDescending(projects, ids[1..]))
  }

  /** Inserting a key smaller than every sorted key keeps the list in order. */
  lemma {:induction false} InsertOrdered(projects: map<int, Project>, id: int, sorted: seq<int>)
    requires id in projects && InTable(projects, sorted) && Ordered(projects, sorted)
    requires forall k :: k in sorted ==> id < k
    ensures Ordered(projects, Insert(projects, id, sorted))
  {
    var r := Insert(projects, id, sorted);
    if sorted == [] {
    } else if projects[id].startDate >= projects[sorted[0]].startDate {
      assert sorted[0] in sorted;
      forall j | 1 <= j < |r| ensures Before(projects, r[0], r[j]) {
        assert r[j] == sorted[j - 1];
        assert sorted[j - 1] in sorted;
        if j > 1 {
          assert Before(projects, sorted[0], sorted[j - 1]);
        }
      }
    } else {
      var tail := sorted[1..];
      assert Ordered(projects, tail) by {
        forall i, j | 0 <= i < j < |tail| ensures Before(projects, tail[i], tail[j]) {
          assert tail[i] == sorted[i + 1] && tail[j] == sorted[j + 1];
        }
      }
      forall k | k in tail ensures id < k {
        assert k in sorted;
      }
      InsertOrdered(projects, id, tail);
      var rest := Insert(projects, id, tail);
      assert r == [sorted[0]] + rest;
      forall j | 0 <= j < |rest| ensures Before(projects, sorted[0], rest[j]) {
        assert rest[j] in multiset(rest);
        if rest[j] != id {
          assert rest[j] in multiset(tail);
          var m :| 0 <= m < |tail| && tail[m] == rest[j];
          assert Before(projects, sorted[0], sorted[m + 1]);
        }
      }
    }
  }

  /** The sorted scan of ascending keys is in list order. */
  lemma {:induction false} SortOrdered(projects: map<int, Project>, ids: seq<int>)
    requires InTable(projects, ids)
    requires forall i, j :: 0 <= i < j < |ids| ==> ids[i] < ids[j]
    ensures Ordered(projects, SortByStartDescending(projects, ids))
  {
    if ids != [] {
      var tail := ids[1..];
      SortOrdered(projects, tail);
      var sorted := SortByStartDescending(projects, tail);
      forall k | k in sorted ensures ids[0] < k {
        assert k in multiset(sorted);
        assert k in multiset(tail);
        var m :| 0 <= m < |tail| && tail[m] == k;
        assert ids[m + 1] == k;
      }
      InsertOrdered(projects, ids[0], sorted);
    }
  }

  /**
   * `GetAllProjectsAsync`: every project exactly once, ordered by start
   * date from latest to earliest; projects starting the same day keep the
   * scan order.
   */
  function GetAllProjects(s: Store): (r: seq<int>)
    reads s
    ensures |r| == |s.projects|
    ensures forall id :: id in r <==> id in s.projects
    ensures InTable(s.projects, r) && Ordered(s.projects, r)
    ensures forall i, j :: 0 <= i < j < |r| ==> s.projects[r[i]].startDate >= s.projects[r[j]].startDate
  {
    var scan := Rows(s.projects.Keys);
    var r := SortByStartDescending(s.projects, scan);
    SortOrdered(s.projects, scan);
    assert |r| == |scan| by {
      assert |multiset(r)| == |multiset(scan)|;
    }
    assert forall id :: id in r <==> id in scan by {
      forall id ensures id in r <==> id in scan {
        assert id in r <==> id in multiset(r);
        assert id in scan <==> id in multiset(scan);
      }
    }
    r
  }
}
