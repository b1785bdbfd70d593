/** The roadmap editor of components/projects/RoadmapBuilderModal.tsx: a working list of
    milestones that opens as the project's roadmap and is edited by appending, removing
    and changing one field of a milestone. */
module RoadmapBuilder {
  import opened Common
  import opened Records

  /** The roadmap editor's working list when it opens: `project.roadmap || []`. */
  function Open(project: Project): (r: seq<Milestone>)
    ensures project.roadmap.Some? ==> r == project.roadmap.value
    ensures project.roadmap.None? ==> r == []
  {
    project.roadmap.GetOr([])
  }

  /** `handleAddMilestone`; the dates are the day of `now` and a week later, as
      `YYYY-MM-DD`. */
  function AddMilestone(roadmap: seq<Milestone>, id: string, startDate: string, endDate: string): (r: seq<Milestone>)
    ensures |r| == |roadmap| + 1 && r[..|roadmap|] == roadmap
    ensures r[|roadmap|] == Milestone(id, "New Milestone", "", startDate, endDate, MilestoneStatus.Pending)
  {
    roadmap + [Milestone(id, "New Milestone", "", startDate, endDate, MilestoneStatus.Pending)]
  }

  function IdIsNot(id: string): Milestone -> bool {
    (m: Milestone) => m.id != id
  }

  /** `handleRemoveMilestone`: `prev.filter(ms => ms.id !== id)` */
  function RemoveMilestone(roadmap: seq<Milestone>, id: string): (r: seq<Milestone>)
    ensures forall m :: m in r <==> m in roadmap && m.id != id
  {
    Filter(roadmap, IdIsNot(id))
  }

  /** Removing a milestone just added with a fresh id gives back the list as it was. */
  lemma RemoveUndoesAdd(roadmap: seq<Milestone>, id: string, startDate: string, endDate: string)
    requires forall k :: 0 <= k < |roadmap| ==> roadmap[k].id != id
    ensures RemoveMilestone(AddMilestone(roadmap, id, startDate, endDate), id) == roadmap
  {
    var m := Milestone(id, "New Milestone", "", startDate, endDate, MilestoneStatus.Pending);
    FilterConcat(roadmap, [m], IdIsNot(id));
    FilterAll(roadmap, IdIsNot(id));
    assert Filter([m], IdIsNot(id)) == [];
  }

  /** Removing keeps every other milestone as often as it was there. */
  lemma RemoveKeepsOthers(roadmap: seq<Milestone>, id: string, m: Milestone)
    requires m.id != id
    ensures multiset(RemoveMilestone(roadmap, id))[m] == multiset(roadmap)[m]
  {
    FilterCount(roadmap, IdIsNot(id), m);
  }

  /** `handleChange(id, field, value)`: the field and the value the editor writes. The
      status select only offers the milestone statuses. */
  datatype MilestoneEdit =
    | Name(name: string)
    | Status(status: MilestoneStatus)
    | Description(description: string)
    | StartDate(startDate: string)
    | EndDate(endDate: string)

  /** `{ ...ms, [field]: value }` */
  function ApplyEdit(m: Milestone, e: MilestoneEdit): Milestone {
    match e
    case Name(v) => m.(name := v)
    case Status(v) => m.(status := v)
    case Description(v) => m.(description := v)
    case StartDate(v) => m.(startDate := v)
    case EndDate(v) => m.(endDate := v)
  }

  /** `handleChange`: `prev.map(ms => ms.id === id ? { ...ms, [field]: value } : ms)` */
  function ChangeMilestone(roadmap: seq<Milestone>, id: string, e: MilestoneEdit): (r: seq<Milestone>)
    ensures |r| == |roadmap|
    ensures forall k :: 0 <= k < |r| ==> r[k].id == roadmap[k].id
    ensures forall k :: 0 <= k < |r| && roadmap[k].id != id ==> r[k] == roadmap[k]
    ensures forall k :: 0 <= k < |r| && roadmap[k].id == id ==> r[k] == ApplyEdit(roadmap[k], e)
  {
    seq(|roadmap|, k requires 0 <= k < |roadmap| =>
      if roadmap[k].id == id then ApplyEdit(roadmap[k], e) else roadmap[k])
  }

  /** An edit changes only its own field: the new value is there and every other field
      keeps its value. */
  lemma EditChangesOneField(m: Milestone, e: MilestoneEdit)
    ensures var n := ApplyEdit(m, e);
      n.id == m.id &&
      (if e.Name? then n.name == e.name else n.name == m.name) &&
      (if e.Status? then n.status == e.status else n.status == m.status) &&
      (if e.Description? then n.description == e.description else n.description == m.description) &&
      (if e.StartDate? then n.startDate == e.startDate else n.startDate == m.startDate) &&
      (if e.EndDate? then n.endDate == e.endDate else n.endDate == m.endDate)
  {
  }

  /** `formatDateForInput`: the date part of an ISO time, `''` for no date. */
  function FormatDateForInput(isoDate: string): (r: string)
    ensures isoDate == "" ==> r == ""
    ensures StartsWith(isoDate, r) && 'T' !in r
    ensures r == isoDate || isoDate[|r|] == 'T'
  {
    if isoDate == "" then "" else BeforeFirst(isoDate, 'T')
  }

  /** The date part of `YYYY-MM-DD` followed by a time is `YYYY-MM-DD`, and a bare date is
      shown unchanged. */
  lemma FormatDateOfIso(date: string, time: string)
    requires 'T' !in date
    ensures FormatDateForInput(date + "T" + time) == date
    ensures FormatDateForInput(date) == date
  {
    var r := FormatDateForInput(date + "T" + time);
    var s := date + "T" + time;
    assert s[|date|] == 'T' && 'T' in s;
    forall i | 0 <= i < |date| ensures s[i] != 'T' {
      assert s[i] == date[i];
    }
    assert s[..|date|] == date;
  }
}
