/** The schedule record types of a project and the shallow shape check that
    guards them when a schedule is read back from storage as untyped JSON. */
module ProjectSchedule {
  import opened Wrappers

  /** The JSON value type of the database layer. An object entry may hold
      `undefined`, which is modelled as `None`. */
  datatype Json =
    | JString(s: string)
    | JNumber(n: real)
    | JBool(b: bool)
    | JNull
    | JObject(entries: map<string, Option<Json>>)
    | JArray(items: seq<Json>)

  /** Progress status of a milestone or a department. */
  datatype Status = Planejado | EmAndamento | Concluido

  datatype ScheduleDepartment = ScheduleDepartment(
    id: string, name: string, lead: Option<string>, status: Option<Status>)

  datatype ScheduleMilestone = ScheduleMilestone(
    id: string, title: string, dueDate: string, owner: Option<string>, status: Option<Status>)

  datatype ScheduleScene = ScheduleScene(
    id: string, scene: string, location: string, shootDate: string, department: Option<string>)

  datatype Schedule = Schedule(
    scenes: seq<ScheduleScene>,
    milestones: seq<ScheduleMilestone>,
    departments: seq<ScheduleDepartment>)

  /** The three entries a stored schedule must carry. */
  const ScheduleKeys: set<string> := {"scenes", "milestones", "departments"}

  /** `typeof data === 'object' && data !== null`: arrays are objects here too. */
  predicate IsNonNullObject(data: Json)
  {
    data.JObject? || data.JArray?
  }

  /** Reading the property `key` of an object-typed value. An array has no entry
      under a name that is not an index, and none of ScheduleKeys is an index. */
  function Entry(data: Json, key: string): Option<Json>
  {
    match data
    case JObject(entries) => if key in entries then entries[key] else None
    case _ => None
  }

  /** `Array.isArray(v)`; `undefined` is not an array. */
  predicate IsArray(v: Option<Json>)
  {
    v.Some? && v.value.JArray?
  }

  /** The type guard `isProjectSchedule`. Only a JSON object can pass. */
  function IsProjectSchedule(data: Json): (r: bool)
    ensures r ==> data.JObject?
  {
    if !IsNonNullObject(data) then false
    else
      IsArray(Entry(data, "scenes")) && IsArray(Entry(data, "milestones"))
      && IsArray(Entry(data, "departments"))
  }

  /** The entry `key` of an object is present, defined and an array. */
  predicate HasArrayEntry(entries: map<string, Option<Json>>, key: string)
  {
    key in entries && entries[key].Some? && entries[key].value.JArray?
  }

  lemma PrimitivesRejected(data: Json)
    requires data.JString? || data.JNumber? || data.JBool?
    ensures !IsProjectSchedule(data)
  {
  }

  lemma NullRejected()
    ensures !IsProjectSchedule(JNull)
  {
  }

  /** An array passes the `typeof` test but has no `scenes` entry. */
  lemma ArrayRejected(items: seq<Json>)
    ensures IsNonNullObject(JArray(items))
    ensures !IsProjectSchedule(JArray(items))
  {
  }

  /** An object is accepted exactly when each of the three keys holds an array. */
  lemma AcceptedIff(entries: map<string, Option<Json>>)
    ensures IsProjectSchedule(JObject(entries))
        <==> forall k :: k in ScheduleKeys ==> HasArrayEntry(entries, k)
  {
    if IsProjectSchedule(JObject(entries)) {
      forall k | k in ScheduleKeys ensures HasArrayEntry(entries, k) {
        assert k == "scenes" || k == "milestones" || k == "departments";
      }
    } else {
      var e := JObject(entries);
      var k := if !IsArray(Entry(e, "scenes")) then "scenes"
               else if !IsArray(Entry(e, "milestones")) then "milestones"
               else "departments";
      assert k in ScheduleKeys && !HasArrayEntry(entries, k);
    }
  }

  /** A missing key, or one mapped to `undefined`, makes the object fail. */
  lemma MissingKeyRejected(entries: map<string, Option<Json>>, key: string)
    requires key in ScheduleKeys
    requires key !in entries || entries[key] == None
    ensures !IsProjectSchedule(JObject(entries))
  {
    AcceptedIff(entries);
    assert !HasArrayEntry(entries, key);
  }

  /** Any entry under a key other than the three leaves the verdict as it was. */
  lemma ExtraKeyIrrelevant(entries: map<string, Option<Json>>, key: string, v: Option<Json>)
    requires key !in ScheduleKeys
    ensures IsProjectSchedule(JObject(entries[key := v])) == IsProjectSchedule(JObject(entries))
  {
    AcceptedIff(entries);
    AcceptedIff(entries[key := v]);
    forall k | k in ScheduleKeys
      ensures HasArrayEntry(entries[key := v], k) == HasArrayEntry(entries, k)
    {
      assert k != key;
    }
  }

  /** The check is shallow: arrays of arbitrary JSON values, and any other entries, pass. */
  lemma ShallowCheck(
    entries: map<string, Option<Json>>, scenes: seq<Json>, milestones: seq<Json>, departments: seq<Json>)
    ensures IsProjectSchedule(JObject(entries["scenes" := Some(JArray(scenes))]
                                              ["milestones" := Some(JArray(milestones))]
                                              ["departments" := Some(JArray(departments))]))
  {
  }

  /** The stored JSON form of each record type. */
  function OptionalString(v: Option<string>): Option<Json>
  {
    match v
    case Some(s) => Some(JString(s))
    case None => None
  }

  function StatusName(st: Status): string
  {
    match st
    case Planejado => "planejado"
    case EmAndamento => "em_andamento"
    case Concluido => "concluido"
  }

  function OptionalStatus(v: Option<Status>): Option<Json>
  {
    match v
    case Some(st) => Some(JString(StatusName(st)))
    case None => None
  }

  function SceneToJson(s: ScheduleScene): Json
  {
    JObject(map["id" := Some(JString(s.id)), "scene" := Some(JString(s.scene)),
                "location" := Some(JString(s.location)), "shootDate" := Some(JString(s.shootDate)),
                "department" := OptionalString(s.department)])
  }

  function MilestoneToJson(m: ScheduleMilestone): Json
  {
    JObject(map["id" := Some(JString(m.id)), "title" := Some(JString(m.title)),
                "dueDate" := Some(JString(m.dueDate)), "owner" := OptionalString(m.owner),
                "status" := OptionalStatus(m.status)])
  }

  function DepartmentToJson(d: ScheduleDepartment): Json
  {
    JObject(map["id" := Some(JString(d.id)), "name" := Some(JString(d.name)),
                "lead" := OptionalString(d.lead), "status" := OptionalStatus(d.status)])
  }

  function ScheduleToJson(s: Schedule): Json
  {
    JObject(map["scenes" := Some(JArray(seq(|s.scenes|, i requires 0 <= i < |s.scenes| => SceneToJson(s.scenes[i])))),
                "milestones" := Some(JArray(seq(|s.milestones|, i requires 0 <= i < |s.milestones| => MilestoneToJson(s.milestones[i])))),
                "departments" := Some(JArray(seq(|s.departments|, i requires 0 <= i < |s.departments| => DepartmentToJson(s.departments[i]))))])
  }

  /** Every value of the declared schedule type passes the guard once stored. */
  lemma StoredScheduleAccepted(s: Schedule)
    ensures IsProjectSchedule(ScheduleToJson(s))
  {
  }

  /** The schedule with no scenes, milestones or departments that a page
      falls back to when the stored value is malformed. */
  const DefaultSchedule: Schedule := Schedule([], [], [])

  /** `isProjectSchedule(project.schedule) ? project.schedule : DEFAULT_SCHEDULE`. */
  function ScheduleOrDefault(data: Json): (r: Json)
    ensures IsProjectSchedule(r)
    ensures IsProjectSchedule(data) ==> r == data
    ensures !IsProjectSchedule(data) ==> r == ScheduleToJson(DefaultSchedule)
  {
    if IsProjectSchedule(data) then data else ScheduleToJson(DefaultSchedule)
  }

  /** The concrete cases: the empty schedule passes; `{}`, `null` and
      `{scenes: []}` do not. */
  lemma ConcreteVerdicts()
    ensures IsProjectSchedule(JObject(map["scenes" := Some(JArray([])),
                                          "milestones" := Some(JArray([])),
                                          "departments" := Some(JArray([]))]))
    ensures !IsProjectSchedule(JObject(map[]))
    ensures !IsProjectSchedule(JNull)
    ensures !IsProjectSchedule(JObject(map["scenes" := Some(JArray([]))]))
  {
  }
}
