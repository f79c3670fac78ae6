/** The API layer (`MAPTSSApi`): the registration workflow, the listing and search
    pipelines, certificate checks and the dashboard figures, over the store. */
module Api {
  import opened JsValue
  import opened Seqs
  import opened Dates
  import opened Store

  /** What an API call can throw. */
  datatype ApiError =
    | TypeError             // a property read or method call on a value that lacks it
    | RangeError            // `toISOString` on an invalid date
    | Unsupported(message: string)

  /** `obj[key]` on a plain object given as a map. */
  function Get(m: map<string, Value>, key: string): Option<Value>
  {
    if key in m then Some(m[key]) else None
  }

  /** `obj[key] = v`, where assigning `undefined` leaves no property behind once stored. */
  function Put(m: map<string, Value>, key: string, v: Option<Value>): (r: map<string, Value>)
    ensures Get(r, key) == v
    ensures forall k :: k != key ==> Get(r, k) == Get(m, k)
  {
    if v.Some? then m[key := v.value] else m - {key}
  }

  /** `obj[key] = v` on a record: assigning `undefined` leaves an own property
      that reads as `undefined`. */
  function Assign(r: Record, key: string, v: Option<Value>): (a: Record)
    requires key != "id"
    ensures a.id == r.id && Field(a, key) == v
    ensures forall k :: k != key ==> Field(a, k) == Field(r, k)
    ensures key in a.cleared <==> v.None?
    ensures forall k :: k != key ==> (k in a.cleared <==> k in r.cleared)
    ensures forall k :: k in a.fields || k in a.cleared <==> k in r.fields || k in r.cleared || k == key
  {
    if v.Some? then Record(r.id, r.fields[key := v.value], r.cleared - {key})
    else Record(r.id, r.fields - {key}, r.cleared + {key})
  }

  /** A record as an object value, its id among its properties. */
  function RecordValue(r: Option<Record>): Option<Value>
  {
    match r
    case None => None
    case Some(x) => Some(Obj(x.fields["id" := Str(x.id)]))
  }

  // ---------------------------------------------------------------------------
  // Filters whose callbacks may throw

  /** A `filter` callback: keep, drop, or throw. */
  type Test = Record -> Result<bool, ApiError>

  function Plain(p: Record -> bool): Test
  {
    (r: Record) => Ok(p(r))
  }

  function Accepts(test: Test): Record -> bool
  {
    (r: Record) => test(r) == Ok(true)
  }

  /** `rs.filter(test)`: the first callback that throws aborts the whole call. */
  function TryFilter(rs: seq<Record>, test: Test): (r: Result<seq<Record>, ApiError>)
    ensures r.Ok? <==> forall i :: 0 <= i < |rs| ==> test(rs[i]).Ok?
    ensures r.Ok? ==> r.value == Filter(rs, Accepts(test))
    ensures r.Err? ==> exists i :: 0 <= i < |rs| && test(rs[i]) == Err(r.error)
  {
    if rs == [] then Ok([])
    else
      match test(rs[0])
      case Err(e) => Err(e)
      case Ok(keep) =>
        match TryFilter(rs[1..], test)
        case Err(e) => Err(e)
        case Ok(rest) => Ok((if keep then [rs[0]] else []) + rest)
  }

  /** A filter that cannot throw is `Filter`. */
  lemma TryFilterPlain(rs: seq<Record>, p: Record -> bool)
    ensures TryFilter(rs, Plain(p)) == Ok(Filter(rs, p))
  {
    FilterCongruent(rs, Accepts(Plain(p)), p);
  }

  /** One `if (criterion) { list = list.filter(test) }` step: `enabled` is the
      criterion's truthiness, and `setupOk` says that preparing the test (a
      `toLowerCase` or `split` on the criterion) does not throw. */
  datatype Stage = Stage(enabled: bool, setupOk: bool, test: Test)

  /** One step applied to the list so far: a throw aborts, a switched-off
      step passes the list on. */
  function Step(prior: Result<seq<Record>, ApiError>, stage: Stage): Result<seq<Record>, ApiError>
  {
    if prior.Err? || !stage.enabled then prior
    else if !stage.setupOk then Err(TypeError)
    else TryFilter(prior.value, stage.test)
  }

  /** A list run through the steps in order; a throw aborts the rest. */
  function RunStages(rs: seq<Record>, stages: seq<Stage>): Result<seq<Record>, ApiError>
    decreases |stages|
  {
    if stages == [] then Ok(rs)
    else Step(RunStages(rs, stages[..|stages| - 1]), stages[|stages| - 1])
  }

  /** Running one more step of a list of steps. */
  lemma RunOneMore(rs: seq<Record>, stages: seq<Stage>, k: nat)
    requires k < |stages|
    ensures RunStages(rs, stages[..k + 1]) == Step(RunStages(rs, stages[..k]), stages[k])
  {
    assert stages[..k + 1][..k] == stages[..k];
  }

  /** Four steps run one after another. */
  lemma RunFour(rs: seq<Record>, stages: seq<Stage>)
    requires |stages| == 4
    ensures RunStages(rs, stages) == Step(Step(Step(Step(Ok(rs), stages[0]), stages[1]), stages[2]), stages[3])
  {
    RunOneMore(rs, stages, 0);
    RunOneMore(rs, stages, 1);
    RunOneMore(rs, stages, 2);
    RunOneMore(rs, stages, 3);
    assert stages[..4] == stages;
  }

  /** Five steps run one after another. */
  lemma RunFive(rs: seq<Record>, stages: seq<Stage>)
    requires |stages| == 5
    ensures RunStages(rs, stages)
      == Step(Step(Step(Step(Step(Ok(rs), stages[0]), stages[1]), stages[2]), stages[3]), stages[4])
  {
    RunFour(rs, stages[..4]);
    RunOneMore(rs, stages, 4);
    assert stages[..4][..0] == stages[..0];
    assert stages[..5] == stages;
  }

  /** One `if (criterion) { list = list.filter(test) }`, as the source writes it
      for every criterion; the list so far may already be an exception. */
  method ApplyStage(current: Result<seq<Record>, ApiError>, stage: Stage)
    returns (next: Result<seq<Record>, ApiError>)
    ensures next == Step(current, stage)
  {
    next := current;
    if current.Ok? && stage.enabled {
      if !stage.setupOk {
        next := Err(TypeError);
      } else {
        next := TryFilter(current.value, stage.test);
      }
    }
  }

  /** `r` survives the step: it is switched off, or its test keeps `r`. */
  predicate Holds(stage: Stage, r: Record)
  {
    !stage.enabled || stage.test(r) == Ok(true)
  }

  /** `r` survives every step. */
  predicate Passes(stages: seq<Stage>, r: Record)
  {
    forall j :: 0 <= j < |stages| ==> Holds(stages[j], r)
  }

  function PassesAll(stages: seq<Stage>): Record -> bool
  {
    (r: Record) => Passes(stages, r)
  }

  /** Some enabled step throws: its setup does, or its test does on a record
      that survived the steps before it. */
  predicate Throws(stages: seq<Stage>, rs: seq<Record>)
  {
    exists j :: 0 <= j < |stages| && StageThrows(stages, j, rs)
  }

  predicate StageThrows(stages: seq<Stage>, j: nat, rs: seq<Record>)
    requires j < |stages|
  {
    stages[j].enabled
    && (!stages[j].setupOk
        || exists i :: 0 <= i < |rs| && Passes(stages[..j], rs[i]) && stages[j].test(rs[i]).Err?)
  }

  /** Chained filters keep, in stored order, exactly the records that pass every
      enabled test, and fail exactly when some step throws. */
  lemma {:induction false} RunStagesMeaning(rs: seq<Record>, stages: seq<Stage>)
    ensures RunStages(rs, stages).Ok? <==> !Throws(stages, rs)
    ensures RunStages(rs, stages).Ok? ==> RunStages(rs, stages).value == Filter(rs, PassesAll(stages))
    decreases |stages|
  {
    if stages == [] {
      FilterKeepsAll(rs, PassesAll(stages));
    } else {
      var n := |stages| - 1;
      var init := stages[..n];
      var last := stages[n];
      RunStagesMeaning(rs, init);
      ThrowsSnoc(stages, rs);
      PassesSnoc(stages);
      var prior := RunStages(rs, init);
      if prior.Ok? && last.enabled && last.setupOk {
        LastStepFilters(rs, PassesAll(init), last.test, prior.value);
        FilterThenFilter(rs, PassesAll(init), Accepts(last.test));
        FilterCongruent(rs, Both(PassesAll(init), Accepts(last.test)), PassesAll(stages));
      } else if prior.Ok? && !last.enabled {
        FilterCongruent(rs, PassesAll(init), PassesAll(stages));
      }
    }
  }

  /** Adding a step adds its own way to throw. */
  lemma ThrowsSnoc(stages: seq<Stage>, rs: seq<Record>)
    requires stages != []
    ensures var n := |stages| - 1;
      Throws(stages, rs) <==> Throws(stages[..n], rs) || StageThrows(stages, n, rs)
  {
    var n := |stages| - 1;
    var init := stages[..n];
    assert forall j :: 0 <= j < n ==> stages[..j] == init[..j];
    assert forall j :: 0 <= j < n ==> (StageThrows(stages, j, rs) <==> StageThrows(init, j, rs));
  }

  /** Adding a step adds its test to what a record must pass. */
  lemma PassesSnoc(stages: seq<Stage>)
    requires stages != []
    ensures forall r :: Passes(stages, r) <==> Passes(stages[..|stages| - 1], r) && Holds(stages[|stages| - 1], r)
  {
  }

  /** A test throws on some survivor of `p` exactly when it throws on some
      element of the whole list that satisfies `p`. */
  lemma LastStepFilters(rs: seq<Record>, p: Record -> bool, test: Test, kept: seq<Record>)
    requires kept == Filter(rs, p)
    ensures (forall i :: 0 <= i < |kept| ==> test(kept[i]).Ok?)
      <==> !exists i :: 0 <= i < |rs| && p(rs[i]) && test(rs[i]).Err?
  {
    if exists i :: 0 <= i < |rs| && p(rs[i]) && test(rs[i]).Err? {
      var i :| 0 <= i < |rs| && p(rs[i]) && test(rs[i]).Err?;
      var k := SurvivorIndex(rs, p, kept, rs[i]);
      assert !test(kept[k]).Ok?;
    } else {
      forall k | 0 <= k < |kept| ensures test(kept[k]).Ok? {
        var i := SourceIndex(rs, p, kept, k);
        assert !(p(rs[i]) && test(rs[i]).Err?);
      }
    }
  }

  /** Where an element that passes `p` sits among the survivors. */
  lemma SurvivorIndex(rs: seq<Record>, p: Record -> bool, kept: seq<Record>, x: Record) returns (k: int)
    requires kept == Filter(rs, p) && x in rs && p(x)
    ensures 0 <= k < |kept| && kept[k] == x
  {
    assert x in kept;
    k :| 0 <= k < |kept| && kept[k] == x;
  }

  /** Where a survivor came from in the whole list. */
  lemma SourceIndex(rs: seq<Record>, p: Record -> bool, kept: seq<Record>, k: int) returns (i: int)
    requires kept == Filter(rs, p) && 0 <= k < |kept|
    ensures 0 <= i < |rs| && rs[i] == kept[k] && p(rs[i])
  {
    assert kept[k] in kept;
    i :| 0 <= i < |rs| && rs[i] == kept[k];
  }

  // ---------------------------------------------------------------------------
  // searchGraduates

  /** `c.area` for an element of a `competencies` array. */
  function AreaProp(c: Value): Option<Value>
  {
    if c.Obj? then Get(c.props, "area") else None
  }

  /** `items.some(c => c.area === target)`: reading `area` of a `null` element throws. */
  function SomeArea(items: seq<Value>, target: Option<Value>): (r: Result<bool, ApiError>)
    ensures r == Ok(true) <==>
      exists i :: 0 <= i < |items| && StrictEquals(AreaProp(items[i]), target)
        && forall k :: 0 <= k <= i ==> items[k] != Null
  {
    if items == [] then Ok(false)
    else if items[0] == Null then Err(TypeError)
    else if StrictEquals(AreaProp(items[0]), target) then Ok(true)
    else
      var rest := SomeArea(items[1..], target);
      assert forall i :: 1 <= i < |items| ==> items[i] == items[1..][i - 1];
      rest
  }

  /** `g.competencies.some(...)`: anything but an array has no `some`. */
  function HasArea(g: Record, target: Option<Value>): Result<bool, ApiError>
  {
    match Field(g, "competencies")
    case Some(Arr(items)) => SomeArea(items, target)
    case _ => Err(TypeError)
  }

  /** `Number(s)` for the parts of an age range: the empty string is 0, plain
      decimal digits their value, anything else `NaN` (`None`). */
  function NumberOf(s: string): Option<int>
  {
    if AllDigits(s) then Some(DigitsValue(s)) else None
  }

  /** Position of the first '-' at or after `from`, or `|s|`. */
  function DashFrom(s: string, from: nat): (i: nat)
    requires from <= |s|
    ensures from <= i <= |s|
    ensures i < |s| ==> s[i] == '-'
    ensures forall k :: from <= k < i ==> s[k] != '-'
    decreases |s| - from
  {
    if from == |s| || s[from] == '-' then from else DashFrom(s, from + 1)
  }

  /** `const [minAge, maxAge] = s.split('-').map(Number)`; a missing second part is `NaN`. */
  function AgeBounds(s: string): (Option<int>, Option<int>)
  {
    var i := DashFrom(s, 0);
    if i == |s| then (NumberOf(s), None)
    else (NumberOf(s[..i]), NumberOf(s[i + 1..DashFrom(s, i + 1)]))
  }

  /** A range written as two plain numbers reads back as those numbers. */
  lemma AgeBoundsOfRange(lo: nat, hi: nat)
    ensures AgeBounds(NatToString(lo) + "-" + NatToString(hi)) == (Some(lo as int), Some(hi as int))
  {
    var a, b := NatToString(lo), NatToString(hi);
    NumberOfNat(lo);
    NumberOfNat(hi);
    AgeBoundsOfJoin(a, b);
  }

  lemma NumberOfNat(n: nat)
    ensures NumberOf(NatToString(n)) == Some(n as int)
  {
    NatToStringValue(n);
  }

  /** Two digit runs joined by a dash split back into those runs. */
  lemma AgeBoundsOfJoin(a: string, b: string)
    requires AllDigits(a) && AllDigits(b)
    ensures AgeBounds(a + "-" + b) == (NumberOf(a), NumberOf(b))
  {
    var s := a + "-" + b;
    DashesOfJoin(a, b);
    assert s[..|a|] == a;
    assert s[|a| + 1..|s|] == b;
  }

  /** In `a + "-" + b` with digits on both sides, the dashes `split` finds are
      the joining one and the end. */
  lemma DashesOfJoin(a: string, b: string)
    requires AllDigits(a) && AllDigits(b)
    ensures DashFrom(a + "-" + b, 0) == |a|
    ensures DashFrom(a + "-" + b, |a| + 1) == |a + "-" + b|
  {
    var s := a + "-" + b;
    assert forall k :: 0 <= k < |a| ==> s[k] == a[k];
    assert forall k :: |a| + 1 <= k < |s| ==> s[k] == b[k - |a| - 1];
    DashFromFirst(s, 0, |a|);
    DashFromFirst(s, |a| + 1, |s|);
  }

  lemma {:induction false} DashFromFirst(s: string, from: nat, i: nat)
    requires from <= i <= |s|
    requires forall k :: from <= k < i ==> s[k] != '-'
    requires i == |s| || s[i] == '-'
    ensures DashFrom(s, from) == i
    decreases i - from
  {
    if from < i {
      DashFromFirst(s, from + 1, i);
    }
  }

  /** The `k`-th birthday. */
  function Anniversary(birth: Date, k: int): Date
  {
    Date(birth.year + k, birth.month, birth.day)
  }

  /** Completed years from `birth` to `today` (`calculateAge`): the birthdays
      already reached are exactly the first `age`. */
  function AgeOn(birth: Date, today: Date): (age: int)
    ensures forall k :: OnOrBefore(Anniversary(birth, k), today) <==> k <= age
  {
    today.year - birth.year
      - (if today.month < birth.month || (today.month == birth.month && today.day < birth.day) then 1 else 0)
  }

  /** `calculateAge(birthDate)`; `None` is `NaN` from an invalid date. */
  function CalculateAge(birthDate: Option<Value>, today: Date): (age: Option<int>)
    ensures age.None? <==> DateOf(birthDate).None?
    ensures age.Some? ==>
      forall k :: OnOrBefore(Anniversary(DateOf(birthDate).value, k), today) <==> k <= age.value
  {
    match DateOf(birthDate)
    case Some(birth) => Some(AgeOn(birth, today))
    case None => None
  }

  /** `age >= minAge && age <= maxAge`, every comparison with `NaN` false. */
  predicate InAgeRange(age: Option<int>, bounds: (Option<int>, Option<int>))
  {
    age.Some? && bounds.0.Some? && bounds.1.Some? && bounds.0.value <= age.value <= bounds.1.value
  }

  /** The test of a step whose setup throws: it is never reached. */
  function Fail(): Test
  {
    (r: Record) => Err(TypeError)
  }

  /** The five steps of `searchGraduates`, in source order. */
  function SearchStages(criteria: map<string, Value>, today: Date): (stages: seq<Stage>)
    ensures |stages| == 5 && stages[0].setupOk && stages[1].setupOk && stages[2].setupOk
    ensures (forall k :: k in criteria ==> !Truthy(Some(criteria[k]))) ==> forall g :: Passes(stages, g)
  {
    var competency := Get(criteria, "competency");
    var location := Get(criteria, "location");
    var experience := Get(criteria, "experience");
    var age := Get(criteria, "age");
    var name := Get(criteria, "name");
    [ Stage(Truthy(competency), true, CompetencyTest(competency)),
      Stage(Truthy(location), true, Plain(FieldIs("location", location))),
      Stage(Truthy(experience), true, Plain(FieldIs("experienceLevel", experience))),
      Stage(Truthy(age), age.Some? && age.value.Str?,
            if age.Some? && age.value.Str? then AgeTest(AgeBounds(age.value.s), today) else Fail()),
      Stage(Truthy(name), name.Some? && name.value.Str?,
            if name.Some? && name.value.Str? then NameTest(ToLower(name.value.s)) else Fail()) ]
  }

  /** `g => g.competencies.some(c => c.area === target)`. */
  function CompetencyTest(target: Option<Value>): Test
  {
    (g: Record) => HasArea(g, target)
  }

  /** `g => { const age = calculateAge(g.birthDate); return age >= minAge && age <= maxAge; }` */
  function AgeTest(bounds: (Option<int>, Option<int>), today: Date): Test
  {
    Plain((g: Record) => InAgeRange(CalculateAge(Field(g, "birthDate"), today), bounds))
  }

  /** `g => g.name.toLowerCase().includes(q)`: a name that is not a string throws. */
  function NameTest(q: string): Test
  {
    (g: Record) =>
      match Field(g, "name")
      case Some(Str(s)) => Ok(Contains(ToLower(s), q))
      case _ => Err(TypeError)
  }

  /** What a graduate must satisfy to be found, criterion by criterion. */
  lemma SearchMatches(criteria: map<string, Value>, today: Date, g: Record)
    ensures var stages := SearchStages(criteria, today);
      var competency := Get(criteria, "competency");
      var location := Get(criteria, "location");
      var experience := Get(criteria, "experience");
      var age := Get(criteria, "age");
      var name := Get(criteria, "name");
      Passes(stages, g) <==>
        && (Truthy(competency) ==> HasArea(g, competency) == Ok(true))
        && (Truthy(location) ==> StrictEquals(Field(g, "location"), location))
        && (Truthy(experience) ==> StrictEquals(Field(g, "experienceLevel"), experience))
        && (Truthy(age) ==>
              (age.value.Str? && InAgeRange(CalculateAge(Field(g, "birthDate"), today), AgeBounds(age.value.s))))
        && (Truthy(name) ==>
              (name.value.Str? && Field(g, "name").Some? && Field(g, "name").value.Str?
               && Contains(ToLower(Field(g, "name").value.s), ToLower(name.value.s))))
  {
    var stages := SearchStages(criteria, today);
    if !Passes(stages, g) {
      var j :| 0 <= j < |stages| && !Holds(stages[j], g);
      assert j == 0 || j == 1 || j == 2 || j == 3 || j == 4;
    }
    assert Passes(stages, g) <==>
      Holds(stages[0], g) && Holds(stages[1], g) && Holds(stages[2], g) && Holds(stages[3], g) && Holds(stages[4], g);
  }

  // ---------------------------------------------------------------------------
  // getRegistrationsForManagement, getCenters, getCourses

  /** `v.includes(q)` on a string or an array; anything else has no `includes`. */
  function Includes(v: Option<Value>, q: string): Result<bool, ApiError>
  {
    match v
    case Some(Str(s)) => Ok(Contains(s, q))
    case Some(Arr(items)) => Ok(Str(q) in items)
    case _ => Err(TypeError)
  }

  /** The search callback: the citizen's name, lower-cased, then the BI, then the
      phone, stopping at the first match; a field without the method throws. */
  function SearchTest(q: string): Test
  {
    (r: Record) =>
      match Field(r, "citizenName")
      case Some(Str(n)) =>
        if Contains(ToLower(n), q) then Ok(true)
        else
          (match Includes(Field(r, "citizenBI"), q)
           case Err(e) => Err(e)
           case Ok(found) => if found then Ok(true) else Includes(Field(r, "citizenPhone"), q))
      case _ => Err(TypeError)
  }

  /** The four steps of `getRegistrationsForManagement`, in source order. */
  function ManagementStages(filters: map<string, Value>): (stages: seq<Stage>)
    ensures |stages| == 4 && stages[0].setupOk && stages[1].setupOk && stages[2].setupOk
    ensures (forall k :: k in filters ==> !Truthy(Some(filters[k]))) ==> forall r :: Passes(stages, r)
  {
    var status := Get(filters, "status");
    var course := Get(filters, "course");
    var center := Get(filters, "center");
    var search := Get(filters, "search");
    [ Stage(Truthy(status), true, Plain(FieldIs("status", status))),
      Stage(Truthy(course), true, Plain(FieldIs("courseId", course))),
      Stage(Truthy(center), true, Plain(FieldIs("centerId", center))),
      Stage(Truthy(search), search.Some? && search.value.Str?,
            if search.Some? && search.value.Str? then SearchTest(ToLower(search.value.s)) else Fail()) ]
  }

  /** What a registration must satisfy to be listed. */
  lemma ManagementMatches(filters: map<string, Value>, r: Record)
    ensures var stages := ManagementStages(filters);
      var status := Get(filters, "status");
      var course := Get(filters, "course");
      var center := Get(filters, "center");
      var search := Get(filters, "search");
      Passes(stages, r) <==>
        && (Truthy(status) ==> StrictEquals(Field(r, "status"), status))
        && (Truthy(course) ==> StrictEquals(Field(r, "courseId"), course))
        && (Truthy(center) ==> StrictEquals(Field(r, "centerId"), center))
        && (Truthy(search) ==> search.value.Str? && SearchTest(ToLower(search.value.s))(r) == Ok(true))
  {
    var stages := ManagementStages(filters);
    if !Passes(stages, r) {
      var j :| 0 <= j < |stages| && !Holds(stages[j], r);
      assert j == 0 || j == 1 || j == 2 || j == 3;
    }
    assert Passes(stages, r) <==> Holds(stages[0], r) && Holds(stages[1], r) && Holds(stages[2], r) && Holds(stages[3], r);
  }

  /** The steps of `getCenters`. */
  function CenterStages(filters: map<string, Value>): (stages: seq<Stage>)
    ensures |stages| == 2 && forall j :: 0 <= j < |stages| ==> stages[j].setupOk
    ensures (forall k :: k in filters ==> !Truthy(Some(filters[k]))) ==> forall r :: Passes(stages, r)
  {
    var province := Get(filters, "province");
    var status := Get(filters, "status");
    [ Stage(Truthy(province), true, Plain(FieldIs("province", province))),
      Stage(Truthy(status), true, Plain(FieldIs("status", status))) ]
  }

  /** The steps of `getCourses`. */
  function CourseStages(filters: map<string, Value>): (stages: seq<Stage>)
    ensures |stages| == 3 && forall j :: 0 <= j < |stages| ==> stages[j].setupOk
    ensures (forall k :: k in filters ==> !Truthy(Some(filters[k]))) ==> forall r :: Passes(stages, r)
  {
    var area := Get(filters, "area");
    var centerId := Get(filters, "centerId");
    var duration := Get(filters, "duration");
    [ Stage(Truthy(area), true, Plain(FieldIs("area", area))),
      Stage(Truthy(centerId), true, Plain(FieldIs("centerId", centerId))),
      Stage(Truthy(duration), true, Plain(FieldIs("duration", duration))) ]
  }

  /** A center survives `getCenters` when it matches every filter given. */
  lemma CentersMeaning(all: seq<Record>, filters: map<string, Value>)
    ensures forall c :: c in Filter(all, PassesAll(CenterStages(filters))) <==>
      (c in all
       && (Truthy(Get(filters, "province")) ==> StrictEquals(Field(c, "province"), Get(filters, "province")))
       && (Truthy(Get(filters, "status")) ==> StrictEquals(Field(c, "status"), Get(filters, "status"))))
  {
    var stages := CenterStages(filters);
    forall c ensures Passes(stages, c) <==> Holds(stages[0], c) && Holds(stages[1], c) {
      if !Passes(stages, c) {
        var j :| 0 <= j < |stages| && !Holds(stages[j], c);
        assert j == 0 || j == 1;
      }
    }
    assert forall c :: PassesAll(stages)(c) == Passes(stages, c);
  }

  /** A course survives `getCourses` when it matches every filter given. */
  lemma CoursesMeaning(all: seq<Record>, filters: map<string, Value>)
    ensures forall c :: c in Filter(all, PassesAll(CourseStages(filters))) <==>
      (c in all
       && (Truthy(Get(filters, "area")) ==> StrictEquals(Field(c, "area"), Get(filters, "area")))
       && (Truthy(Get(filters, "centerId")) ==> StrictEquals(Field(c, "centerId"), Get(filters, "centerId")))
       && (Truthy(Get(filters, "duration")) ==> StrictEquals(Field(c, "duration"), Get(filters, "duration"))))
  {
    var stages := CourseStages(filters);
    forall c ensures Passes(stages, c) <==> Holds(stages[0], c) && Holds(stages[1], c) && Holds(stages[2], c) {
      if !Passes(stages, c) {
        var j :| 0 <= j < |stages| && !Holds(stages[j], c);
        assert j == 0 || j == 1 || j == 2;
      }
    }
    assert forall c :: PassesAll(stages)(c) == Passes(stages, c);
  }

  /** Steps whose tests are plain comparisons never throw. */
  lemma PlainStagesNeverThrow(stages: seq<Stage>, rs: seq<Record>)
    requires forall j :: 0 <= j < |stages| ==> stages[j].setupOk
    requires forall j, r :: 0 <= j < |stages| ==> stages[j].test(r).Ok?
    ensures RunStages(rs, stages).Ok?
    ensures RunStages(rs, stages).value == Filter(rs, PassesAll(stages))
  {
    RunStagesMeaning(rs, stages);
  }

  // ---------------------------------------------------------------------------
  // Documents and certificates

  const RequiredDocuments: seq<string> := ["bi", "certificate", "photo", "residence"]

  datatype DocumentsStatus = DocumentsStatus(total: nat, submitted: nat, missing: seq<string>, complete: bool)

  /** `Object.keys(documents || {}).length`: an object's own keys, a non-empty
      string's or an array's indices; other values have none. */
  function SubmittedCount(documents: Option<Value>): nat
  {
    match documents
    case Some(Obj(m)) => |m.Keys|
    case Some(Str(s)) => |s|
    case Some(Arr(items)) => |items|
    case _ => 0
  }

  /** `Object.keys(documents || {}).includes(name)` for a document name (never an index). */
  predicate HasKey(documents: Option<Value>, name: string)
  {
    documents.Some? && documents.value.Obj? && name in documents.value.props
  }

  /** `doc => !submittedDocs.includes(doc)`. */
  function Lacks(documents: Option<Value>): string -> bool
  {
    (doc: string) => !HasKey(documents, doc)
  }

  /** `analyzeDocuments`. */
  function AnalyzeDocuments(documents: Option<Value>): (r: DocumentsStatus)
    ensures r.total == |RequiredDocuments| == 4
    ensures forall doc :: doc in r.missing <==> doc in RequiredDocuments && !HasKey(documents, doc)
  {
    var submitted := SubmittedCount(documents);
    DocumentsStatus(|RequiredDocuments|, submitted,
                    Filter(RequiredDocuments, Lacks(documents)),
                    submitted == |RequiredDocuments|)
  }

  /** `[doc]` when `doc` is not among the submitted keys, else nothing. */
  function IfLacking(documents: Option<Value>, doc: string): seq<string>
  {
    if HasKey(documents, doc) then [] else [doc]
  }

  /** The missing list names the lacking documents in the fixed order bi,
      certificate, photo, residence, each once. */
  lemma MissingInOrder(documents: Option<Value>)
    ensures AnalyzeDocuments(documents).missing ==
      IfLacking(documents, "bi") + IfLacking(documents, "certificate")
      + IfLacking(documents, "photo") + IfLacking(documents, "residence")
  {
    var p := Lacks(documents);
    assert RequiredDocuments == ["bi"] + ["certificate"] + ["photo"] + ["residence"];
    FilterAppend(["bi"] + ["certificate"] + ["photo"], ["residence"], p);
    FilterAppend(["bi"] + ["certificate"], ["photo"], p);
    FilterAppend(["bi"], ["certificate"], p);
    LackingAlone(documents, "bi");
    LackingAlone(documents, "certificate");
    LackingAlone(documents, "photo");
    LackingAlone(documents, "residence");
  }

  lemma LackingAlone(documents: Option<Value>, doc: string)
    ensures Filter([doc], Lacks(documents)) == IfLacking(documents, doc)
  {
    assert [doc][1..] == [];
  }

  const RequiredSet: set<string> := {"bi", "certificate", "photo", "residence"}

  lemma RequiredSetShape()
    ensures RequiredSet == set d | d in RequiredDocuments
    ensures |RequiredSet| == |RequiredDocuments| == 4
  {
  }

  /** A subset as large as its superset is the whole of it. */
  lemma SubsetSameSize(a: set<string>, b: set<string>)
    requires a <= b && |a| == |b|
    ensures a == b
  {
    var rest := b - a;
    assert b == a + rest;
    assert a * rest == {};
    assert |a + rest| == |a| + |rest|;
  }

  /** Nothing is missing and the set counts as complete exactly when the
      documents are an object whose keys are the four required names. */
  lemma CompleteIffExactlyRequired(documents: Option<Value>)
    ensures var r := AnalyzeDocuments(documents);
      r.complete && r.missing == [] <==>
        documents.Some? && documents.value.Obj? && documents.value.props.Keys == RequiredSet
  {
    var r := AnalyzeDocuments(documents);
    RequiredSetShape();
    if r.complete && r.missing == [] {
      assert "bi" in RequiredDocuments && "bi" !in r.missing;
      assert HasKey(documents, "bi");
      var keys := documents.value.props.Keys;
      forall d | d in RequiredSet ensures d in keys {
        assert d in RequiredDocuments && d !in r.missing;
      }
      SubsetSameSize(RequiredSet, keys);
    }
  }

  /** Completeness counts keys, not names: an array of four entries (or any
      value with four keys) counts as complete while every required document is missing. */
  lemma CompleteCountsKeysOnly()
    ensures var d := Some(Arr([Null, Null, Null, Null]));
      AnalyzeDocuments(d).complete && AnalyzeDocuments(d).missing == RequiredDocuments
  {
    var d := Some(Arr([Null, Null, Null, Null]));
    assert SubmittedCount(d) == 4;
    assert forall i :: 0 <= i < |RequiredDocuments| ==> Lacks(d)(RequiredDocuments[i]);
    FilterKeepsAll(RequiredDocuments, Lacks(d));
    assert AnalyzeDocuments(d) == DocumentsStatus(4, 4, RequiredDocuments, true);
  }

  /** The status object stored with a registration. */
  function DocumentsValue(s: DocumentsStatus): Value
  {
    Obj(map["total" := Num(s.total), "submitted" := Num(s.submitted),
            "missing" := Arr(seq(|s.missing|, i requires 0 <= i < |s.missing| => Str(s.missing[i]))),
            "complete" := Bool(s.complete)])
  }

  /** `validateCertificateSignature`: code, issue date and student all truthy. */
  function SignatureValid(c: Record): (ok: bool)
    ensures ok ==> Field(c, "code").Some? && Field(c, "issuedAt").Some? && Field(c, "studentId").Some?
  {
    Truthy(Field(c, "code")) && Truthy(Field(c, "issuedAt")) && Truthy(Field(c, "studentId"))
  }

  const NotFoundMessage := "Certificado não encontrado"
  const ForgedMessage := "Certificado inválido ou falsificado"

  datatype Verification = Invalid(error: string) | Valid(certificate: Record)

  /** `certificates[i]` is the first certificate carrying `code`, the one `find` returns. */
  ghost predicate FirstWithCode(certificates: seq<Record>, code: Option<Value>, i: int)
  {
    && 0 <= i < |certificates|
    && StrictEquals(Field(certificates[i], "code"), code)
    && forall k :: 0 <= k < i ==> !StrictEquals(Field(certificates[k], "code"), code)
  }

  /** `verifyCertificate`'s answer for the first certificate with the code. */
  function CertificateVerdict(certificates: seq<Record>, code: Option<Value>, now: int): (v: Verification)
    ensures v.Invalid? ==> v.error == NotFoundMessage || v.error == ForgedMessage
    ensures v == Invalid(NotFoundMessage) <==> forall i :: 0 <= i < |certificates| ==> !StrictEquals(Field(certificates[i], "code"), code)
    ensures v == Invalid(ForgedMessage) <==>
      exists i :: FirstWithCode(certificates, code, i) && !SignatureValid(certificates[i])
    ensures v.Valid? <==> exists i :: FirstWithCode(certificates, code, i) && SignatureValid(certificates[i])
    ensures v.Valid? ==>
      exists i :: FirstWithCode(certificates, code, i)
        && v.certificate.id == certificates[i].id
        && Field(v.certificate, "verifiedAt") == Some(Num(now))
        && forall f :: f != "verifiedAt" ==> Field(v.certificate, f) == Field(certificates[i], f)
  {
    var found := Filter(certificates, FieldIs("code", code));
    FilterHead(certificates, FieldIs("code", code));
    var i := FindIndex(certificates, FieldIs("code", code));
    if found == [] then Invalid(NotFoundMessage)
    else
      assert found[0] == certificates[i] && FirstWithCode(certificates, code, i);
      assert forall j :: FirstWithCode(certificates, code, j) ==> j == i;
      if !SignatureValid(found[0]) then Invalid(ForgedMessage)
      else Valid(Verified(found[0], now))
  }

  /** `{ ...certificate, verifiedAt }`. */
  function Verified(c: Record, now: int): (r: Record)
    ensures r.id == c.id && Field(r, "verifiedAt") == Some(Num(now))
    ensures forall f :: f != "verifiedAt" ==> Field(r, f) == Field(c, f)
  {
    c.(fields := c.fields["verifiedAt" := Num(now)])
  }

  // ---------------------------------------------------------------------------
  // Records the workflow writes

  /** `{ id: generated, ...fields }`: a string `id` among the fields wins. */
  function SpreadId(id: string, fields: map<string, Value>): (r: Record)
    ensures "id" in fields && fields["id"].Str? ==> r.id == fields["id"].s
    ensures "id" !in fields ==> r.id == id
    ensures forall f :: f != "id" ==> Field(r, f) == Get(fields, f)
  {
    var own := if "id" in fields && fields["id"].Str? then fields["id"].s else id;
    Record(own, fields - {"id"}, {})
  }

  /** `logActivity`'s record: the fields and a `timestamp`. */
  function ActivityRecord(id: string, fields: map<string, Value>, now: int): (r: Record)
    ensures Field(r, "timestamp") == Some(Num(now))
  {
    var base := SpreadId(id, fields);
    base.(fields := base.fields["timestamp" := Num(now)])
  }

  /** `sendNotification`'s record: the fields, `sentAt`, and `read: false`. */
  function NotificationRecord(id: string, fields: map<string, Value>, now: int): (r: Record)
    ensures Field(r, "sentAt") == Some(Num(now)) && Field(r, "read") == Some(Bool(false))
  {
    var base := SpreadId(id, fields);
    base.(fields := base.fields["sentAt" := Num(now)]["read" := Bool(false)])
  }

  /** `{ type, userId, message }` as the workflow builds it. */
  function Notice(kind: string, userId: Option<Value>, message: string): map<string, Value>
  {
    Put(map["type" := Str(kind), "message" := Str(message)], "userId", userId)
  }

  /** `{ type, userId, targetId, details }` as the workflow builds it. */
  function ActivityFields(kind: string, userId: Option<Value>, targetId: Option<Value>, details: string): map<string, Value>
  {
    Put(Put(map["type" := Str(kind), "details" := Str(details)], "userId", userId), "targetId", targetId)
  }

  /** The registration `submitRegistration` saves: the caller's fields, forced
      to `pending`, with the submission time and the documents' status. */
  function NewRegistration(id: string, data: map<string, Value>, now: int): (r: Record)
    ensures Field(r, "status") == Some(Str("pending"))
    ensures Field(r, "submittedAt") == Some(Num(now))
    ensures Field(r, "documentsStatus") == Some(DocumentsValue(AnalyzeDocuments(Get(data, "documents"))))
    ensures forall f :: f !in {"id", "status", "submittedAt", "documentsStatus"} ==> Field(r, f) == Get(data, f)
  {
    Pending(SpreadId(id, data), now, DocumentsValue(AnalyzeDocuments(Get(data, "documents"))))
  }

  /** `base` with `status`, `submittedAt` and `documentsStatus` set. */
  function Pending(base: Record, now: int, documents: Value): (r: Record)
    ensures Field(r, "status") == Some(Str("pending"))
    ensures Field(r, "submittedAt") == Some(Num(now))
    ensures Field(r, "documentsStatus") == Some(documents)
    ensures forall f :: f !in {"status", "submittedAt", "documentsStatus"} ==> Field(r, f) == Field(base, f)
  {
    base.(fields := base.fields["status" := Str("pending")]["submittedAt" := Num(now)]["documentsStatus" := documents])
  }

  const SubmittedMessage := "Sua inscrição foi submetida com sucesso"

  /** The registration after `approveRegistration` sets its three properties. */
  function Approved(reg: Record, gestorId: Option<Value>, now: int): (r: Record)
    ensures r.id == reg.id
    ensures Field(r, "status") == Some(Str("approved"))
    ensures Field(r, "approvedBy") == gestorId && Field(r, "approvedAt") == Some(Num(now))
    ensures forall f :: f !in {"status", "approvedBy", "approvedAt"} ==> Field(r, f) == Field(reg, f)
    ensures gestorId.None? <==> "approvedBy" in r.cleared
    ensures forall f :: f in reg.fields ==> f in r.fields || f in r.cleared
  {
    Assign(Assign(Assign(reg, "status", Some(Str("approved"))), "approvedBy", gestorId), "approvedAt", Some(Num(now)))
  }

  /** The registration after `rejectRegistration` sets its four properties. */
  function Rejected(reg: Record, gestorId: Option<Value>, reason: Option<Value>, now: int): (r: Record)
    ensures r.id == reg.id
    ensures Field(r, "status") == Some(Str("rejected"))
    ensures Field(r, "rejectedBy") == gestorId && Field(r, "rejectedAt") == Some(Num(now))
    ensures Field(r, "rejectionReason") == reason
    ensures forall f :: f !in {"status", "rejectedBy", "rejectedAt", "rejectionReason"} ==> Field(r, f) == Field(reg, f)
    ensures gestorId.None? <==> "rejectedBy" in r.cleared
    ensures reason.None? <==> "rejectionReason" in r.cleared
    ensures forall f :: f in reg.fields ==> f in r.fields || f in r.cleared
  {
    var decided := Assign(Assign(reg, "status", Some(Str("rejected"))), "rejectedBy", gestorId);
    Assign(Assign(decided, "rejectedAt", Some(Num(now))), "rejectionReason", reason)
  }

  /** The first record with `d`'s id holds exactly `d`'s properties, apart from `updatedAt`. */
  ghost predicate StoredAs(rs: seq<Record>, d: Record)
  {
    exists i :: 0 <= i < |rs| && rs[i].id == d.id && (forall k :: 0 <= k < i ==> rs[k].id != d.id)
      && forall f :: f != "updatedAt" ==> Field(rs[i], f) == Field(d, f)
  }

  /** Saving an object read from the first stored record with its id, with every
      stored property kept or reassigned, stores exactly that object. */
  lemma SavedOverOrigin(rs: seq<Record>, i: nat, d: Record, now: int)
    requires i < |rs| && rs[i].id == d.id && forall k :: 0 <= k < i ==> rs[k].id != d.id
    requires forall f :: f in rs[i].fields ==> f in d.fields || f in d.cleared
    ensures StoredAs(Upsert(rs, d, now), d)
  {
    MergeOfDerived(rs[i], d, now);
    var r := Upsert(rs, d, now);
    assert r[i] == Merge(rs[i], d, now);
    assert forall k :: 0 <= k < i ==> r[k] == rs[k];
  }

  /** The registration `findById` returned, decided with every property kept or
      reassigned, is stored as decided. */
  lemma DecisionSlot(rs: seq<Record>, id: Option<Value>, reg: Record, decided: Record, now: int)
    requires exists i ::
               && 0 <= i < |rs| && rs[i] == reg && StrictEquals(Some(Str(reg.id)), id)
               && forall k :: 0 <= k < i ==> !StrictEquals(Some(Str(rs[k].id)), id)
    requires decided.id == reg.id && forall f :: f in reg.fields ==> f in decided.fields || f in decided.cleared
    ensures StoredAs(Upsert(rs, decided, now), decided)
  {
    var i :| 0 <= i < |rs| && rs[i] == reg && StrictEquals(Some(Str(reg.id)), id)
      && forall k :: 0 <= k < i ==> !StrictEquals(Some(Str(rs[k].id)), id);
    assert id == Some(Str(reg.id));
    SavedOverOrigin(rs, i, decided, now);
  }

  /** Approving with no gestor, or rejecting with no reason, re-saved over the
      stored registration, leaves no earlier approver or reason behind. */
  lemma UndefinedDecisionClears(reg: Record, gestorId: Option<Value>, now: int, later: int)
    ensures Field(Merge(reg, Approved(reg, None, now), later), "approvedBy") == None
    ensures Field(Merge(reg, Rejected(reg, gestorId, None, now), later), "rejectionReason") == None
  {
  }

  /** Whatever a registration's status, approving it, or rejecting it, sets the new status. */
  lemma DecisionIgnoresPriorStatus(reg: Record, gestorId: Option<Value>, reason: Option<Value>, now: int)
    ensures Field(Approved(Rejected(reg, gestorId, reason, now), gestorId, now), "status") == Some(Str("approved"))
    ensures Field(Rejected(Approved(reg, gestorId, now), gestorId, reason, now), "status") == Some(Str("rejected"))
    ensures Field(Approved(Rejected(reg, gestorId, reason, now), gestorId, now), "rejectionReason") == reason
  {
  }

  /** The tables the workflow writes are distinct keys. */
  lemma TableNamesDiffer()
    ensures RegistrationsTable != ActivitiesTable && RegistrationsTable != NotificationsTable
    ensures ActivitiesTable != NotificationsTable
  {
    assert RegistrationsTable[0] != NotificationsTable[0];
  }

  // ---------------------------------------------------------------------------
  // Reports and dashboards

  const ReportKinds: seq<string> := ["registrations_monthly", "centers_performance", "graduates_by_area"]

  /** `generateReport`: the three report kinds call generators the repository
      does not define, so every call throws; any other kind is unsupported. */
  function GenerateReport(kind: Option<Value>): (e: ApiError)
    ensures e == TypeError <==> exists k :: k in ReportKinds && kind == Some(Str(k))
    ensures e != TypeError ==> e == Unsupported("Report type " + JsString(kind) + " not supported")
  {
    if kind == Some(Str("registrations_monthly")) || kind == Some(Str("centers_performance"))
      || kind == Some(Str("graduates_by_area"))
    then TypeError
    else Unsupported("Report type " + JsString(kind) + " not supported")
  }

  function StatusIs(status: string): Record -> bool
  {
    FieldIs("status", Some(Str(status)))
  }

  function Never(): Record -> bool
  {
    (r: Record) => false
  }

  lemma CountNever(rs: seq<Record>)
    ensures Count(rs, Never()) == 0
  {
    NoneMatch(rs, Never());
  }

  datatype GestorStats = GestorStats(total: nat, approved: nat, pending: nat, rejected: nat,
                                     activeCenters: nat, totalCenters: nat)

  /** The figures of `getGestorDashboard`. */
  function GestorCounts(registrations: seq<Record>, centers: seq<Record>): (s: GestorStats)
    ensures s.total == |registrations| && s.totalCenters == |centers|
    ensures s.approved + s.pending + s.rejected <= s.total
    ensures s.activeCenters <= s.totalCenters
    ensures s.approved == Count(registrations, StatusIs("approved"))
    ensures s.pending == Count(registrations, StatusIs("pending"))
    ensures s.rejected == Count(registrations, StatusIs("rejected"))
    ensures s.activeCenters == Count(centers, StatusIs("active"))
  {
    assert "approved" != "rejected" by { assert "approved"[0] != "rejected"[0]; }
    CountExclusive(registrations, StatusIs("approved"), StatusIs("pending"), StatusIs("rejected"));
    GestorStats(|registrations|, Count(registrations, StatusIs("approved")), Count(registrations, StatusIs("pending")),
                Count(registrations, StatusIs("rejected")), Count(centers, StatusIs("active")), |centers|)
  }

  datatype CitizenStats = CitizenStats(total: nat, approved: nat, pending: nat, nearbyCenters: nat)

  /** The figures of `getCitizenDashboard`. */
  function CitizenCounts(registrations: seq<Record>, nearby: seq<Record>): (s: CitizenStats)
    ensures s.total == |registrations| && s.nearbyCenters == |nearby|
    ensures s.approved + s.pending <= s.total
    ensures s.approved == Count(registrations, StatusIs("approved"))
    ensures s.pending == Count(registrations, StatusIs("pending"))
  {
    CountExclusive(registrations, StatusIs("approved"), StatusIs("pending"), Never());
    CountNever(registrations);
    CitizenStats(|registrations|, Count(registrations, StatusIs("approved")),
                 Count(registrations, StatusIs("pending")), |nearby|)
  }

  /** The store's `getNearbyCenters`: centers without a `location` are skipped;
      `withinRadius` stands for the great-circle distance test, which reads
      `userLocation.latitude` and so throws when the citizen has no location. */
  function NearbyCenters(centers: seq<Record>, userLocation: Option<Value>, withinRadius: Record -> bool)
    : (r: Result<seq<Record>, ApiError>)
    ensures r.Err? <==> (userLocation == None || userLocation == Some(Null))
                        && exists i :: 0 <= i < |centers| && Truthy(Field(centers[i], "location"))
    ensures r.Ok? ==> forall c :: c in r.value <==> c in centers && Truthy(Field(c, "location")) && withinRadius(c)
    ensures r.Err? ==> r.error == TypeError
  {
    TryFilter(centers, (c: Record) =>
      if !Truthy(Field(c, "location")) then Ok(false)
      else if userLocation == None || userLocation == Some(Null) then Err(TypeError)
      else Ok(withinRadius(c)))
  }

  // ---------------------------------------------------------------------------
  // getMonthlyRegistrationStats

  /** `stats[month]` as an ordered list of entries (the insertion order the
      object keeps for these non-numeric keys). */
  type MonthTally = seq<(string, nat)>

  function CountFor(stats: MonthTally, key: string): nat
  {
    if stats == [] then 0 else if stats[0].0 == key then stats[0].1 else CountFor(stats[1..], key)
  }

  function Total(stats: MonthTally): nat
  {
    if stats == [] then 0 else stats[0].1 + Total(stats[1..])
  }

  /** The keys, in insertion order. */
  function Months(stats: MonthTally): (ks: seq<string>)
    ensures |ks| == |stats|
  {
    if stats == [] then [] else [stats[0].0] + Months(stats[1..])
  }

  predicate AllPositive(stats: MonthTally)
  {
    forall i :: 0 <= i < |stats| ==> stats[i].1 > 0
  }

  /** `if (!stats[month]) stats[month] = 0; stats[month]++`. */
  function Bump(stats: MonthTally, key: string): (r: MonthTally)
  {
    if stats == [] then [(key, 1)]
    else if stats[0].0 == key then [(key, stats[0].1 + 1)] + stats[1..]
    else [stats[0]] + Bump(stats[1..], key)
  }

  /** Bumping adds one to that month only. */
  lemma {:induction false} BumpCount(stats: MonthTally, key: string, j: string)
    ensures CountFor(Bump(stats, key), j) == CountFor(stats, j) + (if j == key then 1 else 0)
  {
    if stats != [] && stats[0].0 != key {
      BumpCount(stats[1..], key, j);
    }
  }

  /** Bumping adds one to the total. */
  lemma {:induction false} BumpTotal(stats: MonthTally, key: string)
    ensures Total(Bump(stats, key)) == Total(stats) + 1
  {
    if stats != [] && stats[0].0 != key {
      BumpTotal(stats[1..], key);
    }
  }

  /** A month seen before keeps its place; a new one goes last, as a new
      property of an object does. */
  lemma {:induction false} BumpMonths(stats: MonthTally, key: string)
    ensures Months(Bump(stats, key)) == if key in Months(stats) then Months(stats) else Months(stats) + [key]
  {
    if stats != [] && stats[0].0 != key {
      BumpMonths(stats[1..], key);
      assert Months(stats) == [stats[0].0] + Months(stats[1..]);
    } else if stats != [] {
      assert Months(stats) == [key] + Months(stats[1..]);
    }
  }

  /** Counts stay positive. */
  lemma {:induction false} BumpPositive(stats: MonthTally, key: string)
    requires AllPositive(stats)
    ensures AllPositive(Bump(stats, key))
  {
    if stats != [] && stats[0].0 != key {
      BumpPositive(stats[1..], key);
      assert forall i :: 1 <= i < |Bump(stats, key)| ==> Bump(stats, key)[i] == Bump(stats[1..], key)[i - 1];
    }
  }

  /** The month a registration counts under: `new Date(submittedAt).toISOString().slice(0, 7)`.
      Years outside 0..9999 are written with a sign and six digits. */
  function MonthKey(submittedAt: Option<Value>): (m: Result<string, ApiError>)
    ensures m.Err? <==> DateOf(submittedAt).None?
    ensures m.Err? ==> m.error == RangeError
    ensures m.Ok? ==> 7 <= |m.value|
    ensures m.Ok? && 0 <= DateOf(submittedAt).value.year <= 9999 && 1 <= DateOf(submittedAt).value.month <= 12 ==>
      var d := DateOf(submittedAt).value;
      && |m.value| == 7 && m.value[4] == '-'
      && AllDigits(m.value[..4]) && DigitsValue(m.value[..4]) == d.year
      && AllDigits(m.value[5..]) && DigitsValue(m.value[5..]) == d.month
  {
    match DateOf(submittedAt)
    case None => Err(RangeError)
    case Some(d) => Ok(IsoMonth(d))
  }

  /** `toISOString().slice(0, 7)` of a calendar day. */
  function IsoMonth(d: Date): (k: string)
    ensures 7 <= |k|
    ensures 0 <= d.year <= 9999 && 1 <= d.month <= 12 ==>
      && |k| == 7 && k[4] == '-'
      && AllDigits(k[..4]) && DigitsValue(k[..4]) == d.year
      && AllDigits(k[5..]) && DigitsValue(k[5..]) == d.month
  {
    if 0 <= d.year <= 9999 then
      var y, mo := Padded(d.year, 4), Padded(NonNegative(d.month), 2);
      PaddedYearMonth(d.year, d.month);
      assert 1 <= d.month <= 12 ==> (y + "-" + mo)[..4] == y && (y + "-" + mo)[5..] == mo;
      y + "-" + mo
    else
      var signed := (if d.year < 0 then "-" else "+") + Padded(if d.year < 0 then -d.year else d.year, 6);
      signed[..7]
  }

  function NonNegative(n: int): (k: nat)
    ensures 0 <= n ==> k == n
  {
    if n < 0 then 0 else n
  }

  /** A year and month in range are written in four and two digits that read back as themselves. */
  lemma PaddedYearMonth(year: int, month: int)
    ensures 0 <= year <= 9999 && 1 <= month <= 12 ==>
      && |Padded(year, 4)| == 4 && DigitsValue(Padded(year, 4)) == year
      && |Padded(month, 2)| == 2 && DigitsValue(Padded(month, 2)) == month
  {
    if 0 <= year <= 9999 && 1 <= month <= 12 {
      assert Pow10(4) == 10000 && Pow10(2) == 100 by {
        assert Pow10(1) == 10;
      }
      PaddedValue(year, 4);
      PaddedValue(month, 2);
    }
  }

  /** The month each registration counts under. */
  function MonthOf(): Record -> Result<string, ApiError>
  {
    (r: Record) => MonthKey(Field(r, "submittedAt"))
  }

  /** The registrations a key function files under `key`. */
  function KeyIs(month: Record -> Result<string, ApiError>, key: string): Record -> bool
  {
    (r: Record) => month(r) == Ok(key)
  }

  /** One pass over `rs` counting per key, or the error of the first record
      whose key cannot be computed. */
  function TallyBy(rs: seq<Record>, month: Record -> Result<string, ApiError>): Result<MonthTally, ApiError>
  {
    if rs == [] then Ok([])
    else
      match TallyBy(rs[..|rs| - 1], month)
      case Err(e) => Err(e)
      case Ok(stats) =>
        match month(rs[|rs| - 1])
        case Err(e) => Err(e)
        case Ok(key) => Ok(Bump(stats, key))
  }

  /** The object `getMonthlyRegistrationStats` builds, or the `RangeError` of the
      first registration whose `submittedAt` is not a valid date. */
  function Tally(rs: seq<Record>): (t: Result<MonthTally, ApiError>)
    ensures t.Ok? <==> forall i :: 0 <= i < |rs| ==> DateOf(Field(rs[i], "submittedAt")).Some?
    ensures t.Ok? ==> Total(t.value) == |rs|
  {
    TallyOk(rs, MonthOf());
    var t := TallyBy(rs, MonthOf());
    if t.Ok? then
      TallyCounts(rs, MonthOf());
      t
    else t
  }

  /** The tally fails exactly when some record's key cannot be computed. */
  lemma {:induction false} TallyOk(rs: seq<Record>, month: Record -> Result<string, ApiError>)
    ensures TallyBy(rs, month).Ok? <==> forall i :: 0 <= i < |rs| ==> month(rs[i]).Ok?
  {
    if rs != [] {
      var init := rs[..|rs| - 1];
      TallyOk(init, month);
      assert forall i :: 0 <= i < |init| ==> init[i] == rs[i];
    }
  }

  /** A successful tally counts every record once, under its key. */
  lemma {:induction false} TallyCounts(rs: seq<Record>, month: Record -> Result<string, ApiError>)
    requires TallyBy(rs, month).Ok?
    ensures Total(TallyBy(rs, month).value) == |rs|
    ensures forall key :: CountFor(TallyBy(rs, month).value, key) == Count(rs, KeyIs(month, key))
  {
    if rs != [] {
      var init := rs[..|rs| - 1];
      var last := rs[|rs| - 1];
      assert rs == init + [last];
      TallyCounts(init, month);
      var stats := TallyBy(init, month).value;
      var key := month(last).value;
      BumpTotal(stats, key);
      forall j ensures CountFor(TallyBy(rs, month).value, j) == Count(rs, KeyIs(month, j)) {
        BumpCount(stats, key, j);
        CountAppend(init, last, KeyIs(month, j));
      }
    }
  }

  /** A successful tally lists each key that occurs exactly once, in order
      of first occurrence, each with a positive count. */
  lemma TallyMonths(rs: seq<Record>, month: Record -> Result<string, ApiError>)
    requires TallyBy(rs, month).Ok?
    ensures Distinct(Months(TallyBy(rs, month).value))
    ensures AllPositive(TallyBy(rs, month).value)
    ensures forall key :: key in Months(TallyBy(rs, month).value) <==> exists i :: 0 <= i < |rs| && month(rs[i]) == Ok(key)
  {
    TallyShape(rs, month);
    TallyKeys(rs, month);
    forall key ensures key in Months(TallyBy(rs, month).value) <==> exists i :: 0 <= i < |rs| && month(rs[i]) == Ok(key) {
      assert Occurs(rs, month, key) <==> exists i :: 0 <= i < |rs| && month(rs[i]) == Ok(key);
    }
  }

  /** Some record of `rs` is filed under `key`. */
  ghost predicate Occurs(rs: seq<Record>, month: Record -> Result<string, ApiError>, key: string)
  {
    exists i :: 0 <= i < |rs| && month(rs[i]) == Ok(key)
  }

  lemma OccursSnoc(rs: seq<Record>, month: Record -> Result<string, ApiError>, key: string)
    requires rs != []
    ensures Occurs(rs, month, key) <==> Occurs(rs[..|rs| - 1], month, key) || month(rs[|rs| - 1]) == Ok(key)
  {
    var init := rs[..|rs| - 1];
    if Occurs(rs, month, key) {
      var i :| 0 <= i < |rs| && month(rs[i]) == Ok(key);
      if i < |init| {
        assert month(init[i]) == Ok(key);
      }
    }
    if Occurs(init, month, key) {
      var i :| 0 <= i < |init| && month(init[i]) == Ok(key);
      assert rs[i] == init[i];
    }
  }

  /** The tally's months are distinct and their counts positive. */
  lemma {:induction false} TallyShape(rs: seq<Record>, month: Record -> Result<string, ApiError>)
    requires TallyBy(rs, month).Ok?
    ensures Distinct(Months(TallyBy(rs, month).value))
    ensures AllPositive(TallyBy(rs, month).value)
  {
    if rs != [] {
      var init := rs[..|rs| - 1];
      TallyShape(init, month);
      var stats := TallyBy(init, month).value;
      var key := month(rs[|rs| - 1]).value;
      assert TallyBy(rs, month) == Ok(Bump(stats, key));
      BumpMonths(stats, key);
      BumpPositive(stats, key);
      if key !in Months(stats) {
        DistinctSnoc(Months(stats), key);
      }
    }
  }

  /** The tally lists exactly the months some record is filed under. */
  lemma {:induction false} TallyKeys(rs: seq<Record>, month: Record -> Result<string, ApiError>)
    requires TallyBy(rs, month).Ok?
    ensures forall key :: key in Months(TallyBy(rs, month).value) <==> Occurs(rs, month, key)
  {
    if rs != [] {
      var init := rs[..|rs| - 1];
      TallyKeys(init, month);
      var stats := TallyBy(init, month).value;
      var key := month(rs[|rs| - 1]).value;
      assert TallyBy(rs, month) == Ok(Bump(stats, key));
      BumpMonths(stats, key);
      forall k ensures k in Months(Bump(stats, key)) <==> Occurs(rs, month, k) {
        OccursSnoc(rs, month, k);
      }
    }
  }

  /** A new key at the end keeps the keys distinct. */
  lemma DistinctSnoc(ks: seq<string>, key: string)
    requires Distinct(ks) && key !in ks
    ensures Distinct(ks + [key])
  {
  }

  // ---------------------------------------------------------------------------
  // The API object

  datatype GestorDashboard = GestorDashboard(stats: GestorStats, recentActivity: seq<Record>, monthlyStats: MonthTally)

  datatype CitizenDashboard = CitizenDashboard(citizen: Record, registrations: seq<Record>,
                                               nearbyCenters: seq<Record>, stats: CitizenStats)

  class Api {
    const storage: Database

    /** A fresh API over an empty store; the sample data is not loaded. */
    constructor ()
      ensures fresh(storage)
      ensures storage.tables == map[] && storage.indexes == NoIndexes
    {
      storage := new Database();
    }

    /** `logActivity`: the activity goes to the store's log, which this path never trims. */
    method LogActivity(fields: map<string, Value>, id: string, now: int) returns (activity: Record)
      modifies storage
      ensures var entry := ActivityRecord(id, fields, now);
        && storage.tables == old(storage.tables)[ActivitiesTable := Upsert(old(storage.Load(ActivitiesTable)), entry, now)]
        && storage.indexes == old(storage.indexes)
        && activity == SavedRecord(old(storage.Load(ActivitiesTable)), entry, now)
      ensures old(storage.Consistent()) ==> storage.Consistent()
    {
      var entry := ActivityRecord(id, fields, now);
      IndexRecordUnindexed(storage.indexes, ActivitiesTable, SavedRecord(storage.Load(ActivitiesTable), entry, now));
      var saved := storage.Save(ActivitiesTable, entry, now);
      activity := saved.value;
    }

    /** `sendNotification`: store the notification, unread. */
    method SendNotification(fields: map<string, Value>, id: string, now: int) returns (notification: Record)
      modifies storage
      ensures var note := NotificationRecord(id, fields, now);
        && storage.tables == old(storage.tables)[NotificationsTable := Upsert(old(storage.Load(NotificationsTable)), note, now)]
        && storage.indexes == old(storage.indexes)
        && notification == SavedRecord(old(storage.Load(NotificationsTable)), note, now)
      ensures old(storage.Consistent()) ==> storage.Consistent()
    {
      var note := NotificationRecord(id, fields, now);
      IndexRecordUnindexed(storage.indexes, NotificationsTable, SavedRecord(storage.Load(NotificationsTable), note, now));
      var saved := storage.Save(NotificationsTable, note, now);
      notification := saved.value;
    }

    /** `submitRegistration`: save the registration as pending, then notify the citizen. */
    method SubmitRegistration(data: map<string, Value>, id: string, notificationId: string, now: int)
      returns (registration: Record)
      modifies storage
      ensures var reg := NewRegistration(id, data, now);
        var note := NotificationRecord(notificationId, Notice("registration_submitted", Get(data, "citizenId"), SubmittedMessage), now);
        && registration == SavedRecord(old(storage.Load(RegistrationsTable)), reg, now)
        && storage.tables == old(storage.tables)
             [RegistrationsTable := Upsert(old(storage.Load(RegistrationsTable)), reg, now)]
             [NotificationsTable := Upsert(old(storage.Load(NotificationsTable)), note, now)]
        && storage.indexes == IndexesAfterSave(old(storage.indexes), RegistrationsTable, registration)
      ensures old(storage.Consistent()) ==> storage.Consistent()
    {
      var reg := NewRegistration(id, data, now);
      registration := SavedRecord(storage.Load(RegistrationsTable), reg, now);
      var _ := storage.Save(RegistrationsTable, reg, now);
      var _ := SendNotification(Notice("registration_submitted", Get(data, "citizenId"), SubmittedMessage), notificationId, now);
    }

    /** `approveRegistration`: a missing registration makes the property write throw
        before anything is stored; otherwise update it, log, and notify the citizen. */
    method ApproveRegistration(registrationId: Option<Value>, gestorId: Option<Value>, now: int,
                               activityId: string, notificationId: string)
      returns (result: Result<Record, ApiError>)
      modifies storage
      ensures old(storage.FindById(RegistrationsTable, registrationId)).None? ==>
        result == Err(TypeError) && storage.tables == old(storage.tables) && storage.indexes == old(storage.indexes)
      ensures old(storage.FindById(RegistrationsTable, registrationId)).Some? ==>
        var reg := old(storage.FindById(RegistrationsTable, registrationId)).value;
        var approved := Approved(reg, gestorId, now);
        var entry := ActivityRecord(activityId, ActivityFields("registration_approved", gestorId, registrationId,
                                    "Inscrição aprovada para " + JsString(Field(reg, "citizenName"))), now);
        var note := NotificationRecord(notificationId, Notice("registration_approved", Field(reg, "citizenId"),
                                       "Sua inscrição para " + JsString(Field(reg, "courseName")) + " foi aprovada!"), now);
        && result == Ok(approved)
        && StoredAs(storage.Load(RegistrationsTable), approved)
        && storage.tables == old(storage.tables)
             [RegistrationsTable := Upsert(old(storage.Load(RegistrationsTable)), approved, now)]
             [ActivitiesTable := Upsert(old(storage.Load(ActivitiesTable)), entry, now)]
             [NotificationsTable := Upsert(old(storage.Load(NotificationsTable)), note, now)]
        && storage.indexes == IndexRegistration(old(storage.indexes), approved)
      ensures old(storage.Consistent()) ==> storage.Consistent()
    {
      var found := storage.FindById(RegistrationsTable, registrationId);
      if found.None? {
        return Err(TypeError);
      }
      var reg := found.value;
      var approved := Approved(reg, gestorId, now);
      DecisionSlot(storage.Load(RegistrationsTable), registrationId, reg, approved, now);
      RecordDecision(reg, approved, now,
                     ActivityFields("registration_approved", gestorId, registrationId,
                                    "Inscrição aprovada para " + JsString(Field(reg, "citizenName"))), activityId,
                     Notice("registration_approved", Field(reg, "citizenId"),
                            "Sua inscrição para " + JsString(Field(reg, "courseName")) + " foi aprovada!"), notificationId);
      result := Ok(approved);
    }

    /** `rejectRegistration`: as approval, recording who rejected it and why. */
    method RejectRegistration(registrationId: Option<Value>, gestorId: Option<Value>, reason: Option<Value>, now: int,
                              activityId: string, notificationId: string)
      returns (result: Result<Record, ApiError>)
      modifies storage
      ensures old(storage.FindById(RegistrationsTable, registrationId)).None? ==>
        result == Err(TypeError) && storage.tables == old(storage.tables) && storage.indexes == old(storage.indexes)
      ensures old(storage.FindById(RegistrationsTable, registrationId)).Some? ==>
        var reg := old(storage.FindById(RegistrationsTable, registrationId)).value;
        var rejected := Rejected(reg, gestorId, reason, now);
        var entry := ActivityRecord(activityId, ActivityFields("registration_rejected", gestorId, registrationId,
                                    "Inscrição rejeitada: " + JsString(reason)), now);
        var note := NotificationRecord(notificationId, Notice("registration_rejected", Field(reg, "citizenId"),
                                       "Sua inscrição foi rejeitada. Motivo: " + JsString(reason)), now);
        && result == Ok(rejected)
        && StoredAs(storage.Load(RegistrationsTable), rejected)
        && storage.tables == old(storage.tables)
             [RegistrationsTable := Upsert(old(storage.Load(RegistrationsTable)), rejected, now)]
             [ActivitiesTable := Upsert(old(storage.Load(ActivitiesTable)), entry, now)]
             [NotificationsTable := Upsert(old(storage.Load(NotificationsTable)), note, now)]
        && storage.indexes == IndexRegistration(old(storage.indexes), rejected)
      ensures old(storage.Consistent()) ==> storage.Consistent()
    {
      var found := storage.FindById(RegistrationsTable, registrationId);
      if found.None? {
        return Err(TypeError);
      }
      var reg := found.value;
      var rejected := Rejected(reg, gestorId, reason, now);
      DecisionSlot(storage.Load(RegistrationsTable), registrationId, reg, rejected, now);
      RecordDecision(reg, rejected, now,
                     ActivityFields("registration_rejected", gestorId, registrationId,
                                    "Inscrição rejeitada: " + JsString(reason)), activityId,
                     Notice("registration_rejected", Field(reg, "citizenId"),
                            "Sua inscrição foi rejeitada. Motivo: " + JsString(reason)), notificationId);
      result := Ok(rejected);
    }

    /** The three writes approval and rejection share: the decided registration
        replaces the stored one, then an activity is logged and the citizen notified. */
    method RecordDecision(reg: Record, decided: Record, now: int,
                          activity: map<string, Value>, activityId: string,
                          notice: map<string, Value>, notificationId: string)
      requires reg in storage.Load(RegistrationsTable) && decided.id == reg.id
      modifies storage
      ensures storage.tables == old(storage.tables)
        [RegistrationsTable := Upsert(old(storage.Load(RegistrationsTable)), decided, now)]
        [ActivitiesTable := Upsert(old(storage.Load(ActivitiesTable)), ActivityRecord(activityId, activity, now), now)]
        [NotificationsTable := Upsert(old(storage.Load(NotificationsTable)), NotificationRecord(notificationId, notice, now), now)]
      ensures storage.indexes == IndexRegistration(old(storage.indexes), decided)
      ensures storage.Load(RegistrationsTable) == Upsert(old(storage.Load(RegistrationsTable)), decided, now)
      ensures old(storage.Consistent()) ==> storage.Consistent()
    {
      ExistingIdIsMerged(storage.Load(RegistrationsTable), reg, decided, now);
      ghost var t0 := storage.tables;
      ghost var activities, notifications := storage.Load(ActivitiesTable), storage.Load(NotificationsTable);
      ghost var decisions := Upsert(storage.Load(RegistrationsTable), decided, now);
      TableNamesDiffer();
      LoadAfterWrite(t0, RegistrationsTable, decisions, ActivitiesTable);
      LoadAfterWrite(t0, RegistrationsTable, decisions, NotificationsTable);
      var _ := storage.Save(RegistrationsTable, decided, now);
      ghost var saved := storage.tables;
      assert saved == t0[RegistrationsTable := decisions];
      ghost var log := Upsert(activities, ActivityRecord(activityId, activity, now), now);
      LoadAfterWrite(saved, ActivitiesTable, log, NotificationsTable);
      var _ := LogActivity(activity, activityId, now);
      assert storage.tables == saved[ActivitiesTable := log];
      var _ := SendNotification(notice, notificationId, now);
      LoadAfterWrite(saved[ActivitiesTable := log], NotificationsTable,
                     Upsert(notifications, NotificationRecord(notificationId, notice, now), now), RegistrationsTable);
      LoadAfterWrite(saved, ActivitiesTable, log, RegistrationsTable);
      LoadAfterWrite(t0, RegistrationsTable, decisions, RegistrationsTable);
    }

    /** `verifyCertificate`: the verdict, and one logged activity when the certificate is valid. */
    method VerifyCertificate(code: Option<Value>, activityId: string, now: int) returns (v: Verification)
      modifies storage
      ensures v == CertificateVerdict(old(storage.Load(CertificatesTable)), code, now)
      ensures v.Invalid? ==> storage.tables == old(storage.tables)
      ensures v.Valid? ==>
        var entry := ActivityRecord(activityId, ActivityFields("certificate_verified", None, Some(Str(v.certificate.id)),
                                    "Certificado verificado: " + JsString(Field(v.certificate, "code"))), now);
        storage.tables == old(storage.tables)[ActivitiesTable := Upsert(old(storage.Load(ActivitiesTable)), entry, now)]
      ensures storage.indexes == old(storage.indexes)
      ensures old(storage.Consistent()) ==> storage.Consistent()
    {
      v := CertificateVerdict(storage.Load(CertificatesTable), code, now);
      if v.Valid? {
        var _ := LogActivity(ActivityFields("certificate_verified", None, Some(Str(v.certificate.id)),
                                            "Certificado verificado: " + JsString(Field(v.certificate, "code"))), activityId, now);
      }
    }

    /** `searchGraduates`: the certified graduates, narrowed criterion by criterion. */
    method SearchGraduates(criteria: map<string, Value>, today: Date) returns (result: Result<seq<Record>, ApiError>)
      ensures var stages := SearchStages(criteria, today);
        var certified := storage.GetCertifiedGraduates();
        && (result.Ok? <==> !Throws(stages, certified))
        && (result.Ok? ==> result.value == Filter(certified, PassesAll(stages)))
    {
      var graduates := storage.GetCertifiedGraduates();
      var stages := SearchStages(criteria, today);
      result := ApplyStage(Ok(graduates), stages[0]);  // competency
      result := ApplyStage(result, stages[1]);          // location
      result := ApplyStage(result, stages[2]);          // experience
      result := ApplyStage(result, stages[3]);          // age range
      result := ApplyStage(result, stages[4]);          // name
      RunFive(graduates, stages);
      RunStagesMeaning(graduates, stages);
    }

    /** A registration with the citizen, course and center it refers to. */
    function Enrich(r: Record): (e: Record)
      reads storage
      ensures e.id == r.id
      ensures Field(e, "citizen") == RecordValue(storage.FindById(CitizensTable, Field(r, "citizenId")))
      ensures Field(e, "course") == RecordValue(storage.FindById(CoursesTable, Field(r, "courseId")))
      ensures Field(e, "center") == RecordValue(storage.FindById(CentersTable, Field(r, "centerId")))
      ensures forall f :: f !in {"citizen", "course", "center"} ==> Field(e, f) == Field(r, f)
    {
      var citizen := RecordValue(storage.FindById(CitizensTable, Field(r, "citizenId")));
      var course := RecordValue(storage.FindById(CoursesTable, Field(r, "courseId")));
      var center := RecordValue(storage.FindById(CentersTable, Field(r, "centerId")));
      Assign(Assign(Assign(r, "citizen", citizen), "course", course), "center", center)
    }

    /** `getRegistrationsForManagement`: the registrations passing the filters,
        in stored order, each with its citizen, course and center. */
    method GetRegistrationsForManagement(filters: map<string, Value>) returns (result: Result<seq<Record>, ApiError>)
      ensures var stages := ManagementStages(filters);
        var all := storage.Load(RegistrationsTable);
        && (result.Ok? <==> !Throws(stages, all))
        && (result.Ok? ==>
              var kept := Filter(all, PassesAll(stages));
              |result.value| == |kept| && forall i :: 0 <= i < |kept| ==> result.value[i] == Enrich(kept[i]))
    {
      var registrations := storage.Load(RegistrationsTable);
      var stages := ManagementStages(filters);
      var searched := ApplyStage(Ok(registrations), stages[0]);  // status
      searched := ApplyStage(searched, stages[1]);                // course
      searched := ApplyStage(searched, stages[2]);                // center
      searched := ApplyStage(searched, stages[3]);                // search text
      RunFour(registrations, stages);
      RunStagesMeaning(registrations, stages);
      if searched.Err? {
        return Err(searched.error);
      }
      var kept := searched.value;
      result := Ok(seq(|kept|, i requires 0 <= i < |kept| reads storage => Enrich(kept[i])));
    }

    /** `getCenters`: the centers matching the given province and status. */
    method GetCenters(filters: map<string, Value>) returns (centers: seq<Record>)
      ensures centers == Filter(storage.Load(CentersTable), PassesAll(CenterStages(filters)))
      ensures forall c :: c in centers <==>
        (c in storage.Load(CentersTable)
         && (Truthy(Get(filters, "province")) ==> StrictEquals(Field(c, "province"), Get(filters, "province")))
         && (Truthy(Get(filters, "status")) ==> StrictEquals(Field(c, "status"), Get(filters, "status"))))
    {
      var all := storage.Load(CentersTable);
      ghost var stages := CenterStages(filters);
      centers := all;
      assert Ok(centers) == RunStages(all, stages[..0]);
      if Truthy(Get(filters, "province")) {
        TryFilterPlain(centers, FieldIs("province", Get(filters, "province")));
        centers := Filter(centers, FieldIs("province", Get(filters, "province")));
      }
      RunOneMore(all, stages, 0);
      assert Ok(centers) == RunStages(all, stages[..1]);
      if Truthy(Get(filters, "status")) {
        TryFilterPlain(centers, FieldIs("status", Get(filters, "status")));
        centers := Filter(centers, FieldIs("status", Get(filters, "status")));
      }
      RunOneMore(all, stages, 1);
      assert stages[..2] == stages;
      PlainStagesNeverThrow(stages, all);
      CentersMeaning(all, filters);
    }

    /** `getCourses`: the courses matching the given area, center and duration. */
    method GetCourses(filters: map<string, Value>) returns (courses: seq<Record>)
      ensures courses == Filter(storage.Load(CoursesTable), PassesAll(CourseStages(filters)))
      ensures forall c :: c in courses <==>
        (c in storage.Load(CoursesTable)
         && (Truthy(Get(filters, "area")) ==> StrictEquals(Field(c, "area"), Get(filters, "area")))
         && (Truthy(Get(filters, "centerId")) ==> StrictEquals(Field(c, "centerId"), Get(filters, "centerId")))
         && (Truthy(Get(filters, "duration")) ==> StrictEquals(Field(c, "duration"), Get(filters, "duration"))))
    {
      var all := storage.Load(CoursesTable);
      ghost var stages := CourseStages(filters);
      courses := all;
      assert Ok(courses) == RunStages(all, stages[..0]);
      if Truthy(Get(filters, "area")) {
        TryFilterPlain(courses, FieldIs("area", Get(filters, "area")));
        courses := Filter(courses, FieldIs("area", Get(filters, "area")));
      }
      RunOneMore(all, stages, 0);
      assert Ok(courses) == RunStages(all, stages[..1]);
      if Truthy(Get(filters, "centerId")) {
        TryFilterPlain(courses, FieldIs("centerId", Get(filters, "centerId")));
        courses := Filter(courses, FieldIs("centerId", Get(filters, "centerId")));
      }
      RunOneMore(all, stages, 1);
      assert Ok(courses) == RunStages(all, stages[..2]);
      if Truthy(Get(filters, "duration")) {
        TryFilterPlain(courses, FieldIs("duration", Get(filters, "duration")));
        courses := Filter(courses, FieldIs("duration", Get(filters, "duration")));
      }
      RunOneMore(all, stages, 2);
      assert stages[..3] == stages;
      PlainStagesNeverThrow(stages, all);
      CoursesMeaning(all, filters);
    }

    /** `getMonthlyRegistrationStats`: one pass over the registrations, counting per month. */
    method GetMonthlyRegistrationStats() returns (result: Result<MonthTally, ApiError>)
      ensures result == Tally(storage.Load(RegistrationsTable))
    {
      var registrations := storage.Load(RegistrationsTable);
      var stats: MonthTally := [];
      var i := 0;
      while i < |registrations|
        invariant 0 <= i <= |registrations|
        invariant TallyBy(registrations[..i], MonthOf()) == Ok(stats)
      {
        var month := MonthKey(Field(registrations[i], "submittedAt"));
        assert month == MonthOf()(registrations[i]);
        if month.Err? {
          TallyStopsAtError(registrations, MonthOf(), i);
          return Err(month.error);
        }
        TallyStep(registrations, MonthOf(), i, stats);
        stats := Bump(stats, month.value);
        i := i + 1;
      }
      assert registrations[..i] == registrations;
      result := Ok(stats);
    }

    /** `getGestorDashboard`: the counts, the 20 newest activities and the monthly tally. */
    method GetGestorDashboard() returns (result: Result<GestorDashboard, ApiError>)
      ensures var registrations := storage.Load(RegistrationsTable);
        && (result.Ok? <==> Tally(registrations).Ok?)
        && (result.Ok? ==> result.value == GestorDashboard(GestorCounts(registrations, storage.Load(CentersTable)),
                                                           storage.GetRecentActivities(20), Tally(registrations).value))
    {
      var stats := GestorCounts(storage.Load(RegistrationsTable), storage.Load(CentersTable));
      var recent := storage.GetRecentActivities(20);
      var monthly := GetMonthlyRegistrationStats();
      if monthly.Err? {
        return Err(monthly.error);
      }
      result := Ok(GestorDashboard(stats, recent, monthly.value));
    }

    /** `getCitizenDashboard`: an unknown citizen makes `citizen.location` throw. */
    function CitizenDashboardOf(citizenId: Option<Value>, withinRadius: Record -> bool): (r: Result<CitizenDashboard, ApiError>)
      reads storage
      ensures storage.FindById(CitizensTable, citizenId).None? ==> r == Err(TypeError)
      ensures r.Err? ==> r.error == TypeError
      ensures r.Ok? <==>
        && storage.FindById(CitizensTable, citizenId).Some?
        && var location := Field(storage.FindById(CitizensTable, citizenId).value, "location");
           var centers := storage.Load(CentersTable);
           !((location == None || location == Some(Null))
             && exists i :: 0 <= i < |centers| && Truthy(Field(centers[i], "location")))
      ensures r.Ok? ==>
        && Some(r.value.citizen) == storage.FindById(CitizensTable, citizenId)
        && r.value.registrations == storage.FindByField(RegistrationsTable, "citizenId", citizenId)
        && r.value.stats == CitizenCounts(r.value.registrations, r.value.nearbyCenters)
        && forall c :: c in r.value.nearbyCenters <==>
             c in storage.Load(CentersTable) && Truthy(Field(c, "location")) && withinRadius(c)
    {
      match storage.FindById(CitizensTable, citizenId)
      case None => Err(TypeError)
      case Some(citizen) =>
        var registrations := storage.FindByField(RegistrationsTable, "citizenId", citizenId);
        match NearbyCenters(storage.Load(CentersTable), Field(citizen, "location"), withinRadius)
        case Err(e) => Err(e)
        case Ok(nearby) => Ok(CitizenDashboard(citizen, registrations, nearby, CitizenCounts(registrations, nearby)))
    }
  }

  /** An id the table already holds is merged in place by `save`. */
  lemma ExistingIdIsMerged(rs: seq<Record>, reg: Record, data: Record, now: int)
    requires reg in rs && data.id == reg.id
    ensures SavedRecord(rs, data, now) == data
  {
    var k :| 0 <= k < |rs| && rs[k] == reg;
    assert HasId(data.id)(rs[k]);
  }

  /** The tally stops at the first record whose key cannot be computed. */
  /** The pass over one more record bumps that record's key. */
  lemma TallyStep(rs: seq<Record>, month: Record -> Result<string, ApiError>, i: int, stats: MonthTally)
    requires 0 <= i < |rs| && TallyBy(rs[..i], month) == Ok(stats) && month(rs[i]).Ok?
    ensures TallyBy(rs[..i + 1], month) == Ok(Bump(stats, month(rs[i]).value))
  {
    assert rs[..i + 1][..i] == rs[..i];
  }

  lemma TallyStopsAtError(rs: seq<Record>, month: Record -> Result<string, ApiError>, i: int)
    requires 0 <= i < |rs| && TallyBy(rs[..i], month).Ok? && month(rs[i]).Err?
    ensures TallyBy(rs, month) == Err(month(rs[i]).error)
  {
    assert rs[..i + 1][..i] == rs[..i];
    if i + 1 < |rs| {
      TallyErrorPersists(rs, month, i + 1);
    } else {
      assert rs[..i + 1] == rs;
    }
  }

  lemma {:induction false} TallyErrorPersists(rs: seq<Record>, month: Record -> Result<string, ApiError>, i: int)
    requires 0 < i <= |rs| && TallyBy(rs[..i], month).Err?
    ensures TallyBy(rs, month) == TallyBy(rs[..i], month)
    decreases |rs| - i
  {
    if i < |rs| {
      assert rs[..i + 1][..i] == rs[..i];
      TallyErrorPersists(rs, month, i + 1);
    } else {
      assert rs[..i] == rs;
    }
  }
}
