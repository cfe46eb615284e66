/** The recommendation engine of the backend controller: a fixed schedule of
    three vaccines is compared with a user's vaccination history, and every
    schedule entry that is due yields one recommendation, due 30 days from
    today. "Today" is a parameter of the model. */
module VaccineController {
  import opened Common
  import opened JsText
  import opened JsArray
  import opened VaccineModel

  datatype Importance = High | Medium

  /** One line of the schedule: the vaccine, the age from which it is due for
      someone who never had it, and the number of years between doses. */
  datatype ScheduleEntry = ScheduleEntry(
    name: string, description: string, dueAge: int, interval: int, importance: Importance)

  datatype Recommendation = Recommendation(
    name: string, description: string, dueDate: Millis, importance: Importance)

  const VaccineSchedule: seq<ScheduleEntry> := [
    ScheduleEntry("Tetanus", "Tetanus booster shot", 30, 10, Importance.High),
    ScheduleEntry("Flu Shot", "Annual influenza vaccine", 0, 1, Importance.Medium),
    ScheduleEntry("Pneumonia", "Pneumococcal vaccine", 65, 5, Importance.Medium)
  ]

  const MsPerDay: int := 1000 * 60 * 60 * 24
  /** The divisor of the elapsed time: a year of 365 days. */
  const MsPerYear: int := MsPerDay * 365

  /** `new Date(y, m, d + 30)` for today's calendar date: the midnight that
      starts the 30th day after today. */
  function DueDate(now: Millis): (d: Millis)
    ensures d % MsPerDay == 0
    ensures now + 29 * MsPerDay < d <= now + 30 * MsPerDay
  {
    (now / MsPerDay + 30) * MsPerDay
  }

  /** `v.name.toLowerCase().includes(schedule.name.toLowerCase())` */
  predicate NameCovers(recordName: string, entryName: string) {
    Includes(ToLowerCase(recordName), ToLowerCase(entryName))
  }

  /** `history[i]` is the first record, in input order, whose name covers the entry's. */
  ghost predicate FirstCovering(history: seq<VaccineRecord>, e: ScheduleEntry, i: int) {
    && 0 <= i < |history| && NameCovers(history[i].name, e.name)
    && forall j :: 0 <= j < i ==> !NameCovers(history[j].name, e.name)
  }

  /** `vaccines.find(...)`: the record taken as the last dose of the entry's vaccine. */
  function PriorRecord(history: seq<VaccineRecord>, e: ScheduleEntry): (r: Option<VaccineRecord>)
    ensures r.None? <==> forall i :: 0 <= i < |history| ==> !NameCovers(history[i].name, e.name)
    ensures r.Some? <==> exists i :: FirstCovering(history, e, i) && r.value == history[i]
  {
    var r := Find(history, (v: VaccineRecord) => NameCovers(v.name, e.name));
    assert r.Some? ==> exists i :: FirstCovering(history, e, i) && r.value == history[i] by {
      if r.Some? {
        var i :| FirstWhere(history, (v: VaccineRecord) => NameCovers(v.name, e.name), i) && history[i] == r.value;
        assert FirstCovering(history, e, i);
      }
    }
    r
  }

  /** A first covering record is the one `find` returns. */
  lemma PriorRecordIsFirst(history: seq<VaccineRecord>, e: ScheduleEntry, i: int)
    requires FirstCovering(history, e, i)
    ensures PriorRecord(history, e) == Some(history[i])
  {
    var r := PriorRecord(history, e);
    assert r.Some? by {
      assert NameCovers(history[i].name, e.name);
    }
    var j :| FirstCovering(history, e, j) && r.value == history[j];
    assert !(j < i) && !(i < j);
  }

  /** The decision of one loop iteration: with no prior record the age must
      reach `dueAge`; otherwise at least `interval` years of 365 days must
      have passed since that record. */
  predicate IsDue(e: ScheduleEntry, history: seq<VaccineRecord>, userAge: int, now: Millis) {
    match PriorRecord(history, e)
    case None => userAge >= e.dueAge
    case Some(v) => now - v.date >= e.interval * MsPerYear
  }

  function RecommendationFor(e: ScheduleEntry, now: Millis): (r: Recommendation)
    ensures r.name == e.name && r.description == e.description && r.importance == e.importance
    ensures r.dueDate == DueDate(now)
  {
    Recommendation(e.name, e.description, DueDate(now), e.importance)
  }

  /** What the loop builds over `schedule`: one recommendation per due entry,
      in schedule order. */
  function Recommend(schedule: seq<ScheduleEntry>, history: seq<VaccineRecord>, userAge: int, now: Millis): seq<Recommendation> {
    Map(Filter(schedule, (e: ScheduleEntry) => IsDue(e, history, userAge, now)),
        (e: ScheduleEntry) => RecommendationFor(e, now))
  }

  /** `generateRecommendations(vaccines, userAge)` run at time `now`. */
  method GenerateRecommendations(vaccines: seq<VaccineRecord>, userAge: int, now: Millis)
    returns (recommendations: seq<Recommendation>)
    ensures recommendations == Recommend(VaccineSchedule, vaccines, userAge, now)
  {
    recommendations := [];
    var i := 0;
    while i < |VaccineSchedule|
      invariant 0 <= i <= |VaccineSchedule|
      invariant recommendations == Recommend(VaccineSchedule[..i], vaccines, userAge, now)
    {
      var schedule := VaccineSchedule[i];
      RecommendStep(VaccineSchedule, vaccines, userAge, now, i);
      ghost var before := recommendations;
      ghost var due := IsDue(schedule, vaccines, userAge, now);
      var lastVaccine := PriorRecord(vaccines, schedule);
      if lastVaccine.None? {
        if userAge >= schedule.dueAge {
          recommendations := recommendations +
            [Recommendation(schedule.name, schedule.description, DueDate(now), schedule.importance)];
        }
      } else {
        var lastDate := lastVaccine.value.date;
        if now - lastDate >= schedule.interval * MsPerYear {
          recommendations := recommendations +
            [Recommendation(schedule.name, schedule.description, DueDate(now), schedule.importance)];
        }
      }
      assert recommendations == before + (if due then [RecommendationFor(schedule, now)] else []);
      i := i + 1;
    }
    assert VaccineSchedule[..i] == VaccineSchedule;
  }

  /** One more schedule entry adds its recommendation exactly when it is due. */
  lemma RecommendStep(schedule: seq<ScheduleEntry>, history: seq<VaccineRecord>, userAge: int, now: Millis, i: int)
    requires 0 <= i < |schedule|
    ensures Recommend(schedule[..i + 1], history, userAge, now) == Recommend(schedule[..i], history, userAge, now)
      + (if IsDue(schedule[i], history, userAge, now) then [RecommendationFor(schedule[i], now)] else [])
  {
    var due := (e: ScheduleEntry) => IsDue(e, history, userAge, now);
    var make := (e: ScheduleEntry) => RecommendationFor(e, now);
    assert schedule[..i + 1] == schedule[..i] + [schedule[i]];
    FilterSnoc(schedule[..i], schedule[i], due);
    MapSnoc(Filter(schedule[..i], due), schedule[i], make);
  }

  // ---------------------------------------------------------------------
  // Properties of the recommendations

  /** Distinct schedule entries have distinct names. */
  lemma ScheduleNamesDistinct()
    ensures DistinctNames(VaccineSchedule)
    ensures Map(VaccineSchedule, (e: ScheduleEntry) => e.name) == ["Tetanus", "Flu Shot", "Pneumonia"]
  {
    assert "Tetanus"[0] == 'T' && "Flu Shot"[0] == 'F' && "Pneumonia"[0] == 'P';
  }

  /** Every schedule interval is at least one year. */
  lemma ScheduleIntervalsPositive()
    ensures forall e :: e in VaccineSchedule ==> e.interval >= 1
  {
  }

  /** At most one recommendation per schedule entry: the names of the
      recommendations are the schedule's names with some left out, in
      schedule order. */
  lemma RecommendationsInScheduleOrder(history: seq<VaccineRecord>, userAge: int, now: Millis)
    ensures var r := Recommend(VaccineSchedule, history, userAge, now);
      && |r| <= 3
      && IsSubsequence(Map(r, (x: Recommendation) => x.name), ["Tetanus", "Flu Shot", "Pneumonia"])
  {
    var due := (e: ScheduleEntry) => IsDue(e, history, userAge, now);
    var kept := Filter(VaccineSchedule, due);
    var r := Recommend(VaccineSchedule, history, userAge, now);
    FilterIsSubsequence(VaccineSchedule, due);
    MapSubsequence(kept, VaccineSchedule, (e: ScheduleEntry) => e.name);
    ScheduleNamesDistinct();
    assert Map(r, (x: Recommendation) => x.name) == Map(kept, (e: ScheduleEntry) => e.name);
  }

  /** Schedule entries are told apart by their names. */
  ghost predicate DistinctNames(schedule: seq<ScheduleEntry>) {
    forall a, b :: 0 <= a < b < |schedule| ==> schedule[a].name != schedule[b].name
  }

  /** A schedule entry is recommended exactly when it is due. */
  lemma RecommendedIffDue(history: seq<VaccineRecord>, userAge: int, now: Millis, k: int)
    requires 0 <= k < |VaccineSchedule|
    ensures RecommendationFor(VaccineSchedule[k], now) in Recommend(VaccineSchedule, history, userAge, now)
      <==> IsDue(VaccineSchedule[k], history, userAge, now)
  {
    ScheduleNamesDistinct();
    RecommendIff(VaccineSchedule, history, userAge, now, k);
  }

  /** In a schedule with distinct names, an entry is recommended exactly when it is due. */
  lemma RecommendIff(schedule: seq<ScheduleEntry>, history: seq<VaccineRecord>, userAge: int, now: Millis, k: int)
    requires DistinctNames(schedule) && 0 <= k < |schedule|
    ensures RecommendationFor(schedule[k], now) in Recommend(schedule, history, userAge, now)
      <==> IsDue(schedule[k], history, userAge, now)
  {
    var e := schedule[k];
    var due := (e: ScheduleEntry) => IsDue(e, history, userAge, now);
    var make := (e: ScheduleEntry) => RecommendationFor(e, now);
    var kept := Filter(schedule, due);
    var r := Recommend(schedule, history, userAge, now);
    if due(e) {
      var i :| 0 <= i < |kept| && kept[i] == e;
      assert r[i] == make(e);
    }
    if make(e) in r {
      var i :| 0 <= i < |r| && r[i] == make(e);
      assert kept[i] in schedule && due(kept[i]);
      var a :| 0 <= a < |schedule| && schedule[a] == kept[i];
      assert schedule[a].name == e.name;
      assert a == k;
    }
  }

  /** Every recommendation copies name, description and importance from a
      due schedule entry, and is due 30 days from today. */
  lemma RecommendationsCopyEntries(history: seq<VaccineRecord>, userAge: int, now: Millis)
    ensures forall x :: x in Recommend(VaccineSchedule, history, userAge, now) ==>
      exists e :: e in VaccineSchedule && IsDue(e, history, userAge, now) && x == RecommendationFor(e, now)
  {
    CopiedEntries(VaccineSchedule, history, userAge, now);
  }

  /** `RecommendationsCopyEntries` for any schedule. */
  lemma CopiedEntries(schedule: seq<ScheduleEntry>, history: seq<VaccineRecord>, userAge: int, now: Millis)
    ensures forall x :: x in Recommend(schedule, history, userAge, now) ==>
      exists e :: e in schedule && IsDue(e, history, userAge, now) && x == RecommendationFor(e, now)
  {
    var due := (e: ScheduleEntry) => IsDue(e, history, userAge, now);
    var kept := Filter(schedule, due);
    var r := Recommend(schedule, history, userAge, now);
    forall x | x in r
      ensures exists e :: e in schedule && IsDue(e, history, userAge, now) && x == RecommendationFor(e, now)
    {
      var i :| 0 <= i < |r| && r[i] == x;
      assert kept[i] in schedule && due(kept[i]);
    }
  }

  /** With no record of the vaccine, it is recommended exactly when the user
      is at least `dueAge` years old. */
  lemma NeverTakenNeedsAge(history: seq<VaccineRecord>, userAge: int, now: Millis, k: int)
    requires 0 <= k < |VaccineSchedule|
    requires forall i :: 0 <= i < |history| ==> !NameCovers(history[i].name, VaccineSchedule[k].name)
    ensures RecommendationFor(VaccineSchedule[k], now) in Recommend(VaccineSchedule, history, userAge, now)
      <==> userAge >= VaccineSchedule[k].dueAge
  {
    RecommendedIffDue(history, userAge, now, k);
  }

  /** With a record of the vaccine, the first such record decides: it is
      recommended exactly when `interval` years of 365 days have passed since it. */
  lemma TakenNeedsInterval(history: seq<VaccineRecord>, userAge: int, now: Millis, k: int, i: int)
    requires 0 <= k < |VaccineSchedule| && FirstCovering(history, VaccineSchedule[k], i)
    ensures RecommendationFor(VaccineSchedule[k], now) in Recommend(VaccineSchedule, history, userAge, now)
      <==> now - history[i].date >= VaccineSchedule[k].interval * MsPerYear
  {
    PriorRecordIsFirst(history, VaccineSchedule[k], i);
    RecommendedIffDue(history, userAge, now, k);
  }

  /** A record dated after today never makes its vaccine due again. */
  lemma FutureRecordNeverDue(history: seq<VaccineRecord>, userAge: int, now: Millis, k: int, i: int)
    requires 0 <= k < |VaccineSchedule| && FirstCovering(history, VaccineSchedule[k], i)
    requires history[i].date > now
    ensures RecommendationFor(VaccineSchedule[k], now) !in Recommend(VaccineSchedule, history, userAge, now)
  {
    ScheduleIntervalsPositive();
    assert VaccineSchedule[k] in VaccineSchedule;
    TakenNeedsInterval(history, userAge, now, k, i);
  }

  /** The controller's fixed age of 30 with an empty history: Tetanus and the
      flu shot are recommended, pneumonia is not. */
  lemma DefaultAgeEmptyHistory(now: Millis)
    ensures Recommend(VaccineSchedule, [], 30, now)
      == [RecommendationFor(VaccineSchedule[0], now), RecommendationFor(VaccineSchedule[1], now)]
  {
    var due := (e: ScheduleEntry) => IsDue(e, [], 30, now);
    assert VaccineSchedule[1..][1..] == [VaccineSchedule[2]];
    assert Filter(VaccineSchedule, due) == [VaccineSchedule[0], VaccineSchedule[1]];
  }
}
