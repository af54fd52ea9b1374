/** The browser copy of the attendance tracker: rounded percentages, the
    classes needed to reach 75%, the once-per-24-hours rule, the reminder's
    pending list and the subject list kept in page state (`Tracker`). */
module AttendancePage {
  import opened Lists
  import opened Text
  import opened Subjects

  // ---------------------------------------------------------------------------
  // Percentage and classes needed
  // ---------------------------------------------------------------------------

  /** `Math.round` on an exact rational: the nearest integer, halves rounded up. */
  function Round(x: real): (r: int)
    ensures x - 0.5 < r as real <= x + 0.5
  {
    (x + 0.5).Floor
  }

  /** `calcPercentage`: 0 with no classes, else `Math.round(attended / total * 100)`. */
  function CalcPercentage(attended: nat, total: nat): int {
    if total == 0 then 0 else Round((attended as real / total as real) * 100.0)
  }

  /** For a positive total the rounded percentage is the integer `(200a + t) div 2t`. */
  lemma CalcPercentageInIntegers(attended: nat, total: nat)
    requires total > 0
    ensures CalcPercentage(attended, total) == (200 * attended + total) / (2 * total)
  {
    var x := (attended as real / total as real) * 100.0;
    var n := (200 * attended + total) / (2 * total);
    assert n * (2 * total) <= 200 * attended + total < (n + 1) * (2 * total);
    var y := x + 0.5;
    assert y * (2 * total) as real == (200 * attended + total) as real;
    assert n as real * (2 * total) as real <= y * (2 * total) as real;
    assert y * (2 * total) as real < (n + 1) as real * (2 * total) as real;
    assert n as real <= y < n as real + 1.0;
  }

  /** The rounded percentage stays in [0, 100] while attended <= total. */
  lemma CalcPercentageBounds(attended: nat, total: nat)
    requires attended <= total
    ensures 0 <= CalcPercentage(attended, total) <= 100
  {
    if total > 0 {
      var q := attended as real / total as real;
      assert q * total as real == attended as real;
      assert 0.0 <= q <= 1.0;
    }
  }

  /** The rounded percentage reads 75 or more exactly when `attended / total >= 74.5%`. */
  lemma CalcPercentageAtLeast75(attended: nat, total: nat)
    requires total > 0
    ensures CalcPercentage(attended, total) >= 75 <==> 200 * attended >= 149 * total
  {
    CalcPercentageInIntegers(attended, total);
    var m, d := 200 * attended + total, 2 * total;
    var n := m / d;
    assert m == d * n + m % d && 0 <= m % d < d;
    if n >= 75 {
      MulMonotone(75, n, d);
    } else {
      MulMonotone(n + 1, 75, d);
    }
  }

  lemma MulMonotone(x: int, y: int, d: nat)
    requires x <= y
    ensures x * d <= y * d
  {
    assert y * d - x * d == (y - x) * d;
  }

  /** `classesNeededToReach75` as written, with the target 0.75 and `total || 1`. */
  function ClassesNeededToReach75(attended: nat, total: nat): nat {
    var target := 0.75;
    if attended as real / (if total == 0 then 1 else total) as real >= target then 0
    else
      var numerator := target * total as real - attended as real;
      var denom := 1.0 - target;
      var n := -((-(numerator / denom)).Floor);
      if n < 0 then 0 else n
  }

  /** Because 0.75 and 0.25 are exact, the result is `3 * total - 4 * attended`
      below 75% and 0 otherwise (and 0 with no classes). */
  lemma ClassesNeededToReach75Closed(attended: nat, total: nat)
    ensures ClassesNeededToReach75(attended, total) ==
            if total == 0 || 4 * attended >= 3 * total then 0 else 3 * total - 4 * attended
  {
    var d := if total == 0 then 1 else total;
    var q := attended as real / d as real;
    assert q * d as real == attended as real;
    assert q >= 0.75 <==> 4 * attended >= 3 * d;
    var numerator := 0.75 * total as real - attended as real;
    assert numerator / 0.25 == (3 * total - 4 * attended) as real;
  }

  /** `n` further presents bring the ratio to 75%. */
  predicate Reaches75(attended: nat, total: nat, n: nat) {
    4 * (attended + n) >= 3 * (total + n)
  }

  /** The result is the least number of consecutive presents that brings the
      ratio to 75%. */
  lemma ClassesNeededToReach75IsLeast(attended: nat, total: nat)
    ensures Reaches75(attended, total, ClassesNeededToReach75(attended, total))
    ensures forall m: nat :: m < ClassesNeededToReach75(attended, total) ==> !Reaches75(attended, total, m)
  {
    ClassesNeededToReach75Closed(attended, total);
  }

  // ---------------------------------------------------------------------------
  // The once-per-24-hours rule and the reminder
  // ---------------------------------------------------------------------------

  /** `canMark`: never marked, or marked at least a day ago. */
  predicate CanMark(s: Subject, now: int) {
    s.lastMarked.None? || now - s.lastMarked.value >= DayMs
  }

  function MarkableAt(now: int): Subject -> bool {
    (s: Subject) => CanMark(s, now)
  }

  /** The hourly reminder's `pending` list. */
  function Pending(ss: seq<Subject>, now: int): seq<Subject> {
    Filter(ss, MarkableAt(now))
  }

  /** The pending subjects are exactly those that can be marked now, in list order. */
  lemma PendingExactly(ss: seq<Subject>, now: int, s: Subject)
    ensures s in Pending(ss, now) <==> s in ss && CanMark(s, now)
    ensures forall xs, ys :: ss == xs + ys ==> Pending(ss, now) == Pending(xs, now) + Pending(ys, now)
  {
    FilterMembership(ss, MarkableAt(now), s);
    forall xs, ys | ss == xs + ys ensures Pending(ss, now) == Pending(xs, now) + Pending(ys, now) {
      FilterConcat(xs, ys, MarkableAt(now));
    }
  }

  // ---------------------------------------------------------------------------
  // The "needed" line under each subject
  // ---------------------------------------------------------------------------

  datatype NeededText = OnTrack | StartAttending | AttendNext(classes: nat)

  /** `getNeededText` as written: the rounded percentage is compared with 75
      before the zero-total case. */
  function GetNeededText(s: Subject): NeededText {
    var pct := CalcPercentage(s.attendedClasses, s.totalClasses);
    var needed := ClassesNeededToReach75(s.attendedClasses, s.totalClasses);
    if pct >= 75 then OnTrack
    else if s.totalClasses == 0 then StartAttending
    else AttendNext(needed)
  }

  /** As written, "On track" means a rounded 75%, i.e. at least 74.5%. */
  lemma GetNeededTextOnTrackIff(s: Subject)
    ensures GetNeededText(s) == OnTrack <==> s.totalClasses > 0 && 200 * s.attendedClasses >= 149 * s.totalClasses
  {
    if s.totalClasses > 0 {
      CalcPercentageAtLeast75(s.attendedClasses, s.totalClasses);
    }
  }

  /** 50 of 67 classes is 74.6%: the page says "On track" although one more
      class is still needed to reach 75%. */
  lemma GetNeededTextOnTrackBelow75()
    ensures GetNeededText(Subject("s", "Maths", 67, 50, None)) == OnTrack
    ensures ClassesNeededToReach75(50, 67) == 1
    ensures 100 * 50 < 75 * 67
  {
    GetNeededTextOnTrackIff(Subject("s", "Maths", 67, 50, None));
    ClassesNeededToReach75Closed(50, 67);
  }

  /** The evidently intended line: "On track" exactly when no further class is
      needed, judged on the exact ratio. */
  function GetNeededTextExact(s: Subject): NeededText {
    var needed := ClassesNeededToReach75(s.attendedClasses, s.totalClasses);
    if s.totalClasses > 0 && needed == 0 then OnTrack
    else if s.totalClasses == 0 then StartAttending
    else AttendNext(needed)
  }

  /** With the exact test, "On track" holds iff the ratio is at least 75%, and
      otherwise the line names the (positive) number of classes still needed. */
  lemma GetNeededTextExactMeaning(s: Subject)
    ensures GetNeededTextExact(s) == OnTrack <==>
            s.totalClasses > 0 && 100 * s.attendedClasses >= 75 * s.totalClasses
    ensures GetNeededTextExact(s).AttendNext? ==>
            GetNeededTextExact(s).classes == 3 * s.totalClasses - 4 * s.attendedClasses > 0
    ensures GetNeededTextExact(s) == StartAttending <==> s.totalClasses == 0
  {
    ClassesNeededToReach75Closed(s.attendedClasses, s.totalClasses);
  }

  // ---------------------------------------------------------------------------
  // Subject list operations
  // ---------------------------------------------------------------------------

  /** `subjects.some(s => s.name.toLowerCase() === name.toLowerCase())`. */
  predicate HasNameIgnoringCase(ss: seq<Subject>, name: string) {
    exists s :: s in ss && EqualsIgnoringCase(s.name, name)
  }

  datatype AddOutcome = Ignored | Duplicate(name: string) | Added(subject: Subject)

  /** What `addSubject` does with the text typed so far: ignore a blank name,
      refuse one already present ignoring case, or create a fresh subject
      named by the trimmed text. */
  function AddDecision(ss: seq<Subject>, input: string, freshId: string): (o: AddOutcome)
    ensures o.Ignored? <==> forall k :: 0 <= k < |input| ==> IsWhitespace(input[k])
    ensures o.Duplicate? <==> Trim(input) != "" && HasNameIgnoringCase(ss, Trim(input))
    ensures o.Duplicate? ==> o.name == Trim(input) && exists s :: s in ss && EqualsIgnoringCase(s.name, o.name)
    ensures o.Added? <==> Trim(input) != "" && !HasNameIgnoringCase(ss, Trim(input))
    ensures o.Added? ==>
              && o.subject == NewSubject(freshId, Trim(input))
              && o.subject.name != "" && Trim(o.subject.name) == o.subject.name
              && forall s :: s in ss ==> !EqualsIgnoringCase(s.name, o.subject.name)
  {
    TrimEmptyIff(input);
    TrimIdempotent(input);
    var name := Trim(input);
    if name == "" then Ignored
    else if HasNameIgnoringCase(ss, name) then Duplicate(name)
    else Added(NewSubject(freshId, name))
  }

  /** No two subjects carry the same name ignoring case. */
  predicate NamesDistinct(ss: seq<Subject>) {
    forall i, j :: 0 <= i < |ss| && 0 <= j < |ss| && i != j ==> !EqualsIgnoringCase(ss[i].name, ss[j].name)
  }

  /** Putting one subject in front keeps the names distinct iff its name is new. */
  lemma NamesDistinctCons(s: Subject, ss: seq<Subject>)
    ensures NamesDistinct([s] + ss) <==> NamesDistinct(ss) && forall x :: x in ss ==> !EqualsIgnoringCase(s.name, x.name)
  {
    var l := [s] + ss;
    if NamesDistinct(l) {
      forall i, j | 0 <= i < |ss| && 0 <= j < |ss| && i != j ensures !EqualsIgnoringCase(ss[i].name, ss[j].name) {
        assert l[i + 1] == ss[i] && l[j + 1] == ss[j];
      }
      forall x | x in ss ensures !EqualsIgnoringCase(s.name, x.name) {
        var k :| 0 <= k < |ss| && ss[k] == x;
        assert l[0] == s && l[k + 1] == x;
      }
    }
  }

  /** Removal by id keeps the names distinct. */
  lemma {:induction false} RemoveKeepsNamesDistinct(ss: seq<Subject>, id: string)
    requires NamesDistinct(ss)
    ensures NamesDistinct(Filter(ss, IdDiffers(id)))
  {
    if ss != [] {
      assert ss == [ss[0]] + ss[1..];
      NamesDistinctCons(ss[0], ss[1..]);
      RemoveKeepsNamesDistinct(ss[1..], id);
      if IdDiffers(id)(ss[0]) {
        forall x | x in Filter(ss[1..], IdDiffers(id)) ensures !EqualsIgnoringCase(ss[0].name, x.name) {
          FilterMembership(ss[1..], IdDiffers(id), x);
        }
        NamesDistinctCons(ss[0], Filter(ss[1..], IdDiffers(id)));
      }
    }
  }

  /** One subject after `markAttendance(id, present)`: only a subject with that
      id that can be marked changes. */
  function MarkOne(s: Subject, id: string, present: bool, now: int): Subject {
    if s.id != id then s
    else if !CanMark(s, now) then s
    else Marked(s, present, now)
  }

  /** `prev.map(...)` in `markAttendance`. */
  function MarkEach(ss: seq<Subject>, id: string, present: bool, now: int): (r: seq<Subject>)
    ensures |r| == |ss|
  {
    seq(|ss|, k requires 0 <= k < |ss| => MarkOne(ss[k], id, present, now))
  }

  /** The subjects a mark actually changes. */
  function MarkTarget(id: string, now: int): Subject -> bool {
    (s: Subject) => s.id == id && CanMark(s, now)
  }

  /** Marking touches no subject with another id, nor one marked less than a
      day ago; a markable subject with that id is marked; names and ids stay. */
  lemma MarkEachChanges(ss: seq<Subject>, id: string, present: bool, now: int)
    ensures forall k :: 0 <= k < |ss| && !MarkTarget(id, now)(ss[k]) ==> MarkEach(ss, id, present, now)[k] == ss[k]
    ensures forall k :: 0 <= k < |ss| && MarkTarget(id, now)(ss[k]) ==>
              MarkEach(ss, id, present, now)[k] == Marked(ss[k], present, now)
    ensures AllWellFormed(ss) ==> AllWellFormed(MarkEach(ss, id, present, now))
    ensures NamesDistinct(ss) ==> NamesDistinct(MarkEach(ss, id, present, now))
  {
    var r := MarkEach(ss, id, present, now);
    forall s | s in r && AllWellFormed(ss) ensures WellFormed(s) {
      var k :| 0 <= k < |r| && r[k] == s;
      assert ss[k] in ss;
    }
  }

  /** The totals grow by the number of subjects the mark changes (in attended
      classes, only when present). */
  lemma {:induction false} MarkEachTotals(ss: seq<Subject>, id: string, present: bool, now: int)
    ensures TotalClassesAll(MarkEach(ss, id, present, now)) ==
            TotalClassesAll(ss) + |Filter(ss, MarkTarget(id, now))|
    ensures TotalAttendedAll(MarkEach(ss, id, present, now)) ==
            TotalAttendedAll(ss) + (if present then |Filter(ss, MarkTarget(id, now))| else 0)
  {
    if ss != [] {
      assert MarkEach(ss, id, present, now)[1..] == MarkEach(ss[1..], id, present, now);
      MarkEachTotals(ss[1..], id, present, now);
    }
  }

  /** A subject that a mark changed is left alone by any mark in the following
      day: the once-per-day rule. */
  lemma MarkTwiceWithinDay(ss: seq<Subject>, id: string, p1: bool, p2: bool, now: int, later: int)
    requires now <= later < now + DayMs
    ensures forall k :: 0 <= k < |ss| && MarkTarget(id, now)(ss[k]) ==>
              MarkEach(MarkEach(ss, id, p1, now), id, p2, later)[k] == MarkEach(ss, id, p1, now)[k]
  {
  }

  /** `overallPct`: the rounded percentage of the two sums. */
  function OverallPercentage(ss: seq<Subject>): int {
    CalcPercentage(TotalAttendedAll(ss), TotalClassesAll(ss))
  }

  /** The overall percentage is 0 with no classes and lies in [0, 100]. */
  lemma OverallPercentageBounds(ss: seq<Subject>)
    requires AllWellFormed(ss)
    ensures TotalClassesAll(ss) == 0 ==> OverallPercentage(ss) == 0
    ensures 0 <= OverallPercentage(ss) <= 100
  {
    AttendedWithinTotal(ss);
    CalcPercentageBounds(TotalAttendedAll(ss), TotalClassesAll(ss));
  }

  // ---------------------------------------------------------------------------
  // Page state
  // ---------------------------------------------------------------------------

  /** The page's `subjects` list and the `newSubject` input. */
  class Tracker {
    var subjects: seq<Subject>
    var newSubject: string

    /** Every subject well formed and no two names equal ignoring case. */
    ghost predicate Valid()
      reads this
    {
      AllWellFormed(subjects) && NamesDistinct(subjects)
    }

    constructor()
      ensures subjects == [] && newSubject == "" && Valid()
    {
      subjects := [];
      newSubject := "";
    }

    /** The input's `onChange`. */
    method SetNewSubject(value: string)
      modifies this`newSubject
      ensures newSubject == value
    {
      newSubject := value;
    }

    /** `addSubject`: on success the new subject is put first and the input is cleared. */
    method AddSubject(freshId: string) returns (outcome: AddOutcome)
      modifies this
      ensures outcome == AddDecision(old(subjects), old(newSubject), freshId)
      ensures outcome.Added? ==> subjects == [outcome.subject] + old(subjects) && newSubject == ""
      ensures !outcome.Added? ==> subjects == old(subjects) && newSubject == old(newSubject)
      ensures old(Valid()) ==> Valid()
    {
      var name := Trim(newSubject);
      if name == "" {
        assert AddDecision(subjects, newSubject, freshId) == Ignored;
        return Ignored;
      }
      if exists s :: s in subjects && EqualsIgnoringCase(s.name, name) {
        assert AddDecision(subjects, newSubject, freshId) == Duplicate(name);
        return Duplicate(name);
      }
      var s := NewSubject(freshId, name);
      assert AddDecision(subjects, newSubject, freshId) == Added(s);
      ghost var before := subjects;
      subjects := [s] + subjects;
      if AllWellFormed(before) && NamesDistinct(before) {
        assert forall x :: x in before ==> !EqualsIgnoringCase(s.name, x.name);
        NamesDistinctCons(s, before);
      }
      newSubject := "";
      outcome := Added(s);
    }

    /** `removeSubject`: keeps the subjects whose id differs. */
    method RemoveSubject(id: string)
      modifies this`subjects
      ensures subjects == Filter(old(subjects), IdDiffers(id))
      ensures old(Valid()) ==> Valid()
    {
      if NamesDistinct(subjects) {
        RemoveKeepsNamesDistinct(subjects, id);
      }
      subjects := Filter(subjects, IdDiffers(id));
    }

    /** `markAttendance`: every subject with that id that can be marked is marked. */
    method MarkAttendance(id: string, present: bool, now: int)
      modifies this`subjects
      ensures subjects == MarkEach(old(subjects), id, present, now)
      ensures old(Valid()) ==> Valid()
    {
      MarkEachChanges(subjects, id, present, now);
      subjects := MarkEach(subjects, id, present, now);
    }
  }
}
