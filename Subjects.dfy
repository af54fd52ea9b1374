/** The subject record that both copies of the attendance tracker keep
    (`{ id, name, totalClasses, attendedClasses, lastMarked }`), the marking
    step they share and the overall totals (`reduce` over the subject list).
    `lastMarked` is an integer millisecond timestamp; `None` is `null`. */
module Subjects {
  import opened Lists

  /** The once-per-day window, `24 * 3600 * 1000` milliseconds. */
  const DayMs: int := 24 * 3600 * 1000

  datatype Subject = Subject(
    id: string,
    name: string,
    totalClasses: nat,
    attendedClasses: nat,
    lastMarked: Option<int>)

  /** A subject never has more attended classes than classes. */
  predicate WellFormed(s: Subject) {
    s.attendedClasses <= s.totalClasses
  }

  predicate AllWellFormed(ss: seq<Subject>) {
    forall s :: s in ss ==> WellFormed(s)
  }

  /** A freshly added subject: no classes, never marked. */
  function NewSubject(id: string, name: string): Subject {
    Subject(id, name, 0, 0, None)
  }

  /** One accepted mark: one more class, one more attended class iff present, stamped now. */
  function Marked(s: Subject, present: bool, now: int): (m: Subject)
    ensures m.id == s.id && m.name == s.name
    ensures m.totalClasses == s.totalClasses + 1
    ensures m.attendedClasses == s.attendedClasses + (if present then 1 else 0)
    ensures m.lastMarked == Some(now)
    ensures WellFormed(s) ==> WellFormed(m)
  {
    s.(totalClasses := s.totalClasses + 1,
       attendedClasses := s.attendedClasses + (if present then 1 else 0),
       lastMarked := Some(now))
  }

  /** `subjects.reduce((a, b) => a + b.totalClasses, 0)`. */
  function TotalClassesAll(ss: seq<Subject>): nat {
    if ss == [] then 0 else ss[0].totalClasses + TotalClassesAll(ss[1..])
  }

  /** `subjects.reduce((a, b) => a + b.attendedClasses, 0)`. */
  function TotalAttendedAll(ss: seq<Subject>): nat {
    if ss == [] then 0 else ss[0].attendedClasses + TotalAttendedAll(ss[1..])
  }

  /** Both totals add up over a concatenation. */
  lemma {:induction false} TotalsConcat(xs: seq<Subject>, ys: seq<Subject>)
    ensures TotalClassesAll(xs + ys) == TotalClassesAll(xs) + TotalClassesAll(ys)
    ensures TotalAttendedAll(xs + ys) == TotalAttendedAll(xs) + TotalAttendedAll(ys)
  {
    if xs == [] {
      assert xs + ys == ys;
    } else {
      assert (xs + ys)[1..] == xs[1..] + ys;
      TotalsConcat(xs[1..], ys);
    }
  }

  /** Overall, no more classes are attended than held, when that holds per subject. */
  lemma {:induction false} AttendedWithinTotal(ss: seq<Subject>)
    requires AllWellFormed(ss)
    ensures TotalAttendedAll(ss) <= TotalClassesAll(ss)
  {
    if ss != [] {
      assert ss[0] in ss;
      AttendedWithinTotal(ss[1..]);
    }
  }

  /** Replacing the subject at `j` moves each total by exactly the change at `j`. */
  lemma {:induction false} TotalsAfterReplace(ss: seq<Subject>, j: nat, s: Subject)
    requires j < |ss|
    ensures TotalClassesAll(ss[j := s]) == TotalClassesAll(ss) - ss[j].totalClasses + s.totalClasses
    ensures TotalAttendedAll(ss[j := s]) == TotalAttendedAll(ss) - ss[j].attendedClasses + s.attendedClasses
  {
    if j > 0 {
      assert ss[j := s][1..] == ss[1..][j - 1 := s];
      TotalsAfterReplace(ss[1..], j - 1, s);
    } else {
      assert ss[j := s][1..] == ss[1..];
    }
  }

  /** Replacing one subject by its marked version keeps every subject well formed. */
  lemma ReplaceKeepsWellFormed(ss: seq<Subject>, j: nat, s: Subject)
    requires j < |ss| && AllWellFormed(ss) && WellFormed(s)
    ensures AllWellFormed(ss[j := s])
  {
    forall x | x in ss[j := s] ensures WellFormed(x) {
      var k :| 0 <= k < |ss[j := s]| && ss[j := s][k] == x;
      if k != j {
        assert x == ss[k];
      }
    }
  }

  /** `s => s.id !== id`, the predicate both copies filter with on removal. */
  function IdDiffers(id: string): Subject -> bool {
    (s: Subject) => s.id != id
  }

  /** `s => s.id === id`, the predicate `find` uses to locate a subject. */
  function IdIs(id: string): Subject -> bool {
    (s: Subject) => s.id == id
  }

  /** Removing by id keeps exactly the subjects with a different id, and keeps them in order. */
  lemma RemoveById(ss: seq<Subject>, id: string, s: Subject)
    ensures s in Filter(ss, IdDiffers(id)) <==> s in ss && s.id != id
    ensures forall xs, ys :: ss == xs + ys ==>
              Filter(ss, IdDiffers(id)) == Filter(xs, IdDiffers(id)) + Filter(ys, IdDiffers(id))
  {
    FilterMembership(ss, IdDiffers(id), s);
    forall xs, ys | ss == xs + ys
      ensures Filter(ss, IdDiffers(id)) == Filter(xs, IdDiffers(id)) + Filter(ys, IdDiffers(id))
    {
      FilterConcat(xs, ys, IdDiffers(id));
    }
  }

  /** Removing by id keeps every remaining subject well formed. */
  lemma RemoveKeepsWellFormed(ss: seq<Subject>, id: string)
    requires AllWellFormed(ss)
    ensures AllWellFormed(Filter(ss, IdDiffers(id)))
  {
  }
}
