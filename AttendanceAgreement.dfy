/** The server and the page implement the same attendance rules separately.
    These lemmas show where the two copies agree. */
module AttendanceAgreement {
  import opened Subjects
  import AttendanceBackend
  import AttendancePage

  /** The page's rounded percentage is the server's exact percentage, rounded. */
  lemma PercentagesAgree(attended: nat, total: nat)
    ensures AttendancePage.CalcPercentage(attended, total) ==
            AttendancePage.Round(AttendanceBackend.AttendancePercentage(attended, total))
  {
  }

  /** At 75% both copies ask for the same number of classes. */
  lemma ClassesNeededAgree(attended: nat, total: nat)
    ensures AttendanceBackend.ClassesNeededToReach(attended, total, 75) ==
            AttendancePage.ClassesNeededToReach75(attended, total)
  {
    AttendanceBackend.ClassesNeededAt75(attended, total);
    AttendancePage.ClassesNeededToReach75Closed(attended, total);
  }

  /** The server refuses a mark exactly when the page's `canMark` is false. */
  lemma MarkRuleAgrees(s: Subject, now: int)
    ensures AttendanceBackend.MarkedWithinDay(s, now) <==> !AttendancePage.CanMark(s, now)
  {
  }

  /** A subject the server has just marked is refused by both copies for the rest of the day. */
  lemma MarkedSubjectWaitsADay(s: Subject, present: bool, now: int, later: int)
    requires now <= later
    ensures AttendanceBackend.MarkedWithinDay(Marked(s, present, now), later) <==> later < now + DayMs
    ensures AttendancePage.CanMark(Marked(s, present, now), later) <==> later >= now + DayMs
  {
  }
}
