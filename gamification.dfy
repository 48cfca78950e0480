/** Points for findings (src/gamification.py): a severity table and the one
    database update `award_bug_hunter_points` issues. */
module Gamification {
  import opened Wrappers

  /** `severity_to_points` (lines 20-26). */
  const SeverityToPoints: map<string, nat> :=
    map["critical" := 100, "high" := 50, "medium" := 20, "low" := 10, "info" := 1]

  /** The severities from most to least serious. */
  const Severities: seq<string> := ["critical", "high", "medium", "low", "info"]

  /** `severity_to_points.get(severity, 0)` (line 37). */
  function Points(severity: string): (r: nat)
    ensures r > 0 <==> severity in SeverityToPoints
    ensures severity in SeverityToPoints ==> r == SeverityToPoints[severity]
  {
    if severity in SeverityToPoints then SeverityToPoints[severity] else 0
  }

  const UpdateQuery: string := "UPDATE users SET points = points + ? WHERE id = ?"

  /** A call `db.execute(query, params)`. */
  datatype DbCall<U> = DbCall(query: string, points: nat, userId: U)

  /** `award_bug_hunter_points(user, finding)` (lines 28-42): the update it
      issues, if any. */
  function Award<U>(userId: U, severity: string): (r: Option<DbCall<U>>)
    ensures r.Some? <==> severity in SeverityToPoints
    ensures r.Some? ==> r.value == DbCall(UpdateQuery, SeverityToPoints[severity], userId)
  {
    var points := Points(severity);
    if points > 0 then Some(DbCall(UpdateQuery, points, userId)) else None
  }

  /** The five values of the table, in order; every other severity earns nothing. */
  lemma PointTable(severity: string)
    ensures Points("critical") == 100 && Points("high") == 50 && Points("medium") == 20
    ensures Points("low") == 10 && Points("info") == 1
    ensures severity !in Severities ==> Points(severity) == 0
  {
  }

  /** The table's keys are exactly the listed severities. */
  lemma KeysAreSeverities(severity: string)
    ensures severity in SeverityToPoints <==> severity in Severities
  {
  }

  /** The points strictly decrease from critical to info. */
  lemma PointsDecrease(i: int, j: int)
    requires 0 <= i < j < |Severities|
    ensures Points(Severities[i]) > Points(Severities[j])
  {
  }

  /** An unknown severity issues no update, whoever the user is. */
  lemma UnknownSeverityIgnored<U>(userId: U, severity: string)
    requires severity !in Severities
    ensures Award(userId, severity) == None
  {
  }
}
