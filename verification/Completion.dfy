/** How a trainee's progress on one node is read: a status and a percentage from the same facts. */
module Completion {
  datatype CompletionStatus = CompletedStatus | InProgressStatus | NotStartedStatus

  /** The fields of a progress row that the derivations use. */
  datatype ProgressRow = ProgressRow(readPercent: int, studyCompleted: bool, quizPassed: bool, quizAttempts: int)

  datatype Snapshot = Snapshot(facts: ProgressRow, status: CompletionStatus, percentage: int)

  function ComputeProgressPercentage(row: ProgressRow, hasQuiz: bool): (p: int)
    ensures p == 0 || p == 50 || p == 100
    ensures p == 100 <==> IsLearningUnitComplete(row, hasQuiz)
    ensures p == 100 <==> row.studyCompleted && (hasQuiz ==> row.quizPassed)
    ensures p == 50 <==> hasQuiz && row.studyCompleted != row.quizPassed
  {
    if !hasQuiz then
      if row.studyCompleted then 100 else 0
    else
      (if row.studyCompleted then 50 else 0) + (if row.quizPassed then 50 else 0)
  }

  function ComputeCompletionStatus(row: ProgressRow, hasQuiz: bool): (status: CompletionStatus)
    ensures status == CompletedStatus <==> row.studyCompleted && (hasQuiz ==> row.quizPassed)
    ensures status == NotStartedStatus <==>
              status != CompletedStatus && row.readPercent <= 0 && row.quizAttempts <= 0
  {
    if hasQuiz && row.studyCompleted && row.quizPassed then CompletedStatus
    else if !hasQuiz && row.studyCompleted then CompletedStatus
    else if row.readPercent > 0 || row.quizAttempts > 0 then InProgressStatus
    else NotStartedStatus
  }

  predicate IsLearningUnitComplete(row: ProgressRow, hasQuiz: bool) {
    ComputeCompletionStatus(row, hasQuiz) == CompletedStatus
  }

  /** `_progress_snapshot_from_row`: status and percentage never disagree about being finished. */
  function SnapshotFromRow(row: ProgressRow, hasQuiz: bool): (s: Snapshot)
    ensures s.facts == row
    ensures s.percentage == 100 <==> s.status == CompletedStatus
    ensures 0 <= s.percentage <= 100
  {
    Snapshot(row, ComputeCompletionStatus(row, hasQuiz), ComputeProgressPercentage(row, hasQuiz))
  }
}
