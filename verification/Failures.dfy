/** Why a reconcile fails. */
module Failures {

  datatype Failure =
    | ScheduleFailure(text: string)
    | StartingDeadlineExceeded
    | NoRunPeriodStart
    | CannotBuildJob
    | CannotDelete(job: string, reply: string)
    | CannotCreate(job: string, reply: string)
    | CannotSuspend(job: string, reply: string)
    | CannotUnsuspend(job: string, reply: string)

}
