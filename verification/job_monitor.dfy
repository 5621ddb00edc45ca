/** src/utils/jobMonitor.js: counters of the jobs run and of their outcomes,
    and the uptime in whole seconds. Times are milliseconds passed in. */
module JobMonitoring {

  /** What getStats returns. */
  datatype Stats = Stats(startTime: int, jobsRun: nat, successfulUploads: nat, failedUploads: nat, uptime: int)

  class JobMonitor {
    const startTime: int
    var jobsRun: nat
    var successfulUploads: nat
    var failedUploads: nat

    /** Every run counted has exactly one outcome. */
    ghost predicate Valid()
      reads this
    {
      jobsRun == successfulUploads + failedUploads
    }

    /** new JobMonitor(): all counters at zero, started now. */
    constructor (now: int)
      ensures Valid() && startTime == now
      ensures jobsRun == 0 && successfulUploads == 0 && failedUploads == 0
    {
      startTime := now;
      jobsRun := 0;
      successfulUploads := 0;
      failedUploads := 0;
    }

    /** logJobRun(success = true): one more run, counted as a success or as
        a failure, never both. */
    method LogJobRun(success: bool := true)
      requires Valid()
      modifies this
      ensures Valid()
      ensures jobsRun == old(jobsRun) + 1
      ensures success ==> successfulUploads == old(successfulUploads) + 1 && failedUploads == old(failedUploads)
      ensures !success ==> failedUploads == old(failedUploads) + 1 && successfulUploads == old(successfulUploads)
    {
      jobsRun := jobsRun + 1;
      if success {
        successfulUploads := successfulUploads + 1;
      } else {
        failedUploads := failedUploads + 1;
      }
    }

    /** getStats(): the counters as they are and the whole seconds since the
        start (Math.floor, which Dafny's division by a positive number
        matches, also for a clock set back before the start). */
    method GetStats(now: int) returns (s: Stats)
      requires Valid()
      ensures s.jobsRun == s.successfulUploads + s.failedUploads
      ensures s.jobsRun == jobsRun && s.successfulUploads == successfulUploads && s.failedUploads == failedUploads
      ensures s.startTime == startTime
      ensures s.uptime * 1000 <= now - startTime < (s.uptime + 1) * 1000
    {
      s := Stats(startTime, jobsRun, successfulUploads, failedUploads, (now - startTime) / 1000);
    }
  }
}
