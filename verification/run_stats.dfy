/** The statistics record of one run.  The wall-clock `duration` field is not
    part of the model: only the five counters are. */
module RunStatsModel {

  /** The counters an operator may increment while items flow through it.
      `emitted` is not among them: only the driving loop of a run counts it. */
  datatype Counter = Processed | Dropped | Batches | Errors

  /** Counters of one completed run. */
  datatype RunStats = RunStats(processed: nat, emitted: nat, dropped: nat, batches: nat, errors: nat)
}
