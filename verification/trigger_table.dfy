/**
 The live trigger table kept by the scheduler center: job id to trigger state.
 An id that is absent is not armed. The engine's own success verdicts
 (`AddScheduleJobAsync`, `PauseJob`, `ResumeJob`) are parameters.
 */
module TriggerTable {
  import opened Common

  datatype TriggerState = Normal | Paused

  type Table = map<int, TriggerState>

  /** The status text `GetTriggerStatus` reports for an armed trigger. */
  function Label(s: TriggerState): string {
    match s
    case Normal => "正常"
    case Paused => "暂停"
  }

  lemma LabelInjective(s: TriggerState, u: TriggerState)
    requires Label(s) == Label(u)
    ensures s == u
  {
  }

  /** `IsExistScheduleJobAsync` */
  predicate IsExistScheduleJob(t: Table, id: int) {
    id in t
  }

  /** `GetTriggerStatus`: the live state, or `None` for a job the engine does not hold. */
  function GetTriggerStatus(t: Table, id: int): Option<TriggerState> {
    if id in t then Some(t[id]) else None
  }

  /** `AddScheduleJobAsync`: when the engine accepts, the job runs. */
  function AddScheduleJob(t: Table, id: int, accepted: bool): Table {
    if accepted then t[id := Normal] else t
  }

  /** `StopScheduleJobAsync`: removes the trigger; stopping an absent job changes nothing. */
  function StopScheduleJob(t: Table, id: int): Table {
    t - {id}
  }

  /** `PauseJob` on a running job. */
  function PauseJob(t: Table, id: int, accepted: bool): Table {
    if accepted && id in t then t[id := Paused] else t
  }

  /** `ResumeJob` on a paused job. */
  function ResumeJob(t: Table, id: int, accepted: bool): Table {
    if accepted && id in t then t[id := Normal] else t
  }

  /** Arm, stop, arm again: the job runs, with no residue of the earlier trigger. */
  lemma ArmStopArm(t: Table, id: int)
    ensures GetTriggerStatus(AddScheduleJob(StopScheduleJob(AddScheduleJob(t, id, true), id), id, true), id) == Some(Normal)
    ensures AddScheduleJob(StopScheduleJob(AddScheduleJob(t, id, true), id), id, true) == AddScheduleJob(t, id, true)
  {
  }

  /** Stopping is idempotent. */
  lemma StopIdempotent(t: Table, id: int)
    ensures StopScheduleJob(StopScheduleJob(t, id), id) == StopScheduleJob(t, id)
  {
  }
}
