/**
 Properties that relate several controller actions: the consistency invariant
 between the job store and the trigger table, double execution, pause and
 resume as inverses, and the texts the current copy of the controller reports.
 */
module QuartzNetProperties {
  import opened Common
  import opened QuartzNetDto
  import opened TriggerTable
  import opened QuartzNetController

  /** Creating under a fresh id keeps every armed job stored and enabled. */
  lemma CreateKeepsConsistent(store: Store, table: Table, dto: CreateUpdateQuartzNetDto, newId: int,
                              created: bool, armed: bool)
    requires Consistent(store, table)
    requires newId !in store
    ensures var r := Create(store, table, dto, newId, created, armed);
            Consistent(r.store, r.table)
  {
  }

  /** Updating keeps every armed job stored and enabled: a disabled update always disarms. */
  lemma UpdateKeepsConsistent(store: Store, table: Table, dto: CreateUpdateQuartzNetDto,
                              updated: bool, armed: bool)
    requires Consistent(store, table)
    ensures var r := Update(store, table, dto, updated, armed);
            Consistent(r.store, r.table)
  {
  }

  lemma ExecuteKeepsConsistent(store: Store, table: Table, id: int, updated: bool, armed: bool)
    requires Consistent(store, table)
    ensures var r := Execute(store, table, id, updated, armed);
            Consistent(r.store, r.table)
  {
  }

  lemma PauseResumeKeepConsistent(store: Store, table: Table, id: int, accepted: bool)
    requires Consistent(store, table)
    ensures var r := Pause(store, table, id, accepted);
            Consistent(r.store, r.table)
    ensures var r := Resume(store, table, id, accepted);
            Consistent(r.store, r.table)
  {
  }

  /** The create response does not depend on whether the engine accepted the job. */
  lemma CreateIgnoresArming(store: Store, table: Table, dto: CreateUpdateQuartzNetDto, newId: int,
                            created: bool)
    ensures Create(store, table, dto, newId, created, true).response
            == Create(store, table, dto, newId, created, false).response
    ensures Create(store, table, dto, newId, created, true).store
            == Create(store, table, dto, newId, created, false).store
  {
  }

  /** Saving a disabled definition leaves its job unarmed, whatever its earlier state. */
  lemma DisablingUpdateDisarms(store: Store, table: Table, dto: CreateUpdateQuartzNetDto,
                               updated: bool, armed: bool)
    requires Valid(dto) && updated && !dto.isEnable
    ensures GetTriggerStatus(Update(store, table, dto, updated, armed).table, dto.id) == None
  {
  }

  /** Executing a job that the previous call armed is refused, and no second trigger appears. */
  lemma ExecuteTwiceRefused(store: Store, table: Table, id: int, armed: bool,
                            updated2: bool, armed2: bool)
    requires Execute(store, table, id, true, armed).response == NoContent
    requires updated2
    ensures var first := Execute(store, table, id, true, armed);
            var second := Execute(first.store, first.table, id, updated2, armed2);
            second.response == Error(DoNotTurnOn) && second.table == first.table
  {
  }

  /** A successful pause followed by an accepted resume restores the trigger table. */
  lemma PauseThenResume(store: Store, table: Table, id: int)
    requires Pause(store, table, id, true).response == NoContent
    ensures var p := Pause(store, table, id, true);
            Resume(p.store, p.table, id, true) == Outcome(store, table, NoContent)
  {
  }

  /** Pausing an unarmed job and resuming a running one both fail with the state unchanged. */
  lemma WrongStateRefused(store: Store, table: Table, id: int, accepted: bool)
    requires id in store
    ensures !IsExistScheduleJob(table, id) ==>
              Pause(store, table, id, accepted) == Outcome(store, table, Error(StopFailure))
    ensures GetTriggerStatus(table, id) == Some(Normal) ==>
              Resume(store, table, id, accepted) == Outcome(store, table, Error(RecoveryFailed))
  {
  }

  /** The texts of the current copy of `Execute`. */
  lemma CurrentExecuteTexts(store: Store, table: Table, id: int, updated: bool, armed: bool)
    ensures var r := Execute(store, table, id, updated, armed);
            && (id !in store ==> Text(Current, r.response.message) == Some("作业调度不存在"))
            && (id in store && updated && IsExistScheduleJob(table, id) ==>
                  Text(Current, r.response.message) == Some("已在运行,请勿重复开启！"))
            && (id in store && updated && !IsExistScheduleJob(table, id) && !armed ==>
                  Text(Current, r.response.message) == Some("执行失败,请重试！"))
  {
  }

  /** The texts of the current copy of `Pause` and `Resume` when they refuse a stored job. */
  lemma CurrentPauseResumeTexts(store: Store, table: Table, id: int, accepted: bool)
    requires id in store
    ensures var r := Pause(store, table, id, accepted);
            r.response != NoContent ==> Text(Current, r.response.message) == Some("暂停失败,请重试！")
    ensures var r := Resume(store, table, id, accepted);
            r.response != NoContent ==> Text(Current, r.response.message) == Some("恢复失败,请重试！")
  {
  }
}
