/**
 The job-scheduling control actions of `QuartzNetController`: each action takes
 the durable job store and the live trigger table and yields both, updated,
 with the HTTP response. The store's and the engine's own verdicts (did the
 insert/update/delete succeed, did the engine accept the job) are parameters.

 The two copies of the controller make the same decisions and differ only in
 the text of their error messages; `Text` renders a `Message` for each copy.
 */
module QuartzNetController {
  import opened Common
  import opened QuartzNetDto
  import opened TriggerTable

  /** The stored entity maps one to one onto the create/update DTO. */
  type QuartzNet = CreateUpdateQuartzNetDto

  /** The durable job store: id to job definition. */
  type Store = map<int, QuartzNet>

  datatype Message =
    | Unspecified     // `Error()` with no text
    | Invalid         // model-state errors
    | NotExist
    | RetryFailure
    | DoNotTurnOn
    | StopFailure
    | RecoveryFailed

  datatype Response = Created | NoContent | Success | Error(message: Message)

  /** Which copy of the controller renders the message. */
  datatype Copy = Legacy | Current

  datatype Outcome = Outcome(store: Store, table: Table, response: Response)

  /** A row of the job list: the stored job and the live status written over it. */
  datatype Row = Row(job: QuartzNet, triggerStatus: Option<TriggerState>)

  /** The fixed text of a message: a localization key in the legacy copy, a literal in the current one. */
  function Text(copy: Copy, m: Message): Option<string> {
    match (copy, m)
    case (_, Unspecified) => None
    case (_, Invalid) => None
    case (Legacy, NotExist) => Some("{0}NotExist")
    case (Legacy, RetryFailure) => Some("{0}RetryFailure")
    case (Legacy, DoNotTurnOn) => Some("{0}DoNotTurnOn")
    case (Legacy, StopFailure) => Some("StopFailure")
    case (Legacy, RecoveryFailed) => Some("RecoveryFailed")
    case (Current, NotExist) => Some("作业调度不存在")
    case (Current, RetryFailure) => Some("执行失败,请重试！")
    case (Current, DoNotTurnOn) => Some("已在运行,请勿重复开启！")
    case (Current, StopFailure) => Some("暂停失败,请重试！")
    case (Current, RecoveryFailed) => Some("恢复失败,请重试！")
  }

  /** Within either copy, distinct fixed messages have distinct texts, so both copies report the same decisions. */
  lemma TextDistinguishes(copy: Copy, m: Message, n: Message)
    requires Text(copy, m).Some? && Text(copy, m) == Text(copy, n)
    ensures m == n
  {
  }

  /** Every stored job sits under its own id, and every armed job is stored and enabled. */
  predicate Consistent(store: Store, table: Table) {
    && (forall id :: id in store ==> store[id].id == id)
    && (forall id :: id in table ==> id in store && store[id].isEnable)
  }

  /**
   `Create`: validate, insert, and arm the created job only if it is enabled.
   `created` is whether the store returned the new record; `armed` is the
   engine's answer to `AddScheduleJobAsync`, which the response ignores.
   */
  function Create(store: Store, table: Table, dto: CreateUpdateQuartzNetDto, newId: int,
                  created: bool, armed: bool): (r: Outcome)
    ensures r.response == Created <==> Valid(dto) && created
    ensures !Valid(dto) ==> r.response == Error(Invalid)
    ensures Valid(dto) && !created ==> r == Outcome(store, table, Error(Unspecified))
    ensures !r.response.Created? ==> r.store == store && r.table == table
    ensures r.response.Created? ==>
              && r.store == store[newId := dto.(id := newId)]
              && (dto.isEnable ==> r.table == AddScheduleJob(table, newId, armed))
              && (!dto.isEnable ==> r.table == table)
  {
    if !Valid(dto) then Outcome(store, table, Error(Invalid))
    else if !created then Outcome(store, table, Error(Unspecified))
    else
      var job := dto.(id := newId);
      var table' := if job.isEnable then AddScheduleJob(table, newId, armed) else table;
      Outcome(store[newId := job], table', Created)
  }

  /**
   `Update`: validate and persist; on success the job's trigger is always
   stopped and re-added only when the new definition is enabled.
   */
  function Update(store: Store, table: Table, dto: CreateUpdateQuartzNetDto,
                  updated: bool, armed: bool): (r: Outcome)
    ensures r.response == NoContent <==> Valid(dto) && updated
    ensures !Valid(dto) ==> r.response == Error(Invalid)
    ensures Valid(dto) && !updated ==> r == Outcome(store, table, Error(Unspecified))
    ensures !r.response.NoContent? ==> r.store == store && r.table == table
    ensures r.response.NoContent? ==>
              && r.store == store[dto.id := dto]
              && (IsExistScheduleJob(r.table, dto.id) <==> dto.isEnable && armed)
              && (IsExistScheduleJob(r.table, dto.id) ==> GetTriggerStatus(r.table, dto.id) == Some(Normal))
              && r.table - {dto.id} == table - {dto.id}
  {
    if !Valid(dto) then Outcome(store, table, Error(Invalid))
    else if !updated then Outcome(store, table, Error(Unspecified))
    else
      var stopped := StopScheduleJob(table, dto.id);
      var table' := if dto.isEnable then AddScheduleJob(stopped, dto.id, armed) else stopped;
      Outcome(store[dto.id := dto], table', NoContent)
  }

  /**
   `Delete`: find the stored jobs among `ids`; when there is at least one and
   the store deletes them, stop each deleted job's trigger.
   */
  method Delete(store: Store, table: Table, ids: set<int>, deleted: bool) returns (r: Outcome)
    ensures r.response == Success <==> store.Keys * ids != {} && deleted
    ensures !r.response.Success? ==> r == Outcome(store, table, Error(Unspecified))
    ensures r.response.Success? ==>
              && (forall id :: id in r.store <==> id in store && id !in ids)
              && (forall id :: id in r.store ==> r.store[id] == store[id])
              && (forall id :: IsExistScheduleJob(r.table, id) <==>
                                 IsExistScheduleJob(table, id) && !(id in store && id in ids))
              && (forall id :: id in r.table ==> id in table && r.table[id] == table[id])
    ensures Consistent(store, table) ==> Consistent(r.store, r.table)
  {
    var matched := store.Keys * ids;
    if matched == {} || !deleted {
      return Outcome(store, table, Error(Unspecified));
    }
    var store' := store - matched;
    var table' := table;
    var pending := matched;
    while pending != {}
      invariant pending <= matched
      invariant table' == table - (matched - pending)
      decreases pending
    {
      NonEmptyHasElement(pending);
      var job :| job in pending;
      table' := StopScheduleJob(table', job);
      pending := pending - {job};
    }
    return Outcome(store', table', Success);
  }

  /** `Query`: overwrite each listed row's status with the live one; nothing else changes. */
  method Query(rows: seq<Row>, table: Table) returns (listed: seq<Row>)
    ensures |listed| == |rows|
    ensures forall i :: 0 <= i < |rows| ==>
              listed[i].job == rows[i].job
              && listed[i].triggerStatus == GetTriggerStatus(table, rows[i].job.id)
  {
    listed := [];
    var i := 0;
    while i < |rows|
      invariant 0 <= i <= |rows|
      invariant |listed| == i
      invariant forall k :: 0 <= k < i ==>
                  listed[k].job == rows[k].job
                  && listed[k].triggerStatus == GetTriggerStatus(table, rows[k].job.id)
    {
      listed := listed + [rows[i].(triggerStatus := GetTriggerStatus(table, rows[i].job.id))];
      i := i + 1;
    }
  }

  /**
   `Execute`: enable and persist the job, then arm it unless it is already armed.
   The enabled flag stays persisted on every error path after the store update.
   */
  function Execute(store: Store, table: Table, id: int, updated: bool, armed: bool): (r: Outcome)
    ensures id !in store ==> r == Outcome(store, table, Error(NotExist))
    ensures id in store && !updated ==> r == Outcome(store, table, Error(Unspecified))
    ensures id in store && updated ==> r.store == store[id := store[id].(isEnable := true)]
    ensures IsExistScheduleJob(table, id) ==> r.table == table
    ensures id in store && updated && IsExistScheduleJob(table, id) ==> r.response == Error(DoNotTurnOn)
    ensures r.response == NoContent <==> id in store && updated && !IsExistScheduleJob(table, id) && armed
    ensures r.response == NoContent ==> r.table == table[id := Normal]
    ensures r.response != NoContent ==> r.table == table
    ensures r.response == Error(RetryFailure) <==> id in store && updated && !IsExistScheduleJob(table, id) && !armed
  {
    if id !in store then Outcome(store, table, Error(NotExist))
    else if !updated then Outcome(store, table, Error(Unspecified))
    else
      var store' := store[id := store[id].(isEnable := true)];
      if IsExistScheduleJob(table, id) then Outcome(store', table, Error(DoNotTurnOn))
      else if armed then Outcome(store', AddScheduleJob(table, id, true), NoContent)
      else Outcome(store', table, Error(RetryFailure))
  }

  /** `Pause`: only a stored job whose live status is Normal, and only if the engine accepts. */
  function Pause(store: Store, table: Table, id: int, accepted: bool): (r: Outcome)
    ensures r.store == store
    ensures r.response == NoContent <==>
              id in store && GetTriggerStatus(table, id) == Some(Normal) && accepted
    ensures r.response == NoContent ==> r.table == table[id := Paused]
    ensures r.response != NoContent ==> r.table == table
    ensures id !in store ==> r.response == Error(NotExist)
    ensures id in store && r.response != NoContent ==> r.response == Error(StopFailure)
  {
    if id !in store then Outcome(store, table, Error(NotExist))
    else if GetTriggerStatus(table, id) == Some(Normal)
            && IsExistScheduleJob(table, id) && accepted then
      Outcome(store, PauseJob(table, id, true), NoContent)
    else Outcome(store, table, Error(StopFailure))
  }

  /** `Resume`: only a stored job whose live status is Paused, and only if the engine accepts. */
  function Resume(store: Store, table: Table, id: int, accepted: bool): (r: Outcome)
    ensures r.store == store
    ensures r.response == NoContent <==>
              id in store && GetTriggerStatus(table, id) == Some(Paused) && accepted
    ensures r.response == NoContent ==> r.table == table[id := Normal]
    ensures r.response != NoContent ==> r.table == table
    ensures id !in store ==> r.response == Error(NotExist)
    ensures id in store && r.response != NoContent ==> r.response == Error(RecoveryFailed)
  {
    if id !in store then Outcome(store, table, Error(NotExist))
    else if GetTriggerStatus(table, id) == Some(Paused)
            && IsExistScheduleJob(table, id) && accepted then
      Outcome(store, ResumeJob(table, id, true), NoContent)
    else Outcome(store, table, Error(RecoveryFailed))
  }
}
