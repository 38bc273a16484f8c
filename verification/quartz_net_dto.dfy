/**
 The job definition as the control layer receives it (`CreateUpdateQuartzNetDto`),
 its model-state validation, and the derived trigger mode.
 */
module QuartzNetDto {
  import opened Common

  /** Trigger modes, as the numeric `TriggerType` property reports them. */
  const SimpleTrigger := 0
  const CronTrigger := 1

  /**
   A job definition. Nullable strings are `Option<string>`; times are ticks.
   The same record is stored as the `QuartzNet` entity (the two map one to one).
   */
  datatype CreateUpdateQuartzNetDto = CreateUpdateQuartzNetDto(
    id: int,
    taskName: Option<string>,
    taskGroup: Option<string>,
    cron: Option<string>,
    assemblyName: Option<string>,
    className: Option<string>,
    description: Option<string>,
    principal: Option<string>,
    alertEmail: Option<string>,
    pauseAfterFailure: bool,
    runTimes: int,
    startTime: Option<int>,
    endTime: Option<int>,
    intervalSecond: int,
    cycleRunTimes: int,
    isEnable: bool,
    runParams: Option<string>)

  /** `TriggerType`: 0 (simple) when no cron expression is given, 1 (cron) otherwise. */
  function TriggerType(d: CreateUpdateQuartzNetDto): (t: int)
    ensures t == SimpleTrigger || t == CronTrigger
    ensures t == SimpleTrigger <==> IsNullOrEmpty(d.cron)
  {
    if IsNullOrEmpty(d.cron) then SimpleTrigger else CronTrigger
  }

  /** A freshly constructed DTO: every reference field null, every number zero, `IsEnable` false. */
  function Fresh(): (d: CreateUpdateQuartzNetDto)
    ensures !d.isEnable
    ensures TriggerType(d) == SimpleTrigger
    ensures !Valid(d)
  {
    CreateUpdateQuartzNetDto(0, None, None, None, None, None, None, None, None,
                             false, 0, None, None, 0, 0, false, None)
  }

  /** Characters `char.IsWhiteSpace` accepts (the ASCII and Latin-1 ones). */
  predicate IsWhiteSpace(c: char) {
    c == ' ' || c == '\t' || c == '\n' || c == '\r' || c == '\U{B}' || c == '\U{C}'
    || c == '\U{85}' || c == '\U{A0}'
  }

  /** `[Required]` on a string: not null, not empty, not only white space. */
  predicate RequiredPresent(s: Option<string>) {
    s.Some? && exists i :: 0 <= i < |s.value| && !IsWhiteSpace(s.value[i])
  }

  /** Model-state validity: the five `[Required]` members are present. */
  predicate Valid(d: CreateUpdateQuartzNetDto) {
    && RequiredPresent(d.taskName)
    && RequiredPresent(d.taskGroup)
    && RequiredPresent(d.cron)
    && RequiredPresent(d.assemblyName)
    && RequiredPresent(d.className)
  }

  /** The trigger mode reads `Cron` alone: interval and repeat count never change it. */
  lemma TriggerTypeReadsOnlyCron(d: CreateUpdateQuartzNetDto, e: CreateUpdateQuartzNetDto)
    requires d.cron == e.cron
    ensures TriggerType(d) == TriggerType(e)
  {
  }

  /** `Cron` is `[Required]`, so every definition that passes validation is a cron trigger. */
  lemma ValidIsCron(d: CreateUpdateQuartzNetDto)
    requires Valid(d)
    ensures TriggerType(d) == CronTrigger
  {
  }
}
