# ApeVolo administration core in Dafny

This project models the decision logic of the ApeVolo administration back end.
The database, the cache and the Quartz scheduling engine become plain values.
Every action is a function or method from the old state to the new state and
a response.

- **Job scheduling** (`QuartzNetController`, both copies). Two pieces of state
  are kept side by side. The durable job store maps an id to its job definition.
  The live trigger table maps an armed job's id to `Normal` ("正常") or
  `Paused` ("暂停"). Create, Update, Delete, Query, Execute, Pause and Resume
  move both. The verdicts of the store and of the engine are boolean
  parameters. The two copies of the controller make the same decisions. They
  differ only in their error texts: localization keys in one, Chinese literals
  in the other. `Text` renders both. The invariant `Consistent` says that every
  armed job is stored and enabled. Every action preserves it.
- **Job definitions** (`CreateUpdateQuartzNetDto`): the derived trigger mode,
  the `IsEnable` default and the five required members.
- **Authorization** (`PermissionHandler`): the handler's decision as a pure
  function of the request, the scheme verdicts, the claims, the clock, the
  cached session, the admin-bypass setting and the permission list.
- **Online users** (`OnlineUserService`): listing one page of cached sessions
  with their tokens replaced by a digest, forcing sessions out, and exporting.
- **E-mail templates and queue** (`EmailMessageTemplateService`,
  `QueuedEmailService`): uniqueness and existence guards, the query filters,
  and `ResetEmail`'s verification e-mail with the `%captcha%` substitution.
- **Department delete** (`DeptController.Delete`): expansion to whole subtrees,
  and the user and role reference guards.
- **Validators and derived fields**: the positive-id pattern
  `^\+?[1-9]\d*$` of `RoleDeptDto`, `UserDeptDto` and `RoleMenuDto`, and
  `HasChildren`, `Leaf` and `Label` of both `DepartmentDto` copies.

Some things are parameters: the MD5 digest, the captcha generator, the clock,
new row ids and the cache key prefixes. The ORM's row order is given as the
order of a sequence.

Three behaviours of the job controller are worth spelling out:

- A created job whose arming fails stays enabled, and the response is still
  "created".
- Update persists first, and then stops and re-arms the trigger.
- Execute keeps the persisted enabled flag when arming fails or the job is
  already armed.

## Model

| member | source | states |
|---|---|---|
| `QuartzNetDto.TriggerType` | Ape.Volo.IBusiness/Dto/System/CreateUpdateQuartzNetDto.cs:79-81 | The trigger type is always 0 or 1. It is 0 (simple) exactly when `Cron` is null or empty. |
| `QuartzNetDto.Fresh` | Ape.Volo.IBusiness/Dto/System/CreateUpdateQuartzNetDto.cs:96 | A newly constructed DTO is not enabled, is a simple trigger, and fails the required-member validation. |
| `QuartzNetDto.TriggerTypeReadsOnlyCron` | Ape.Volo.IBusiness/Dto/System/CreateUpdateQuartzNetDto.cs:81-91 | Two DTOs with the same `Cron` have the same trigger type, whatever their interval or repeat count. |
| `QuartzNetDto.ValidIsCron` | Ape.Volo.IBusiness/Dto/System/CreateUpdateQuartzNetDto.cs:16-41 | `Cron` is required, so every DTO that passes validation is a cron trigger. |
| `TriggerTable.LabelInjective` | ApeVolo.Api/Controllers/System/QuartzNetController.cs:247-248 | The status texts "正常" and "暂停" tell the two live states apart. |
| `TriggerTable.ArmStopArm` | ApeVolo.Api/Controllers/System/QuartzNetController.cs:105-106 | Arming, stopping and arming again leaves the job running, the same as arming once. |
| `TriggerTable.StopIdempotent` | ApeVolo.Api/Controllers/System/QuartzNetController.cs:110 | Stopping a job twice is the same as stopping it once. |
| `QuartzNetController.TextDistinguishes` | Ape.Volo.Api/Controllers/System/QuartzNetController.cs:204-288 | Within one copy of the controller, two failures with the same fixed text are the same failure. |
| `QuartzNetController.Create` | ApeVolo.Api/Controllers/System/QuartzNetController.cs:62-80 | The response is "created" exactly when the DTO is valid and the store created the record. An invalid DTO gets the model-state error. A valid DTO the store fails to create gets `Error()` and changes nothing. The trigger table changes only for an enabled record. |
| `QuartzNetController.Update` | ApeVolo.Api/Controllers/System/QuartzNetController.cs:94-116 | An invalid DTO gets the model-state error. A valid DTO the store fails to update gets `Error()`, and neither store nor table changes. After a successful update, the job is armed exactly when it is enabled and the engine accepted it, and it is running. No other trigger changes. |
| `QuartzNetController.Delete` | ApeVolo.Api/Controllers/System/QuartzNetController.cs:129-146 | Success comes exactly when some stored job matches and the store deletes. Then exactly the matched jobs leave the store and the table. Otherwise nothing changes. The consistency invariant is kept. |
| `QuartzNetController.Query` | ApeVolo.Api/Controllers/System/QuartzNetController.cs:161-166 | The list keeps its length and its jobs. Each row's status is overwritten with the live status. |
| `QuartzNetController.Execute` | ApeVolo.Api/Controllers/System/QuartzNetController.cs:202-227 | An unknown id changes nothing. Otherwise the enabled flag is persisted first. An armed job is never armed twice. Success comes exactly when the job was unarmed and the engine accepted it. |
| `QuartzNetController.Pause` | ApeVolo.Api/Controllers/System/QuartzNetController.cs:241-258 | Pause succeeds exactly for a stored job whose live status is Normal, when the engine accepts. The store never changes. Every other case reports StopFailure and changes nothing. |
| `QuartzNetController.Resume` | ApeVolo.Api/Controllers/System/QuartzNetController.cs:272-289 | Resume succeeds exactly for a stored job whose live status is Paused, when the engine accepts. The store never changes. Every other case reports RecoveryFailed and changes nothing. |
| `QuartzNetProperties.CreateKeepsConsistent` | Ape.Volo.Api/Controllers/System/QuartzNetController.cs:67-79 | Creating under a fresh id keeps every armed job stored and enabled. |
| `QuartzNetProperties.UpdateKeepsConsistent` | Ape.Volo.Api/Controllers/System/QuartzNetController.cs:99-115 | Updating keeps every armed job stored and enabled. |
| `QuartzNetProperties.ExecuteKeepsConsistent` | ApeVolo.Api/Controllers/System/QuartzNetController.cs:208-224 | Executing keeps every armed job stored and enabled. |
| `QuartzNetProperties.PauseResumeKeepConsistent` | ApeVolo.Api/Controllers/System/QuartzNetController.cs:247-289 | Pausing and resuming keep every armed job stored and enabled. |
| `QuartzNetProperties.CreateIgnoresArming` | Ape.Volo.Api/Controllers/System/QuartzNetController.cs:70-76 | The engine's answer to arming never changes the response or the store of Create. |
| `QuartzNetProperties.DisablingUpdateDisarms` | Ape.Volo.Api/Controllers/System/QuartzNetController.cs:99-112 | A successful update that disables a job leaves it unarmed. |
| `QuartzNetProperties.ExecuteTwiceRefused` | Ape.Volo.Api/Controllers/System/QuartzNetController.cs:208-223 | After a successful Execute, a second Execute reports "already running" and leaves the table unchanged. |
| `QuartzNetProperties.PauseThenResume` | ApeVolo.Api/Controllers/System/QuartzNetController.cs:248-289 | An accepted resume right after a successful pause restores the store and the table. |
| `QuartzNetProperties.WrongStateRefused` | ApeVolo.Api/Controllers/System/QuartzNetController.cs:247-258 | Pausing an unarmed job fails, and so does resuming a running one. Neither changes anything. |
| `QuartzNetProperties.CurrentExecuteTexts` | Ape.Volo.Api/Controllers/System/QuartzNetController.cs:201-223 | The current copy reports "作业调度不存在", "已在运行,请勿重复开启！" and "执行失败,请重试！" in the matching Execute cases. |
| `QuartzNetProperties.CurrentPauseResumeTexts` | Ape.Volo.Api/Controllers/System/QuartzNetController.cs:246-288 | The current copy reports "暂停失败,请重试！" and "恢复失败,请重试！" when it refuses a stored job. |
| `PermissionHandler.Decide` | Ape.Volo.Api/Authentication/Jwt/PermissionHandler.cs:55-251 | There is no success without an HTTP context, after a handled request, or without a principal. The decision succeeds exactly when the reference predicate `Admitted` holds. A bypass grant implies an administrator. |
| `PermissionHandler.ExpiryComesFirst` | Ape.Volo.Api/Authentication/Jwt/PermissionHandler.cs:89-100 | An expired token fails at the expiry check, whatever the cache, setting and permissions say. |
| `PermissionHandler.CacheComesSecond` | Ape.Volo.Api/Authentication/Jwt/PermissionHandler.cs:106-113 | An unexpired principal with no cached session fails at the cache check. |
| `PermissionHandler.AdminBypassSkipsPermissions` | Ape.Volo.Api/Authentication/Jwt/PermissionHandler.cs:119-127 | With the bypass setting on, a cached administrator succeeds, with any permission list. |
| `PermissionHandler.NoPermissionsFail` | Ape.Volo.Api/Authentication/Jwt/PermissionHandler.cs:181-188 | Without the bypass, an empty permission list always fails. |
| `PermissionHandler.IpNeverMatters` | Ape.Volo.Api/Authentication/Jwt/PermissionHandler.cs:133-142 | The remote address and the IP claim never change the decision. |
| `PermissionHandler.CaseInsensitive` | Ape.Volo.Api/Authentication/Jwt/PermissionHandler.cs:183-187 | Paths and methods that differ only in letter case, "post" against "POST" included, are admitted alike. |
| `PermissionHandler.CaseInsensitiveSameCheck` | Ape.Volo.Api/Authentication/Jwt/PermissionHandler.cs:183-187 | When both methods are "POST" or neither is, such requests also fail at the same check. The login-form exemption compares the method with "POST" exactly. |
| `PermissionHandler.UnauthenticatedAlwaysFails` | Ape.Volo.Api/Authentication/Jwt/PermissionHandler.cs:241-251 | Without an authenticated principal every request fails, the login path included. |
| `Common.Lower` | Ape.Volo.Api/Authentication/Jwt/PermissionHandler.cs:61-62 | The result keeps the length and holds no upper-case letter. Each upper-case letter becomes its lower-case partner, and every other character is kept. |
| `Common.LowerIdempotent` | Ape.Volo.Api/Authentication/Jwt/PermissionHandler.cs:183-187 | Lower-casing an already lower-cased text changes nothing, so the handler's lower-cased path compares with the permission ignoring case. |
| `Common.Page` | ApeVolo.Business/Monitor/OnlineUserService.cs:43-45 | A page is the contiguous slice that starts at `(PageIndex-1)*PageSize`, clamped. It holds exactly `PageSize` entries when enough follow, and otherwise all the remaining entries. A non-positive size gives an empty page. |
| `OnlineUserService.Exported` | ApeVolo.Business/Monitor/OnlineUserService.cs:65-74 | Each exported session is the cleared value of a scanned key that has a value. No cached values means no exports. |
| `OnlineUserService.ExportedComplete` | ApeVolo.Business/Monitor/OnlineUserService.cs:65-74 | Every scanned key that has a value contributes its cleared session to the export. |
| `OnlineUserService.ExportedKeepsScanOrder` | ApeVolo.Business/Monitor/OnlineUserService.cs:65-74 | The export follows scan order. Exporting the keys of two consecutive runs gives the first run's export followed by the second's. |
| `OnlineUserService.Query` | ApeVolo.Business/Monitor/OnlineUserService.cs:23-48 | The page is the requested slice of the redacted sessions in scan order. Keys without a value are skipped. Each entry is a cached session with its permissions cleared and its token digested. An empty cache gives an empty page. |
| `OnlineUserService.DropOut` | ApeVolo.Business/Monitor/OnlineUserService.cs:51-57 | Exactly the keys `OnlineKey + id` of the given ids leave the cache. Every other entry stays unchanged. |
| `OnlineUserService.Download` | ApeVolo.Business/Monitor/OnlineUserService.cs:59-78 | The export is one cleared entry per scanned key with a value, in scan order. |
| `EmailMessageTemplateService.Create` | ApeVolo.Business/Message/Email/EmailMessageTemplateService.cs:40-45 | A taken name is refused and nothing changes. Otherwise exactly one row is added when the insert succeeds. |
| `EmailMessageTemplateService.UpdateAsWritten` | ApeVolo.Business/Message/Email/EmailMessageTemplateService.cs:55-69 | This is the update as written. A missing id is refused. An existing row whose name is unchanged gets the store's verdict. A successful update replaces exactly that row. |
| `EmailMessageTemplateService.RenameAlwaysRefused` | ApeVolo.Business/Message/Email/EmailMessageTemplateService.cs:61-66 | As written, every change of name is refused, whatever names the other rows carry. |
| `EmailMessageTemplateService.RenameCounterexample` | ApeVolo.Business/Message/Email/EmailMessageTemplateService.cs:61-66 | Renaming the only template "a" to the free name "b" is refused as written. |
| `EmailMessageTemplateService.Update` | ApeVolo.Business/Message/Email/EmailMessageTemplateService.cs:55-69 | This is the corrected update. It refuses exactly a missing id, or a change to a name another row carries. A successful update replaces that row. |
| `EmailMessageTemplateService.NamesStayUnique` | ApeVolo.Business/Message/Email/EmailMessageTemplateService.cs:40-69 | Create under a fresh id and the corrected update keep template names unique. |
| `EmailMessageTemplateService.FreeRenameAccepted` | ApeVolo.Business/Message/Email/EmailMessageTemplateService.cs:61-69 | The corrected update accepts a rename to a free name. |
| `EmailMessageTemplateService.Delete` | ApeVolo.Business/Message/Email/EmailMessageTemplateService.cs:79-82 | If none of the ids exists, the call is refused and nothing changes. Otherwise exactly the rows with those ids are marked deleted and the call returns true. |
| `EmailMessageTemplateService.DeleteKeepsNames` | ApeVolo.Business/Message/Email/EmailMessageTemplateService.cs:40-45 | A delete only marks rows, so keys, names and name uniqueness survive it. Creating a template under a deleted template's name is still refused. Deleting the same ids again succeeds again and changes nothing. |
| `EmailMessageTemplateService.WhereIsConjunction` | ApeVolo.Business/Message/Email/EmailMessageTemplateService.cs:107-126 | The filter is the conjunction of three tests, each applied only when its criterion is given: name substring, active flag, and an inclusive creation-time range of at least two bounds. |
| `EmailMessageTemplateService.WhereDefaults` | ApeVolo.Business/Message/Email/EmailMessageTemplateService.cs:107-124 | Without criteria, with an empty name or with a single time bound, every row passes. The range includes its ends. |
| `QueuedEmailService.Update` | ApeVolo.Business/Impl/Email/QueuedEmailService.cs:80-90 | It is refused, with "(QueuedEmail)不存在!", exactly when no undeleted row has the id. Otherwise the store's verdict is returned and the row is replaced on success. |
| `QueuedEmailService.Delete` | ApeVolo.Business/Impl/Email/QueuedEmailService.cs:97-104 | It is refused, with "无可删除数据!", when no row has one of the ids. Otherwise the found rows go when the store deletes them. |
| `QueuedEmailService.UpdateSparesOthers` | ApeVolo.Business/Impl/Email/QueuedEmailService.cs:80-90 | An update adds no key and never changes a deleted row. Under any filter, the only row it can newly bring into a listing is the edited one. |
| `QueuedEmailService.DeleteTwiceRefused` | ApeVolo.Business/Impl/Email/QueuedEmailService.cs:97-104 | After a successful delete, deleting the same ids again is refused with "无可删除数据!" and changes nothing. |
| `QueuedEmailService.WhereIsConjunction` | ApeVolo.Business/Impl/Email/QueuedEmailService.cs:115-151 | The filter always excludes deleted rows. Each further test applies only when its criterion is given: id, tries below a positive limit, sender or recipient address or name substring, sent or not sent, and an inclusive time range. |
| `QueuedEmailService.WhereDefaults` | ApeVolo.Business/Impl/Email/QueuedEmailService.cs:115-137 | Deleted rows are never listed. Without criteria every other row is. A row matches its own sender and recipient. |
| `QueuedEmailService.FirstTemplate` | ApeVolo.Business/Impl/Email/QueuedEmailService.cs:168-170 | It picks the first undeleted template with the name in query order, and finds none exactly when no such template exists. |
| `QueuedEmailService.ResetEmail` | ApeVolo.Business/Impl/Email/QueuedEmailService.cs:166-201 | A missing template fails with "<name> 获取邮件模板失败！" and changes nothing. A missing account fails as a null dereference and changes nothing. Once both are found, the insert's verdict is returned. Only a successful insert adds the e-mail, caches the captcha under the address digest for five minutes, and pushes the new id to the front of the mailbox queue. |
| `QueuedEmailService.ResetEmailContents` | ApeVolo.Business/Impl/Email/QueuedEmailService.cs:176-188 | The queued e-mail goes to the given address with zero tries, high priority and no send time. Its body is the template body with each `%captcha%` replaced by the captcha. |
| `QueuedEmailService.BodyWithoutPlaceholder` | ApeVolo.Business/Impl/Email/QueuedEmailService.cs:186 | A template body without the placeholder is sent unchanged. |
| `QueuedEmailService.DeletedTemplateIgnored` | ApeVolo.Business/Impl/Email/QueuedEmailService.cs:168-172 | A deleted template is never used, even when it is the only one with the name. |
| `Common.ReplaceFirst` | ApeVolo.Business/Impl/Email/QueuedEmailService.cs:186 | Ordinal replacement rewrites the first occurrence and continues after it. |
| `Common.ReplaceWithoutOccurrence` | ApeVolo.Business/Impl/Email/QueuedEmailService.cs:186 | Ordinal replacement leaves a string without the pattern unchanged. |
| `DeptController.GetChildIds` | ApeVolo.Api/Controllers/Permission/DeptController.cs:109-110 | The result contains the requested ids and every child of a member. Everything else in it is a child of a member. |
| `DeptController.FirstIn` | ApeVolo.Api/Controllers/Permission/DeptController.cs:113-115 | It finds the first link whose department is in the expanded set, and finds none exactly when no link refers to the set. |
| `DeptController.Delete` | ApeVolo.Api/Controllers/Permission/DeptController.cs:101-131 | The user check comes before the role check. Each refusal names the department of the first offending link and deletes nothing. Success comes exactly when no user and no role refers to the expanded set. The store's delete verdict is ignored: exactly that set is removed when the store deletes it, and success is reported even when it does not. |
| `IdPattern.AcceptedShape` | ApeVolo.IBusiness/Dto/Permission/RoleMenuDto.cs:10 | Accepted texts hold only digits and at most one leading '+'. They never start with a zero digit. They stay accepted without the '+'. |
| `IdPattern.Rejections` | ApeVolo.IBusiness/Dto/Permission/RoleDeptDto.cs:10 | The pattern rejects "", "0", "01", "+", "+0", any '-' sign and any leading zero. It accepts "1" and "+42". |
| `IdPattern.RenderedIdAccepted` | Ape.Volo.IBusiness/Dto/Permission/UserDeptDto.cs:10-11 | A `long` id in decimal form is accepted exactly when it is at least 1. |
| `IdPattern.AcceptedTextRoundTrip` | Ape.Volo.IBusiness/Dto/Permission/UserDeptDto.cs:10 | Every accepted text, without its sign, denotes an id of at least 1, and rendering that id gives the text back. |
| `IdPattern.Digits` | ApeVolo.IBusiness/Dto/Permission/RoleDeptDto.cs:10-11 | The decimal rendering of a natural number is all digits. It has no leading zero unless the number is zero. |
| `IdPattern.ValueOfDigits` | ApeVolo.IBusiness/Dto/Permission/RoleMenuDto.cs:10-11 | Reading back the decimal digits of a number gives the number. |
| `IdPattern.DigitsOfValue` | Ape.Volo.IBusiness/Dto/Permission/UserDeptDto.cs:11 | Rendering the value of a digit text without a leading zero gives the text back. |
| `IdPattern.Validate` | ApeVolo.IBusiness/Dto/Permission/RoleDeptDto.cs:10-11 | An id DTO is valid exactly when its id is at least 1. For an invalid id the message template is "{0}required" on `RoleDeptDto` and the attribute's default template on the others. |
| `DepartmentDto.FlagsPartition` | ApeVolo.IBusiness/Dto/Permission/DepartmentDto.cs:30-32 | `HasChildren` and `Leaf` are never both set. For a non-negative count exactly one is set. |
| `DepartmentDto.DerivedFrom` | Ape.Volo.IBusiness/Dto/Permission/DepartmentDto.cs:25-32 | Only the count decides the flags. Two DTOs get the same label exactly when they have the same name. |

## Findings

| source | as written | input that shows it | evidently intended | confidence | as-written member | corrected member |
|---|---|---|---|---|---|---|
| ApeVolo.Business/Message/Email/EmailMessageTemplateService.cs:61-66 | The duplicate check of `UpdateAsync` looks for a row whose `Id` equals the edited row's own id. That row always exists. | Template 1 named "a", no template named "b"; updating template 1 with name "b" is refused as already existing. | Refuse only when another row already carries the new name, as `CreateAsync` does. | not executed; high | `EmailMessageTemplateService.RenameCounterexample` | `EmailMessageTemplateService.Update` |

`EmailMessageTemplateService.UpdateAsWritten` is the as-written update. Its lemma
`EmailMessageTemplateService.RenameAlwaysRefused` shows the refusal for every
rename. The corrected `EmailMessageTemplateService.Update` keeps names unique
(`NamesStayUnique`) and accepts renames to free names (`FreeRenameAccepted`).

## Left out

- The Quartz engine. Its cron parsing, firing, misfire handling and the
  scheduler-center implementation are not part of this model. The engine is the
  trigger table plus boolean verdicts for add, pause and resume.
- The ORM, Redis and async plumbing. Queries become maps and sequences.
  Their order is given, since the awaits run one after another.
- Model-state validation other than `[Required]` on the job DTO and the id
  pattern. The `IdCollection` checks are not modelled. Invalid input simply
  yields an `Invalid` error.
- Localization. The legacy copy's messages are kept as their keys.
- Excel export and the `Download` and `QueryLog` actions of the job controller.
  They only fetch and format rows.
- The paging product `(PageIndex - 1) * PageSize` is computed on unbounded
  integers. The source computes it in 32 bits.
- `Common.Lower`: it folds only ASCII letters. The source's culture-aware
  lower-casing and case-insensitive comparison cover all of Unicode.
- `QuartzNetDto.ValidIsCron`: white space is the ASCII and Latin-1 set, not
  every Unicode space that `char.IsWhiteSpace` accepts.
- `IdPattern.AcceptedShape`: `\d` is ASCII digits only. .NET's `\d` also
  matches other Unicode decimal digits. A rendered `long` uses ASCII digits
  only, so `IdPattern.RenderedIdAccepted` is exact.
- `PermissionHandler.Decide`: the expiry claim is an integer tick count compared
  with the clock. A claim that is not a number throws in the source, and this
  is not modelled. The local-time conversion is not modelled either.
- `DeptController.GetChildIds`: the department service that computes the
  closure is not part of this model. The contract states a closure: it holds
  the requested ids, it is closed under children, and every other member is a
  child of a member. When parent links form a cycle this does not exclude
  extra cycles.
- `QueuedEmailService.ResetEmail`: a missing e-mail account is reported as a
  null-dereference failure. The random captcha, the digest, the new row's id,
  the clock and the cache key prefix are parameters.
- `EmailMessageTemplateService.Create`, `EmailMessageTemplateService.Update`,
  `EmailMessageTemplateService.WhereIsConjunction` and
  `QueuedEmailService.WhereIsConjunction`: name equality and the substring
  tests are modelled as ordinal comparisons. The database runs these filters
  in SQL, where the column collation decides, and a common collation compares
  without regard to case.
- `IdPattern.Validate`: the error message is given as its template. Filling in
  the member name, or its localized display name, is not modelled.
- `QueuedEmailService.Delete`, `EmailMessageTemplateService.Delete`,
  `EmailMessageTemplateService.Create` and
  `EmailMessageTemplateService.DeleteKeepsNames`: whether the repository's
  lookups skip logically deleted rows depends on code that is not part of this
  model. Only the template lookup of `ResetEmail` filters `IsDeleted == false`
  explicitly (QueuedEmailService.cs:170). Every other lookup treats every
  stored row as found, so a deleted template's name stays taken.
- `QueuedEmailService.Delete` and `QueuedEmailService.DeleteTwiceRefused`: the
  queue's `DeleteEntityListAsync` is read as removing the rows, and its body is
  not part of this model. A logical delete would keep the rows, and then a
  second delete would find them again.
- `CreateAsync`, `UpdateTriesAsync` and `QueryAsync` of the e-mail queue.
  They are plain mapping and paging with no guard.
- `AuditingFilter`, `AutofacRegister`, `CacheSetup` and the thin pass-through
  controllers. They hold no decision logic.
