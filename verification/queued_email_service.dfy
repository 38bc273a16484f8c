/**
 The e-mail queue (`QueuedEmailService`): the guards of update and delete,
 the query filter, and `ResetEmail`, which turns a message template into a
 queued verification e-mail, caches its captcha and hands its id to the
 mailbox queue. The queue table, the template rows, the e-mail accounts, the
 cache and the mailbox queue are plain values; the captcha generator, the
 digest, the new row's id and the clock are parameters.
 */
module QueuedEmailService {
  import opened Common
  import EmailMessageTemplateService

  type EmailMessageTemplate = EmailMessageTemplateService.EmailMessageTemplate

  datatype Priority = Low | High

  datatype QueuedEmail = QueuedEmail(
    id: int,
    priority: Priority,
    from: string,
    fromName: Option<string>,
    to: string,
    toName: Option<string>,
    bcc: Option<string>,
    subject: Option<string>,
    body: string,
    sentTries: int,
    sendTime: Option<int>,
    emailAccountId: int,
    createTime: int,
    isDeleted: bool)

  datatype EmailAccount = EmailAccount(id: int, email: string, displayName: Option<string>)

  type Queue = map<int, QueuedEmail>

  datatype Result = Ok(value: bool) | BadRequest(message: string)

  datatype Saved = Saved(queue: Queue, result: Result)

  /** `UpdateAsync`: refused unless a row with the id exists and is not deleted. */
  function Update(q: Queue, dto: QueuedEmail, updated: bool): (r: Saved)
    ensures r.result.BadRequest? <==> dto.id !in q || q[dto.id].isDeleted
    ensures r.result.BadRequest? ==> r == Saved(q, BadRequest("(QueuedEmail)不存在!"))
    ensures r.result.Ok? ==> r.result.value == updated
    ensures r.result == Ok(true) ==> r.queue == q[dto.id := dto]
    ensures r.result != Ok(true) ==> r.queue == q
  {
    if dto.id !in q || q[dto.id].isDeleted then Saved(q, BadRequest("(QueuedEmail)不存在!"))
    else if updated then Saved(q[dto.id := dto], Ok(true))
    else Saved(q, Ok(false))
  }

  /**
   `DeleteAsync`: refused when no row has one of the ids; otherwise the rows
   found are deleted together, when the store accepts the delete.
   */
  function Delete(q: Queue, ids: set<int>, deleted: bool): (r: Saved)
    ensures q.Keys * ids == {} ==> r == Saved(q, BadRequest("无可删除数据!"))
    ensures q.Keys * ids != {} ==> r.result == Ok(deleted)
    ensures r.result == Ok(true) ==> r.queue.Keys == q.Keys - ids
    ensures forall k :: k in r.queue ==> k in q && r.queue[k] == q[k]
    ensures r.result != Ok(true) ==> r.queue == q
  {
    if q.Keys * ids == {} then Saved(q, BadRequest("无可删除数据!"))
    else if deleted then Saved(q - ids, Ok(true))
    else Saved(q, Ok(false))
  }

  /**
   An update never touches a deleted row, and the only row it can bring into
   a listing is the edited one.
   */
  lemma UpdateSparesOthers(q: Queue, dto: QueuedEmail, updated: bool, c: Criteria)
    ensures var r := Update(q, dto, updated);
            && r.queue.Keys <= q.Keys
            && (forall k :: k in q && q[k].isDeleted ==> r.queue[k] == q[k])
            && (forall k :: k in r.queue && WhereExpression(c)(r.queue[k]) ==> r.queue[k] == q[k] || r.queue[k] == dto)
  {
  }

  /** After a successful delete, deleting the same ids again is refused and changes nothing. */
  lemma DeleteTwiceRefused(q: Queue, ids: set<int>, deleted: bool)
    requires Delete(q, ids, true).result == Ok(true)
    ensures var once := Delete(q, ids, true).queue;
            Delete(once, ids, deleted) == Saved(once, BadRequest("无可删除数据!"))
  {
  }

  /** The query criteria; a null or empty value, a non-positive try limit or fewer than two times are no filter. */
  datatype Criteria = Criteria(
    id: Option<int>,
    maxTries: int,
    from: Option<string>,
    to: Option<string>,
    isSend: Option<bool>,
    createTime: seq<int>)

  /** A nullable display name contains the text. */
  predicate NameContains(name: Option<string>, text: string) {
    name.Some? && Contains(name.value, text)
  }

  /** The filter of `QueryAsync`: non-deleted rows, narrowed by one conjunct per criterion given. */
  function WhereExpression(c: Criteria): QueuedEmail -> bool {
    var live := (e: QueuedEmail) => !e.isDeleted;
    var byId := if c.id.Some? then AndAlso(live, (e: QueuedEmail) => e.id == c.id.value) else live;
    var byTries := if c.maxTries > 0 then AndAlso(byId, (e: QueuedEmail) => e.sentTries < c.maxTries) else byId;
    var byFrom :=
      if !IsNullOrEmpty(c.from) then
        AndAlso(byTries, (e: QueuedEmail) => Contains(e.from, c.from.value) || NameContains(e.fromName, c.from.value))
      else byTries;
    var byTo :=
      if !IsNullOrEmpty(c.to) then
        AndAlso(byFrom, (e: QueuedEmail) => Contains(e.to, c.to.value) || NameContains(e.toName, c.to.value))
      else byFrom;
    var bySend :=
      if c.isSend == Some(true) then AndAlso(byTo, (e: QueuedEmail) => e.sendTime.Some?)
      else if c.isSend == Some(false) then AndAlso(byTo, (e: QueuedEmail) => e.sendTime.None?)
      else byTo;
    if |c.createTime| > 1 then
      AndAlso(bySend, (e: QueuedEmail) => c.createTime[0] <= e.createTime && e.createTime <= c.createTime[1])
    else bySend
  }

  /** The filter is exactly the conjunction of "not deleted" and the criteria that are given. */
  lemma WhereIsConjunction(c: Criteria, e: QueuedEmail)
    ensures WhereExpression(c)(e) <==>
              && !e.isDeleted
              && (c.id.None? || e.id == c.id.value)
              && (c.maxTries <= 0 || e.sentTries < c.maxTries)
              && (IsNullOrEmpty(c.from) || Contains(e.from, c.from.value) || NameContains(e.fromName, c.from.value))
              && (IsNullOrEmpty(c.to) || Contains(e.to, c.to.value) || NameContains(e.toName, c.to.value))
              && (c.isSend.None? || (c.isSend.value <==> e.sendTime.Some?))
              && (|c.createTime| <= 1 || c.createTime[0] <= e.createTime <= c.createTime[1])
  {
  }

  /** Deleted rows are never listed; with no criteria every other row is. */
  lemma WhereDefaults(e: QueuedEmail)
    ensures e.isDeleted ==> !WhereExpression(Criteria(None, 0, None, None, None, []))(e)
    ensures !e.isDeleted ==> WhereExpression(Criteria(None, 0, None, None, None, []))(e)
    ensures !e.isDeleted ==> WhereExpression(Criteria(None, 0, Some(e.from), Some(e.to), None, []))(e)
  {
    ContainsItself(e.from);
    ContainsItself(e.to);
  }

  /** The placeholder in a template body that the captcha replaces. */
  const CaptchaPlaceholder: string := "%captcha%"

  /** The captcha lifetime in the cache, five minutes. */
  const CaptchaLifetimeSeconds: int := 5 * 60

  datatype CacheEntry = CacheEntry(value: string, lifetimeSeconds: int)

  /** The state `ResetEmail` touches besides the templates and accounts. */
  datatype Mail = Mail(queue: Queue, cache: map<string, CacheEntry>, mailbox: seq<int>)

  datatype Reset = Reset(mail: Mail, result: Result)

  /** The first template row in query order that is not deleted and has the name. */
  function FirstTemplate(rows: seq<EmailMessageTemplate>, name: string): (r: Option<EmailMessageTemplate>)
    ensures r.None? <==> forall i :: 0 <= i < |rows| ==> rows[i].isDeleted || rows[i].name != name
    ensures r.Some? ==> exists i :: 0 <= i < |rows| && rows[i] == r.value
                                    && (forall j :: 0 <= j < i ==> rows[j].isDeleted || rows[j].name != name)
    ensures r.Some? ==> !r.value.isDeleted && r.value.name == name
  {
    if |rows| == 0 then None
    else if !rows[0].isDeleted && rows[0].name == name then Some(rows[0])
    else
      var r := FirstTemplate(rows[1..], name);
      assert r.Some? ==> exists i :: 0 <= i < |rows| && rows[i] == r.value
                                    && (forall j :: 0 <= j < i ==> rows[j].isDeleted || rows[j].name != name) by {
        if r.Some? {
          var i :| 0 <= i < |rows[1..]| && rows[1..][i] == r.value
                   && (forall j :: 0 <= j < i ==> rows[1..][j].isDeleted || rows[1..][j].name != name);
          assert rows[i + 1] == r.value;
          forall j | 0 <= j < i + 1
            ensures rows[j].isDeleted || rows[j].name != name
          {
            if j > 0 {
              assert rows[j] == rows[1..][j - 1];
            }
          }
        }
      }
      assert r.None? ==> forall i :: 0 <= i < |rows| ==> rows[i].isDeleted || rows[i].name != name by {
        if r.None? {
          forall i | 0 <= i < |rows|
            ensures rows[i].isDeleted || rows[i].name != name
          {
            if i > 0 {
              assert rows[i] == rows[1..][i - 1];
            }
          }
        }
      }
      r
  }

  /** The verification e-mail built from a template, an account and a captcha. */
  function Compose(t: EmailMessageTemplate, account: EmailAccount, address: string, captcha: string,
                   newId: int, now: int): QueuedEmail
  {
    QueuedEmail(
      id := newId,
      priority := High,
      from := account.email,
      fromName := account.displayName,
      to := address,
      toName := None,
      bcc := t.bccEmailAddresses,
      subject := t.subject,
      body := Replace(t.body, CaptchaPlaceholder, captcha),
      sentTries := 0,
      sendTime := None,
      emailAccountId := account.id,
      createTime := now,
      isDeleted := false)
  }

  /** The failure text when no template has the name. */
  function TemplateMissing(name: string): string {
    name + " 获取邮件模板失败！"
  }

  /** The failure when the template's account is missing: the source dereferences null. */
  const AccountMissing: string := "NullReferenceException"

  /**
   `ResetEmail`: find the template, build the e-mail, insert it, and only when
   the insert succeeds cache the captcha under the address's digest and push
   the new id onto the front of the mailbox queue.
   */
  function ResetEmail(m: Mail, rows: seq<EmailMessageTemplate>, accounts: map<int, EmailAccount>,
                      address: string, templateName: string,
                      captcha: string, md5: string -> string, captchaKey: string,
                      newId: int, now: int, inserted: bool): (r: Reset)
    ensures FirstTemplate(rows, templateName).None? ==>
              r == Reset(m, BadRequest(TemplateMissing(templateName)))
    ensures r.result.Ok? ==>
              && FirstTemplate(rows, templateName).Some?
              && FirstTemplate(rows, templateName).value.emailAccountId in accounts
              && r.result.value == inserted
    ensures (FirstTemplate(rows, templateName).Some? &&
             FirstTemplate(rows, templateName).value.emailAccountId in accounts) ==>
              r.result == Ok(inserted)
    ensures (FirstTemplate(rows, templateName).Some? &&
             FirstTemplate(rows, templateName).value.emailAccountId !in accounts) ==>
              r == Reset(m, BadRequest(AccountMissing))
    ensures r.result != Ok(true) ==> r.mail == m
    ensures r.result == Ok(true) ==>
              var t := FirstTemplate(rows, templateName).value;
              && r.mail.queue == m.queue[newId := Compose(t, accounts[t.emailAccountId], address, captcha, newId, now)]
              && r.mail.cache == m.cache[captchaKey + md5(address) := CacheEntry(captcha, CaptchaLifetimeSeconds)]
              && r.mail.mailbox == [newId] + m.mailbox
  {
    match FirstTemplate(rows, templateName)
    case None => Reset(m, BadRequest(TemplateMissing(templateName)))
    case Some(t) =>
      if t.emailAccountId !in accounts then Reset(m, BadRequest(AccountMissing))
      else
        var e := Compose(t, accounts[t.emailAccountId], address, captcha, newId, now);
        if !inserted then Reset(m, Ok(false))
        else
          var key := captchaKey + md5(e.to);
          var cache := (m.cache - {key})[key := CacheEntry(captcha, CaptchaLifetimeSeconds)];
          Reset(Mail(m.queue[newId := e], cache, [e.id] + m.mailbox), Ok(true))
  }

  /**
   The queued e-mail is addressed to the given address, has never been tried,
   carries high priority, and its body is the template body with the first
   placeholder (and every later one) replaced by the captcha.
   */
  lemma ResetEmailContents(m: Mail, rows: seq<EmailMessageTemplate>, accounts: map<int, EmailAccount>,
                           address: string, templateName: string,
                           captcha: string, md5: string -> string, captchaKey: string,
                           newId: int, now: int,
                           prefix: string, rest: string)
    requires ResetEmail(m, rows, accounts, address, templateName, captcha, md5, captchaKey, newId, now, true).result == Ok(true)
    requires FirstTemplate(rows, templateName).value.body == prefix + CaptchaPlaceholder + rest
    requires forall i :: 0 <= i < |prefix| ==> !OccursAt(prefix + CaptchaPlaceholder + rest, CaptchaPlaceholder, i)
    ensures var e := ResetEmail(m, rows, accounts, address, templateName, captcha, md5, captchaKey, newId, now, true).mail.queue[newId];
            && e.to == address
            && e.sentTries == 0
            && e.priority == High
            && e.sendTime.None?
            && e.body == prefix + captcha + Replace(rest, CaptchaPlaceholder, captcha)
  {
    ReplaceFirst(prefix, CaptchaPlaceholder, rest, captcha);
  }

  /** A template body without the placeholder is sent as it is. */
  lemma BodyWithoutPlaceholder(t: EmailMessageTemplate, account: EmailAccount, address: string,
                               captcha: string, newId: int, now: int)
    requires !Contains(t.body, CaptchaPlaceholder)
    ensures Compose(t, account, address, captcha, newId, now).body == t.body
  {
    ReplaceWithoutOccurrence(t.body, CaptchaPlaceholder, captcha);
  }

  /** A deleted template is never used, even when it is the only one with the name. */
  lemma DeletedTemplateIgnored(m: Mail, t: EmailMessageTemplate, accounts: map<int, EmailAccount>,
                               address: string, captcha: string, md5: string -> string,
                               captchaKey: string, newId: int, now: int, inserted: bool)
    requires t.isDeleted
    ensures ResetEmail(m, [t], accounts, address, t.name, captcha, md5, captchaKey, newId, now, inserted)
            == Reset(m, BadRequest(TemplateMissing(t.name)))
  {
  }
}
