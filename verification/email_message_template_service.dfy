/**
 The e-mail message templates (`EmailMessageTemplateService`): the guards of
 create, update and delete over the template table, and the query filter.
 The table is a map from id to row. The name and id checks here carry no
 filter on the logical-delete flag, unlike the template lookup of
 `QueuedEmailService.ResetEmail`, which asks for `IsDeleted == false`
 itself; so the model lets deleted rows take part in the name checks.
 */
module EmailMessageTemplateService {
  import opened Common

  datatype EmailMessageTemplate = EmailMessageTemplate(
    id: int,
    name: string,
    bccEmailAddresses: Option<string>,
    subject: Option<string>,
    body: string,
    isActive: bool,
    emailAccountId: int,
    createTime: int,
    isDeleted: bool)

  type Templates = map<int, EmailMessageTemplate>

  datatype Failure =
    | IsExist(name: string)   // "{0}{1}IsExist"
    | DataNotExist            // "DataNotExist"

  datatype Result = Ok(value: bool) | BadRequest(failure: Failure)

  datatype Saved = Saved(templates: Templates, result: Result)

  /** Every row sits under its own id. */
  predicate WellKeyed(ts: Templates) {
    forall k :: k in ts ==> ts[k].id == k
  }

  /** No two rows share a name. */
  predicate UniqueNames(ts: Templates) {
    forall j, k :: j in ts && k in ts && ts[j].name == ts[k].name ==> j == k
  }

  /** Some row carries the name. */
  predicate NameTaken(ts: Templates, name: string) {
    exists k :: k in ts && ts[k].name == name
  }

  /** Some row carries the id (a query on the `Id` column). */
  predicate IdPresent(ts: Templates, id: int) {
    exists k :: k in ts && ts[k].id == id
  }

  /**
   `CreateAsync`: refused when a row already has the name; otherwise exactly
   one row is added when the insert succeeds.
   */
  function Create(ts: Templates, dto: EmailMessageTemplate, newId: int, inserted: bool): (r: Saved)
    ensures NameTaken(ts, dto.name) ==> r == Saved(ts, BadRequest(IsExist(dto.name)))
    ensures !NameTaken(ts, dto.name) ==> r.result == Ok(inserted)
    ensures !NameTaken(ts, dto.name) && inserted ==> r.templates == ts[newId := dto.(id := newId)]
    ensures !inserted ==> r.templates == ts
  {
    if NameTaken(ts, dto.name) then Saved(ts, BadRequest(IsExist(dto.name)))
    else if inserted then Saved(ts[newId := dto.(id := newId)], Ok(true))
    else Saved(ts, Ok(false))
  }

  /**
   `UpdateAsync` as written: the duplicate check looks for a row with the
   edited row's own id, so it fires on every change of name.
   */
  function UpdateAsWritten(ts: Templates, dto: EmailMessageTemplate, updated: bool): (r: Saved)
    ensures dto.id !in ts ==> r == Saved(ts, BadRequest(DataNotExist))
    ensures r.result.Ok? ==> dto.id in ts && r.result == Ok(updated)
    ensures dto.id in ts && ts[dto.id].name == dto.name ==> r.result == Ok(updated)
    ensures r.result.Ok? && updated ==> r.templates == ts[dto.id := dto]
    ensures !(r.result.Ok? && updated) ==> r.templates == ts
  {
    if dto.id !in ts then Saved(ts, BadRequest(DataNotExist))
    else
      var current := ts[dto.id];
      if current.name != dto.name && IdPresent(ts, current.id) then
        Saved(ts, BadRequest(IsExist(current.name)))
      else if updated then Saved(ts[dto.id := dto], Ok(true))
      else Saved(ts, Ok(false))
  }

  /** The as-written duplicate check refuses every rename of a row that sits under its own id. */
  lemma RenameAlwaysRefused(ts: Templates, dto: EmailMessageTemplate, updated: bool)
    requires WellKeyed(ts)
    requires dto.id in ts && ts[dto.id].name != dto.name
    ensures UpdateAsWritten(ts, dto, updated) == Saved(ts, BadRequest(IsExist(ts[dto.id].name)))
  {
    assert ts[dto.id].id == dto.id;
  }

  /** A concrete instance: renaming the only template "a" to "b" is refused although no "b" exists. */
  lemma RenameCounterexample()
    ensures var t := EmailMessageTemplate(1, "a", None, None, "body", true, 7, 0, false);
            var ts := map[1 := t];
            && !NameTaken(ts, "b")
            && UpdateAsWritten(ts, t.(name := "b"), true).result == BadRequest(IsExist("a"))
  {
    var t := EmailMessageTemplate(1, "a", None, None, "body", true, 7, 0, false);
    var ts := map[1 := t];
    assert IdPresent(ts, 1) by { assert ts[1].id == 1; }
  }

  /**
   `UpdateAsync` with the duplicate check on the new name, as the other
   services do: refused when the id is missing, or when the name changes to
   one another row already carries.
   */
  function Update(ts: Templates, dto: EmailMessageTemplate, updated: bool): (r: Saved)
    ensures dto.id !in ts ==> r == Saved(ts, BadRequest(DataNotExist))
    ensures r.result.BadRequest? <==>
              dto.id !in ts || (ts[dto.id].name != dto.name && NameTaken(ts, dto.name))
    ensures r.result.Ok? ==> r.result == Ok(updated)
    ensures r.result.Ok? && updated ==> r.templates == ts[dto.id := dto]
    ensures !(r.result.Ok? && updated) ==> r.templates == ts
  {
    if dto.id !in ts then Saved(ts, BadRequest(DataNotExist))
    else
      var current := ts[dto.id];
      if current.name != dto.name && NameTaken(ts, dto.name) then
        Saved(ts, BadRequest(IsExist(current.name)))
      else if updated then Saved(ts[dto.id := dto], Ok(true))
      else Saved(ts, Ok(false))
  }

  /** Create keeps names unique; so does the corrected update, which is what the name check is for. */
  lemma NamesStayUnique(ts: Templates, dto: EmailMessageTemplate, newId: int, ok: bool)
    requires UniqueNames(ts)
    requires newId !in ts
    ensures UniqueNames(Create(ts, dto, newId, ok).templates)
    ensures UniqueNames(Update(ts, dto, ok).templates)
  {
    var u := Update(ts, dto, ok).templates;
    if u != ts {
      forall j, k | j in u && k in u && u[j].name == u[k].name
        ensures j == k
      {
        if j != k && (j == dto.id || k == dto.id) {
          // The other row already carried the new name, so the update was refused.
          assert false;
        }
      }
    }
  }

  /** The corrected update accepts the renames the as-written one refuses, when the new name is free. */
  lemma FreeRenameAccepted(ts: Templates, dto: EmailMessageTemplate)
    requires dto.id in ts && ts[dto.id].name != dto.name && !NameTaken(ts, dto.name)
    ensures Update(ts, dto, true) == Saved(ts[dto.id := dto], Ok(true))
  {
  }

  /**
   `DeleteAsync`: refused when none of the ids is present; otherwise every
   present row among them is marked deleted, and the call reports true.
   */
  function Delete(ts: Templates, ids: set<int>): (r: Saved)
    ensures ts.Keys * ids == {} ==> r == Saved(ts, BadRequest(DataNotExist))
    ensures ts.Keys * ids != {} ==> r.result == Ok(true)
    ensures r.templates.Keys == ts.Keys
    ensures forall k :: k in ts ==>
              if ts.Keys * ids != {} && k in ids then r.templates[k] == ts[k].(isDeleted := true)
              else r.templates[k] == ts[k]
  {
    var matched := ts.Keys * ids;
    if matched == {} then Saved(ts, BadRequest(DataNotExist))
    else
      var marked := map k | k in ts :: if k in ids then ts[k].(isDeleted := true) else ts[k];
      // The logical delete touches |matched| rows, which is positive.
      Saved(marked, Ok(|matched| > 0))
  }

  /**
   A delete only marks rows: keys, names and their uniqueness survive it, so
   a deleted template's name stays taken, and deleting the same ids again
   reports success once more without further change.
   */
  lemma DeleteKeepsNames(ts: Templates, ids: set<int>, dto: EmailMessageTemplate, newId: int, inserted: bool)
    ensures var d := Delete(ts, ids).templates;
            && (WellKeyed(ts) ==> WellKeyed(d))
            && (UniqueNames(ts) ==> UniqueNames(d))
            && (NameTaken(d, dto.name) <==> NameTaken(ts, dto.name))
            && (NameTaken(ts, dto.name) ==> Create(d, dto, newId, inserted).result == BadRequest(IsExist(dto.name)))
            && Delete(d, ids) == Delete(ts, ids).(templates := d)
  {
    var d := Delete(ts, ids).templates;
    assert NameTaken(d, dto.name) <==> NameTaken(ts, dto.name) by {
      if NameTaken(ts, dto.name) {
        var k :| k in ts && ts[k].name == dto.name;
        assert d[k].name == dto.name;
      }
      if NameTaken(d, dto.name) {
        var k :| k in d && d[k].name == dto.name;
        assert ts[k].name == dto.name;
      }
    }
  }

  /** The query criteria; a null or empty name, a null flag or fewer than two times are no filter. */
  datatype Criteria = Criteria(name: Option<string>, isActive: Option<bool>, createTime: seq<int>)

  /** `GetWhereExpression`: starts from "every row" and adds one conjunct per criterion given. */
  function WhereExpression(c: Criteria): EmailMessageTemplate -> bool {
    var all := (t: EmailMessageTemplate) => true;
    var byName := if !IsNullOrEmpty(c.name) then AndAlso(all, (t: EmailMessageTemplate) => Contains(t.name, c.name.value)) else all;
    var byActive := if c.isActive.Some? then AndAlso(byName, (t: EmailMessageTemplate) => t.isActive == c.isActive.value) else byName;
    if |c.createTime| > 1 then
      AndAlso(byActive, (t: EmailMessageTemplate) => c.createTime[0] <= t.createTime && t.createTime <= c.createTime[1])
    else byActive
  }

  /** The filter is exactly the conjunction of the criteria that are given. */
  lemma WhereIsConjunction(c: Criteria, t: EmailMessageTemplate)
    ensures WhereExpression(c)(t) <==>
              && (IsNullOrEmpty(c.name) || Contains(t.name, c.name.value))
              && (c.isActive.None? || t.isActive == c.isActive.value)
              && (|c.createTime| <= 1 || c.createTime[0] <= t.createTime <= c.createTime[1])
  {
  }

  /** With no criteria every row passes; the range is inclusive at both ends. */
  lemma WhereDefaults(t: EmailMessageTemplate, lo: int, hi: int)
    ensures WhereExpression(Criteria(None, None, []))(t)
    ensures WhereExpression(Criteria(Some(""), None, [lo]))(t)
    ensures WhereExpression(Criteria(None, None, [t.createTime, t.createTime]))(t)
  {
  }
}
