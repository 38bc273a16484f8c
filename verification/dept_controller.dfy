/**
 Deleting departments (`DeptController.Delete`): the requested ids are
 expanded to their whole subtrees, the delete is refused while a user or a
 role still refers to one of them, and otherwise the expanded set is deleted.
 The department table is a map from id to row; the user and role-department
 links are the rows their queries return, in order.
 */
module DeptController {
  import opened Common

  datatype Department = Department(id: int, name: string, parentId: Option<int>)

  type Depts = map<int, Department>

  datatype User = User(id: int, deptId: int)

  datatype RoleDept = RoleDept(roleId: int, deptId: int)

  datatype Response =
    | Success
    | Error(message: string)
    | NullDereference   // the department named by the first link is missing

  /** Department `k` is stored with a parent in `s`. */
  predicate ChildOf(depts: Depts, k: int, s: set<int>) {
    k in depts && depts[k].parentId.Some? && depts[k].parentId.value in s
  }

  /**
   `all` is a subtree closure of `ids`: it holds the requested ids, every child
   of a member, and nothing that is neither requested nor a child of a member.
   */
  predicate SubtreeClosure(all: set<int>, ids: set<int>, depts: Depts) {
    && ids <= all
    && (forall k :: k in depts && ChildOf(depts, k, all) ==> k in all)
    && (forall k :: k in all && k !in ids ==> ChildOf(depts, k, all))
  }

  /** `GetChildIds`: the requested ids with all their descendants, computed with a work list. */
  method GetChildIds(ids: set<int>, depts: Depts) returns (all: set<int>)
    ensures SubtreeClosure(all, ids, depts)
    ensures all <= ids + depts.Keys
  {
    all := ids;
    var frontier := ids;
    while frontier != {}
      invariant frontier <= all <= ids + depts.Keys
      invariant ids <= all
      invariant forall k :: k in all && k !in ids ==> ChildOf(depts, k, all)
      invariant forall k :: ChildOf(depts, k, all - frontier) ==> k in all
      decreases (ids + depts.Keys) - all, |frontier|
    {
      NonEmptyHasElement(frontier);
      var p :| p in frontier;
      var children := set k | k in depts && depts[k].parentId == Some(p);
      var found := children - all;
      all := all + children;
      frontier := (frontier - {p}) + found;
    }
  }

  /** The first of `deptIds` that lies in `s`, if any. */
  function FirstIn(deptIds: seq<int>, s: set<int>): (r: Option<int>)
    ensures r.None? <==> forall i :: 0 <= i < |deptIds| ==> deptIds[i] !in s
    ensures r.Some? ==> exists i :: 0 <= i < |deptIds| && deptIds[i] == r.value && r.value in s
                                    && forall j :: 0 <= j < i ==> deptIds[j] !in s
  {
    if |deptIds| == 0 then None
    else if deptIds[0] in s then Some(deptIds[0])
    else
      var r := FirstIn(deptIds[1..], s);
      assert r.Some? ==> exists i :: 0 <= i < |deptIds| && deptIds[i] == r.value && r.value in s
                                    && forall j :: 0 <= j < i ==> deptIds[j] !in s by {
        if r.Some? {
          var i :| 0 <= i < |deptIds[1..]| && deptIds[1..][i] == r.value && r.value in s
                   && forall j :: 0 <= j < i ==> deptIds[1..][j] !in s;
          assert deptIds[i + 1] == r.value;
          forall j | 0 <= j < i + 1
            ensures deptIds[j] !in s
          {
            if j > 0 {
              assert deptIds[j] == deptIds[1..][j - 1];
            }
          }
        }
      }
      assert r.None? ==> forall i :: 0 <= i < |deptIds| ==> deptIds[i] !in s by {
        if r.None? {
          forall i | 0 <= i < |deptIds|
            ensures deptIds[i] !in s
          {
            if i > 0 {
              assert deptIds[i] == deptIds[1..][i - 1];
            }
          }
        }
      }
      r
  }

  /** The department each link refers to, in query order. */
  function DeptIds<T>(links: seq<T>, deptOf: T -> int): seq<int> {
    seq(|links|, i requires 0 <= i < |links| => deptOf(links[i]))
  }

  function UserDepts(users: seq<User>): seq<int> {
    DeptIds(users, (u: User) => u.deptId)
  }

  function RoleDepts(links: seq<RoleDept>): seq<int> {
    DeptIds(links, (l: RoleDept) => l.deptId)
  }

  const UserLinked: string := "存在用户关联，请解除后再试！"
  const RoleLinked: string := "存在角色关联，请解除后再试！"

  /** The refusal naming the department of the first offending link. */
  function Refusal(depts: Depts, deptId: int, reason: string): Response {
    if deptId in depts then Error("所选部门(" + depts[deptId].name + ")" + reason)
    else NullDereference
  }

  /**
   `Delete`: expand the ids to their subtrees; refuse while a user belongs to
   one of them, then while a role is linked to one; else ask the store to
   delete exactly the expanded set (`deleted` is its verdict) and report
   success whatever it answers.
   */
  method Delete(depts: Depts, users: seq<User>, links: seq<RoleDept>, ids: set<int>, deleted: bool)
    returns (remaining: Depts, expanded: set<int>, response: Response)
    ensures SubtreeClosure(expanded, ids, depts)
    ensures response == Success <==>
              && (forall i :: 0 <= i < |users| ==> users[i].deptId !in expanded)
              && (forall i :: 0 <= i < |links| ==> links[i].deptId !in expanded)
    ensures response == Success ==> remaining == if deleted then depts - expanded else depts
    ensures response != Success ==> remaining == depts
    ensures FirstIn(UserDepts(users), expanded).Some? ==>
              response == Refusal(depts, FirstIn(UserDepts(users), expanded).value, UserLinked)
    ensures FirstIn(UserDepts(users), expanded).None? && FirstIn(RoleDepts(links), expanded).Some? ==>
              response == Refusal(depts, FirstIn(RoleDepts(links), expanded).value, RoleLinked)
  {
    expanded := GetChildIds(ids, depts);
    remaining := depts;
    assert forall i :: 0 <= i < |users| ==> UserDepts(users)[i] == users[i].deptId;
    assert forall i :: 0 <= i < |links| ==> RoleDepts(links)[i] == links[i].deptId;
    var user := FirstIn(UserDepts(users), expanded);
    if user.Some? {
      response := Refusal(depts, user.value, UserLinked);
      return;
    }
    var role := FirstIn(RoleDepts(links), expanded);
    if role.Some? {
      response := Refusal(depts, role.value, RoleLinked);
      return;
    }
    // The store's verdict is not consulted: the action reports success either way.
    remaining := if deleted then depts - expanded else depts;
    response := Success;
  }
}
