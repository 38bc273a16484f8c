/**
 The derived members of `DepartmentDto`, identical in both copies of the DTO:
 `HasChildren` and `Leaf` read the sub-department count, and `Label` shows
 the name. The copies differ only in whether the parent id is nullable.
 */
module DepartmentDto {
  import opened Common

  datatype DepartmentDto = DepartmentDto(
    id: int,
    name: string,
    parentId: Option<int>,   // `long?` in the older copy; always present in the newer one
    sort: int,
    enabled: bool,
    children: Option<seq<DepartmentDto>>,
    subCount: int)

  /** `HasChildren`: the department has sub-departments. */
  predicate HasChildren(d: DepartmentDto) {
    d.subCount > 0
  }

  /** `Leaf`: the department is a leaf of the tree. */
  predicate Leaf(d: DepartmentDto) {
    d.subCount == 0
  }

  /** `Label`: the text a tree widget shows, the department's name. */
  function Label(d: DepartmentDto): string {
    d.name
  }

  /**
   The two flags are never both set, and for a non-negative count exactly one
   is; a negative count sets neither.
   */
  lemma FlagsPartition(d: DepartmentDto)
    ensures !(HasChildren(d) && Leaf(d))
    ensures d.subCount >= 0 ==> (HasChildren(d) <==> !Leaf(d))
    ensures d.subCount < 0 ==> !HasChildren(d) && !Leaf(d)
  {
  }

  /** Only the count decides the flags, and only the name decides the label. */
  lemma DerivedFrom(d: DepartmentDto, e: DepartmentDto)
    ensures d.subCount == e.subCount ==> (HasChildren(d) <==> HasChildren(e)) && (Leaf(d) <==> Leaf(e))
    ensures Label(d) == Label(e) <==> d.name == e.name
  {
  }
}
