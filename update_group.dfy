/**
 * The decision logic of a group update: the parameter checks, and the node and menu id lists
 * to insert and to delete, computed from the stored rows and the requested lists.
 */
module UpdateGroup {
  import opened Wrappers
  import opened Bytes
  import opened Helpers

  const GroupStatusActive: int8 := 0
  const GroupStatusClose: int8 := 1

  /** A stored group-node relation row; only its NodeId is used here. */
  datatype GroupNode = GroupNode(id: int64, groupId: int64, nodeId: int64, nodeType: int8)

  /** The fields of an update request the checks and the diff read. */
  datatype UpdateInput = UpdateInput(groupId: int64, groupName: string, groupStatus: int8,
                                     nodeList: seq<int64>, menuList: seq<int64>)

  /** The parameter errors, in the order they are tested. */
  datatype ParamError = BadGroupName | BadGroupId | BadGroupStatus

  /** ConvertId2Slice: the rows' node ids, in order. */
  method ConvertId2Slice(rows: seq<GroupNode>) returns (ids: seq<int64>)
    ensures |ids| == |rows| && forall i :: 0 <= i < |rows| ==> ids[i] == rows[i].nodeId
  {
    ids := [];
    var i := 0;
    while i < |rows|
      invariant 0 <= i <= |rows| && |ids| == i
      invariant forall k :: 0 <= k < i ==> ids[k] == rows[k].nodeId
    {
      ids := ids + [rows[i].nodeId];
      i := i + 1;
    }
  }

  /** filtrateId: delete = old minus new, insert = new minus old, both by Subtraction. */
  function FiltrateId(oldIds: seq<int64>, newIds: seq<int64>): (r: (seq<int64>, seq<int64>))
    ensures forall x :: x in r.0 <==> x in newIds && x !in oldIds
    ensures forall x :: x in r.1 <==> x in oldIds && x !in newIds
  {
    (Without(newIds, Elements(oldIds)), Without(oldIds, Elements(newIds)))
  }

  /** Inserts and deletes never share an id. */
  lemma InsertDeleteDisjoint(oldIds: seq<int64>, newIds: seq<int64>)
    ensures Elements(FiltrateId(oldIds, newIds).0) !! Elements(FiltrateId(oldIds, newIds).1)
  {
  }

  /** Applying the diff to the stored ids gives the requested set of ids. */
  lemma DiffReachesNew(oldIds: seq<int64>, newIds: seq<int64>)
    ensures (Elements(oldIds) - Elements(FiltrateId(oldIds, newIds).1)) + Elements(FiltrateId(oldIds, newIds).0)
         == Elements(newIds)
  {
    var r := FiltrateId(oldIds, newIds);
    var lhs := (Elements(oldIds) - Elements(r.1)) + Elements(r.0);
    forall x ensures x in lhs <==> x in Elements(newIds) {
    }
  }

  /** Requesting the stored ids again changes nothing. */
  lemma UnchangedListsNoDiff(ids: seq<int64>)
    ensures FiltrateId(ids, ids) == ([], [])
  {
    SubtractSelf(ids);
  }

  /** checkParams: an empty name, then a negative id, then a status other than active or closed. */
  function CheckParams(gu: UpdateInput): (r: Option<ParamError>)
    ensures r == None <==> |gu.groupName| > 0 && gu.groupId >= 0 && gu.groupStatus in {GroupStatusActive, GroupStatusClose}
    ensures |gu.groupName| == 0 ==> r == Some(BadGroupName)
    ensures |gu.groupName| > 0 && gu.groupId < 0 ==> r == Some(BadGroupId)
  {
    if |gu.groupName| <= 0 then Some(BadGroupName)
    else if gu.groupId < 0 then Some(BadGroupId)
    else if gu.groupStatus != GroupStatusActive && gu.groupStatus != GroupStatusClose then Some(BadGroupStatus)
    else None
  }

  /** The four id lists UpdateGroup hands to the store: node inserts and deletes, menu inserts and deletes. */
  datatype Changes = Changes(insertNodes: seq<int64>, deleteNodes: seq<int64>,
                             insertMenus: seq<int64>, deleteMenus: seq<int64>)

  /**
   * The errors UpdateGroup returns before its writes: a parameter error as checkParams gives it,
   * or ErrorDbSelect with the message naming the query that failed.
   */
  datatype PlanError = Param(param: ParamError) | DbSelect(message: string)

  const NodeQueryFailure := "get groupNodeListByConds failure"
  const MenuQueryFailure := "get groupMenuListByConds failure"

  /**
   * UpdateGroup between its reads and its writes: the checks first, then the API-node query, then
   * the page-menu query, each either its rows or the error it reports; then the API-node diff from
   * the node rows and the page-menu diff from the menu rows.
   */
  method PlanUpdate(gu: UpdateInput, nodeRows: Result<seq<GroupNode>, string>,
                    menuRows: Result<seq<GroupNode>, string>)
    returns (r: Result<Changes, PlanError>)
    ensures CheckParams(gu).Some? ==> r == Failure(Param(CheckParams(gu).value))
    ensures CheckParams(gu) == None && nodeRows.Failure? ==> r == Failure(DbSelect(NodeQueryFailure))
    ensures CheckParams(gu) == None && nodeRows.Success? && menuRows.Failure? ==>
      r == Failure(DbSelect(MenuQueryFailure))
    ensures r.Success? <==> CheckParams(gu) == None && nodeRows.Success? && menuRows.Success?
    ensures r.Success? ==>
      (r.value.insertNodes, r.value.deleteNodes) == FiltrateId(NodeIds(nodeRows.value), gu.nodeList) &&
      (r.value.insertMenus, r.value.deleteMenus) == FiltrateId(NodeIds(menuRows.value), gu.menuList)
  {
    var err := CheckParams(gu);
    if err.Some? {
      return Failure(Param(err.value));
    }
    if nodeRows.Failure? {
      return Failure(DbSelect(NodeQueryFailure));
    }
    if menuRows.Failure? {
      return Failure(DbSelect(MenuQueryFailure));
    }
    var oldNodeList := ConvertId2Slice(nodeRows.value);
    var oldMenuList := ConvertId2Slice(menuRows.value);
    assert oldNodeList == NodeIds(nodeRows.value) && oldMenuList == NodeIds(menuRows.value);
    var deleteNodes := Subtraction(oldNodeList, gu.nodeList);
    var insertNodes := Subtraction(gu.nodeList, oldNodeList);
    var deleteMenus := Subtraction(oldMenuList, gu.menuList);
    var insertMenus := Subtraction(gu.menuList, oldMenuList);
    return Success(Changes(insertNodes, deleteNodes, insertMenus, deleteMenus));
  }

  /** The node ids of a list of rows. */
  function NodeIds(rows: seq<GroupNode>): (ids: seq<int64>)
    ensures |ids| == |rows| && forall i :: 0 <= i < |rows| ==> ids[i] == rows[i].nodeId
  {
    seq(|rows|, i requires 0 <= i < |rows| => rows[i].nodeId)
  }
}
