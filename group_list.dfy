/**
 * The group list service: the active groups assembled into a forest below the virtual root 0.
 * A failed query is reported alongside the forest built from the rows it returned, taken here
 * as none.
 */
module GroupList {
  import opened Wrappers
  import opened Bytes
  import opened Forest
  import UpdateGroup

  /** The columns of a stored group other than its id and parent id. */
  datatype GroupInfo = GroupInfo(productId: int64, appId: int64, groupName: string, status: int8,
                                 createUid: int64, updateUid: int64, createTime: int64, updateTime: int64)

  type Group = Entry<GroupInfo>

  /** The one error GetGroupsList reports. */
  datatype GroupError = DbSelect

  /** WHERE status = GROUP_STATUS_ACTIVE, keeping the table's order. */
  function Active(rows: seq<Group>): (r: seq<Group>)
    ensures forall z :: z in r <==> z in rows && z.fields.status == UpdateGroup.GroupStatusActive
  {
    if rows == [] then []
    else (if rows[0].fields.status == UpdateGroup.GroupStatusActive then [rows[0]] else []) + Active(rows[1..])
  }

  /** The filter keeps the table's order: filtering two runs of rows filters each. */
  lemma {:induction false} ActiveAppend(a: seq<Group>, b: seq<Group>)
    ensures Active(a + b) == Active(a) + Active(b)
    decreases |a|
  {
    if a == [] {
      assert a + b == b;
    } else {
      assert (a + b)[1..] == a[1..] + b;
      ActiveAppend(a[1..], b);
    }
  }

  /** The rows the group query hands to the bucketing loop. */
  function Fetched(groupTable: Result<seq<Group>, string>): (r: seq<Group>)
    ensures forall g :: g in r <==>
      groupTable.Success? && g in groupTable.value && g.fields.status == UpdateGroup.GroupStatusActive
  {
    match groupTable
    case Success(rows) => Active(rows)
    case Failure(_) => []
  }

  /** getGroupTreeMap: the active groups bucketed by parent id, and the query's error. */
  method GetGroupTreeMap(groupTable: Result<seq<Group>, string>)
    returns (err: Option<GroupError>, treeMap: map<int64, seq<Group>>)
    ensures err == (if groupTable.Failure? then Some(DbSelect) else None)
    ensures treeMap == TreeMapOf(Fetched(groupTable))
  {
    var groupList: seq<Group> := [];
    err := None;
    match groupTable {
      case Failure(_) => err := Some(DbSelect);
      case Success(rows) => groupList := Active(rows);
    }
    treeMap := BuildTreeMap(groupList);
  }

  /** GetGroupsList: the forest below 0, returned together with the query's error. */
  method GetGroupsList(groupTable: Result<seq<Group>, string>, ghost d: nat)
    returns (groupList: seq<Group>, err: Option<GroupError>)
    requires Bounded(TreeMapOf(Fetched(groupTable)), 0, d)
    ensures err == (if groupTable.Failure? then Some(DbSelect) else None)
    ensures groupList == Expand(TreeMapOf(Fetched(groupTable)), 0, d)
  {
    var groupTree;
    err, groupTree := GetGroupTreeMap(groupTable);
    groupList := AttachRoots(groupTree, d);
  }

  /** A failed query gives an empty forest. */
  lemma FailedQueryIsEmpty(e: string, d: nat)
    ensures Expand(TreeMapOf(Fetched(Failure(e))), 0, d) == []
  {
    assert Lookup(TreeMapOf<GroupInfo>([]), 0) == [];
  }

  /** Every group in the forest is an active row of the table. */
  lemma GroupForestActive(rows: seq<Group>, d: nat)
    ensures forall z :: z in Pre(Expand(TreeMapOf(Active(rows)), 0, d)) ==>
      z.fields.status == UpdateGroup.GroupStatusActive && exists k :: 0 <= k < |rows| && Bare(rows[k]) == z
  {
    ExpandFromRows(Active(rows), 0, d);
    forall z | z in Pre(Expand(TreeMapOf(Active(rows)), 0, d))
      ensures z.fields.status == UpdateGroup.GroupStatusActive && exists k :: 0 <= k < |rows| && Bare(rows[k]) == z
    {
      var j :| 0 <= j < |Active(rows)| && Bares(Active(rows))[j] == z;
      var k :| 0 <= k < |rows| && rows[k] == Active(rows)[j];
    }
  }

  /**
   * With distinct ids and a halting expansion, an active group appears exactly once when its
   * ancestor chain through active groups reaches 0, and never otherwise.
   */
  lemma GroupForestOnce(rows: seq<Group>, d: nat, x: int64)
    requires DistinctIds(Active(rows)) && Bounded(TreeMapOf(Active(rows)), 0, d)
    ensures IdCount(Pre(Expand(TreeMapOf(Active(rows)), 0, d)), x) == (if Reaches(Active(rows), x, 0) then 1 else 0)
  {
    ExactlyOnce(Active(rows), x, 0, d);
  }

  /** The roots are the active groups whose parent is 0, in row order. */
  lemma GroupForestRoots(rows: seq<Group>, d: nat)
    requires d > 0
    ensures |Expand(TreeMapOf(Active(rows)), 0, d)| == |ChildrenOf(Active(rows), 0)|
    ensures forall k :: 0 <= k < |ChildrenOf(Active(rows), 0)| ==>
      Bare(Expand(TreeMapOf(Active(rows)), 0, d)[k]) == Bare(ChildrenOf(Active(rows), 0)[k])
  {
    ExpandChildren(Active(rows), 0, d);
  }
}
