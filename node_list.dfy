/**
 * The node list service: the stored nodes of one node type assembled into a forest below the
 * virtual root 0, with the nodes granted to the caller's group marked as selected.
 *
 * The database is a snapshot of each table (its rows, or the error a query would report); a
 * query's WHERE clause is a filter on that snapshot.
 */
module NodeList {
  import opened Wrappers
  import opened Bytes
  import opened Forest
  import UpdateGroup

  /** The user_type of the user-group row the lookup asks for. */
  const UserTypeOuter: int8 := 1

  /** The columns of a stored node other than its id and parent id; `selected` is not a column. */
  datatype NodeInfo = NodeInfo(productId: int64, appId: int64, nodeLabel: string, resource: string,
                               nodeType: int8, isShow: int8, createUid: int64, updateUid: int64,
                               createTime: int64, updateTime: int64, selected: int8)

  type Node = Entry<NodeInfo>

  type GroupNode = UpdateGroup.GroupNode

  /** The errors GetNodeList returns: a field that fails checkParams, or a failed node query. */
  datatype NodeError = ParamsInvalid(field: string) | DbSelect

  // ---------------------------------------------------------------------------------------------
  // The queries.

  /** WHERE node_type = t, keeping the table's order. */
  function OfType(rows: seq<Node>, t: int8): (r: seq<Node>)
    ensures forall z :: z in r <==> z in rows && z.fields.nodeType == t
  {
    if rows == [] then []
    else (if rows[0].fields.nodeType == t then [rows[0]] else []) + OfType(rows[1..], t)
  }

  /** The filter keeps the table's order: filtering two runs of rows filters each. */
  lemma {:induction false} OfTypeAppend(a: seq<Node>, b: seq<Node>, t: int8)
    ensures OfType(a + b, t) == OfType(a, t) + OfType(b, t)
    decreases |a|
  {
    if a == [] {
      assert a + b == b;
    } else {
      assert (a + b)[1..] == a[1..] + b;
      OfTypeAppend(a[1..], b, t);
    }
  }

  /** WHERE group_id = g AND node_type = t over the group-node table, keeping its order. */
  function OfGroup(rows: seq<GroupNode>, g: int64, t: int8): (r: seq<GroupNode>)
    ensures forall z :: z in r <==> z in rows && z.groupId == g && z.nodeType == t
  {
    if rows == [] then []
    else (if rows[0].groupId == g && rows[0].nodeType == t then [rows[0]] else []) + OfGroup(rows[1..], g, t)
  }

  /** The node ids the checked rows grant. */
  function CheckedIds(rows: seq<GroupNode>): (c: set<int64>)
    ensures forall x :: x in c <==> exists k :: 0 <= k < |rows| && rows[k].nodeId == x
  {
    set k | 0 <= k < |rows| :: rows[k].nodeId
  }

  /**
   * The group whose nodes are checked: a positive user with no group takes the group of its
   * user-group row (`userGroup`, None when the lookup finds no row or fails, which leaves the
   * zero group id); otherwise the requested group.
   */
  function ResolvedGroupId(userId: int64, groupId: int64, userGroup: Option<int64>): (g: int64)
    ensures userId > 0 && groupId == 0 ==> g == (if userGroup.Some? then userGroup.value else 0)
    ensures !(userId > 0 && groupId == 0) ==> g == groupId
  {
    if userId > 0 && groupId == 0 then (match userGroup case Some(v) => v case None => 0) else groupId
  }

  /**
   * The checked rows of group g: none are fetched unless g is positive; a failed query gives
   * DbSelect and no rows.
   */
  function CheckedRows(g: int64, t: int8, table: Result<seq<GroupNode>, string>):
    (r: (Option<NodeError>, seq<GroupNode>))
    ensures g <= 0 ==> r == (None, [])
    ensures g > 0 && table.Failure? ==> r == (Some(DbSelect), [])
    ensures g > 0 && table.Success? ==>
      (r.0 == None && forall z :: z in r.1 <==> z in table.value && z.groupId == g && z.nodeType == t)
  {
    if g <= 0 then (None, [])
    else match table
      case Failure(_) => (Some(DbSelect), [])
      case Success(rows) => (None, OfGroup(rows, g, t))
  }

  // ---------------------------------------------------------------------------------------------
  // Marking the selected nodes.

  /** The node itself marked when its id is checked. */
  function Select(n: Node, checked: set<int64>): (r: Node)
    ensures r.fields.selected == (if n.id in checked then 1 else n.fields.selected)
    ensures r.(fields := r.fields.(selected := n.fields.selected)) == n
  {
    if n.id in checked then n.(fields := n.fields.(selected := 1)) else n
  }

  /** A tree with every checked node marked. */
  function Mark(n: Node, checked: set<int64>): Node
    decreases n
  {
    Select(n, checked).(children := MarkAll(n.children, checked))
  }

  /** A forest with every checked node marked. */
  function MarkAll(ts: seq<Node>, checked: set<int64>): (r: seq<Node>)
    ensures |r| == |ts|
    decreases ts
  {
    if ts == [] then [] else [Mark(ts[0], checked)] + MarkAll(ts[1..], checked)
  }

  /** updateCheckedStatus: mark the node if some checked row names it, then each child in turn. */
  method UpdateCheckedStatus(node: Node, groupNodes: seq<GroupNode>) returns (r: Node)
    ensures r == Mark(node, CheckedIds(groupNodes))
    decreases node
  {
    r := node;
    var j := 0;
    while j < |groupNodes|
      invariant 0 <= j <= |groupNodes|
      invariant r == Select(node, CheckedIds(groupNodes[..j]))
    {
      if node.id == groupNodes[j].nodeId {
        r := r.(fields := r.fields.(selected := 1));
      }
      assert groupNodes[..j + 1] == groupNodes[..j] + [groupNodes[j]];
      j := j + 1;
    }
    assert groupNodes[..j] == groupNodes;
    var children := node.children;
    var i := 0;
    while i < |children|
      invariant 0 <= i <= |children| == |node.children|
      invariant children[..i] == MarkAll(node.children[..i], CheckedIds(groupNodes))
      invariant children[i..] == node.children[i..]
    {
      var child := UpdateCheckedStatus(children[i], groupNodes);
      MarkAllSnoc(node.children, i, CheckedIds(groupNodes));
      children := children[i := child];
      i := i + 1;
    }
    assert children == children[..i] && node.children == node.children[..i];
    r := r.(children := children);
  }

  /** Marking one more tree of a forest appends its marked form. */
  lemma {:induction false} MarkAllSnoc(ts: seq<Node>, i: nat, checked: set<int64>)
    requires i < |ts|
    ensures MarkAll(ts[..i + 1], checked) == MarkAll(ts[..i], checked) + [Mark(ts[i], checked)]
  {
    MarkAllAppend(ts[..i], [ts[i]], checked);
    assert ts[..i + 1] == ts[..i] + [ts[i]];
  }

  lemma {:induction false} MarkAllAppend(a: seq<Node>, b: seq<Node>, checked: set<int64>)
    ensures MarkAll(a + b, checked) == MarkAll(a, checked) + MarkAll(b, checked)
    decreases |a|
  {
    if a == [] {
      assert a + b == b;
    } else {
      assert (a + b)[1..] == a[1..] + b;
      MarkAllAppend(a[1..], b, checked);
    }
  }

  /** The marking loop over the roots of GetNodeList. */
  method MarkRoots(roots: seq<Node>, groupNodes: seq<GroupNode>) returns (marked: seq<Node>)
    ensures marked == MarkAll(roots, CheckedIds(groupNodes))
  {
    marked := roots;
    var i := 0;
    while i < |marked|
      invariant 0 <= i <= |marked| == |roots|
      invariant marked[..i] == MarkAll(roots[..i], CheckedIds(groupNodes))
      invariant marked[i..] == roots[i..]
    {
      var n := UpdateCheckedStatus(marked[i], groupNodes);
      MarkAllSnoc(roots, i, CheckedIds(groupNodes));
      marked := marked[i := n];
      i := i + 1;
    }
    assert marked == marked[..i] && roots == roots[..i];
  }

  // ---------------------------------------------------------------------------------------------
  // What marking keeps.

  /** A tree with every `selected` cleared. */
  function Reset(n: Node): Node
    decreases n
  {
    n.(fields := n.fields.(selected := 0), children := ResetAll(n.children))
  }

  function ResetAll(ts: seq<Node>): (r: seq<Node>)
    ensures |r| == |ts|
    decreases ts
  {
    if ts == [] then [] else [Reset(ts[0])] + ResetAll(ts[1..])
  }

  /** Marking changes no id, no parent, no column but `selected`, and not the shape of the tree. */
  lemma {:induction false} ResetMark(n: Node, checked: set<int64>)
    ensures Reset(Mark(n, checked)) == Reset(n)
    decreases n
  {
    ResetMarkAll(n.children, checked);
  }

  /** Marking a forest changes nothing but `selected`. */
  lemma {:induction false} ResetMarkAll(ts: seq<Node>, checked: set<int64>)
    ensures ResetAll(MarkAll(ts, checked)) == ResetAll(ts)
    decreases ts
  {
    if ts != [] {
      ResetMark(ts[0], checked);
      ResetMarkAll(ts[1..], checked);
      assert MarkAll(ts, checked)[1..] == MarkAll(ts[1..], checked);
    }
  }

  /** Each entry of a flattened forest, marked. */
  function Selects(s: seq<Node>, checked: set<int64>): (r: seq<Node>)
    ensures |r| == |s| && forall k :: 0 <= k < |s| ==> r[k] == Select(s[k], checked)
  {
    seq(|s|, k requires 0 <= k < |s| => Select(s[k], checked))
  }

  /** Flattening a marked tree gives the tree's entries, each marked on its own. */
  lemma {:induction false} PreMark(n: Node, checked: set<int64>)
    ensures Pre1(Mark(n, checked)) == Selects(Pre1(n), checked)
    decreases n
  {
    PreMarkAll(n.children, checked);
    assert Bare(Mark(n, checked)) == Select(Bare(n), checked);
  }

  /** Flattening a marked forest gives the forest's entries, each marked on its own. */
  lemma {:induction false} PreMarkAll(ts: seq<Node>, checked: set<int64>)
    ensures Pre(MarkAll(ts, checked)) == Selects(Pre(ts), checked)
    decreases ts
  {
    if ts != [] {
      PreMark(ts[0], checked);
      PreMarkAll(ts[1..], checked);
      var m := MarkAll(ts, checked);
      assert m[0] == Mark(ts[0], checked) && m[1..] == MarkAll(ts[1..], checked);
      SelectsAppend(Pre1(ts[0]), Pre(ts[1..]), checked);
    }
  }

  lemma SelectsAppend(a: seq<Node>, b: seq<Node>, checked: set<int64>)
    ensures Selects(a + b, checked) == Selects(a, checked) + Selects(b, checked)
  {
    assert |Selects(a + b, checked)| == |Selects(a, checked) + Selects(b, checked)|;
  }

  /** Marking keeps the ids of a flattened forest. */
  lemma {:induction false} IdCountSelects(s: seq<Node>, checked: set<int64>, x: int64)
    ensures IdCount(Selects(s, checked), x) == IdCount(s, x)
    decreases |s|
  {
    if s != [] {
      assert Selects(s, checked)[1..] == Selects(s[1..], checked);
      IdCountSelects(s[1..], checked, x);
    }
  }

  // ---------------------------------------------------------------------------------------------
  // The assembled forest.

  /** The forest GetNodeList returns for the fetched rows and the checked node ids. */
  function NodeForest(rows: seq<Node>, checked: set<int64>, d: nat): seq<Node> {
    MarkAll(Expand(TreeMapOf(rows), 0, d), checked)
  }

  /**
   * With distinct ids and a halting expansion, a node appears in the forest exactly once when its
   * ancestor chain reaches 0, and never otherwise.
   */
  lemma NodeForestOnce(rows: seq<Node>, checked: set<int64>, d: nat, x: int64)
    requires DistinctIds(rows) && Bounded(TreeMapOf(rows), 0, d)
    ensures IdCount(Pre(NodeForest(rows, checked, d)), x) == (if Reaches(rows, x, 0) then 1 else 0)
  {
    var f := Expand(TreeMapOf(rows), 0, d);
    PreMarkAll(f, checked);
    IdCountSelects(Pre(f), checked, x);
    ExactlyOnce(rows, x, 0, d);
  }

  /**
   * Rows load with `selected` 0 (it is not a column), so a node of the forest is selected exactly
   * when a checked row names it.
   */
  lemma NodeForestSelected(rows: seq<Node>, checked: set<int64>, d: nat)
    requires forall k :: 0 <= k < |rows| ==> rows[k].fields.selected == 0
    ensures forall z :: z in Pre(NodeForest(rows, checked, d)) ==> (z.fields.selected == 1 <==> z.id in checked)
  {
    var s := Pre(Expand(TreeMapOf(rows), 0, d));
    PreMarkAll(Expand(TreeMapOf(rows), 0, d), checked);
    ExpandFromRows(rows, 0, d);
    forall z | z in Selects(s, checked) ensures z.fields.selected == 1 <==> z.id in checked {
      var k :| 0 <= k < |s| && Selects(s, checked)[k] == z;
      assert s[k] in Bares(rows);
      var j :| 0 <= j < |rows| && Bares(rows)[j] == s[k];
    }
  }

  /** The roots are the rows whose parent is 0, in row order, each with its subtree attached. */
  lemma NodeForestRoots(rows: seq<Node>, checked: set<int64>, d: nat)
    requires d > 0
    ensures |NodeForest(rows, checked, d)| == |ChildrenOf(rows, 0)|
    ensures forall k :: 0 <= k < |ChildrenOf(rows, 0)| ==>
      Reset(NodeForest(rows, checked, d)[k]) == Reset(ChildrenOf(rows, 0)[k].(children := Expand(TreeMapOf(rows), ChildrenOf(rows, 0)[k].id, d - 1)))
  {
    var f := Expand(TreeMapOf(rows), 0, d);
    ExpandChildren(rows, 0, d);
    ResetMarkAll(f, checked);
    forall k | 0 <= k < |f| ensures Reset(MarkAll(f, checked)[k]) == Reset(f[k]) {
      ResetAllIndex(MarkAll(f, checked), k);
      ResetAllIndex(f, k);
    }
  }

  lemma {:induction false} ResetAllIndex(ts: seq<Node>, k: nat)
    requires k < |ts|
    ensures ResetAll(ts)[k] == Reset(ts[k])
    decreases k
  {
    if k > 0 {
      ResetAllIndex(ts[1..], k - 1);
    }
  }

  // ---------------------------------------------------------------------------------------------
  // The request.

  /** A node list request; getCheckedNodes may fill in its group id. */
  class NodeListInput {
    var appId: int64
    var productId: int64
    var userId: int64
    var groupId: int64
    var nodeType: int8

    constructor (appId: int64, productId: int64, userId: int64, groupId: int64, nodeType: int8)
      ensures this.appId == appId && this.productId == productId && this.userId == userId
      ensures this.groupId == groupId && this.nodeType == nodeType
    {
      this.appId := appId;
      this.productId := productId;
      this.userId := userId;
      this.groupId := groupId;
      this.nodeType := nodeType;
    }

    /** checkParams: a negative app id is reported first, then a negative product id. */
    function CheckParams(): (r: Option<NodeError>)
      reads this
      ensures r == None <==> appId >= 0 && productId >= 0
      ensures appId < 0 ==> r == Some(ParamsInvalid("appId"))
      ensures appId >= 0 && productId < 0 ==> r == Some(ParamsInvalid("productId"))
    {
      if appId < 0 then Some(ParamsInvalid("appId"))
      else if productId < 0 then Some(ParamsInvalid("productId"))
      else None
    }

    /** getNodeTreeMap: the nodes of this request's type, bucketed by parent id. */
    method GetNodeTreeMap(nodeTable: Result<seq<Node>, string>)
      returns (err: Option<NodeError>, treeMap: map<int64, seq<Node>>)
      ensures nodeTable.Failure? ==> err == Some(DbSelect) && treeMap == map[]
      ensures nodeTable.Success? ==> err == None && treeMap == TreeMapOf(OfType(nodeTable.value, nodeType))
    {
      var nodeList: seq<Node> := [];
      err := None;
      match nodeTable {
        case Failure(_) => err := Some(DbSelect);
        case Success(rows) => nodeList := OfType(rows, nodeType);
      }
      treeMap := BuildTreeMap(nodeList);
    }

    /**
     * getCheckedNodes: resolve the group id (stored back into the request), then fetch its
     * group-node rows of this request's type.
     */
    method GetCheckedNodes(userGroup: Option<int64>, groupNodeTable: Result<seq<GroupNode>, string>)
      returns (err: Option<NodeError>, nodes: seq<GroupNode>)
      modifies this
      ensures groupId == ResolvedGroupId(old(userId), old(groupId), userGroup)
      ensures appId == old(appId) && productId == old(productId) && userId == old(userId) && nodeType == old(nodeType)
      ensures (err, nodes) == CheckedRows(groupId, nodeType, groupNodeTable)
    {
      if userId > 0 && groupId == 0 {
        groupId := match userGroup case Some(v) => v case None => 0;
      }
      err, nodes := None, [];
      if groupId > 0 {
        match groupNodeTable {
          case Failure(_) => err := Some(DbSelect);
          case Success(rows) => nodes := OfGroup(rows, groupId, nodeType);
        }
      }
    }

    /**
     * GetNodeList: check the parameters, build the forest below 0 from the nodes of this type,
     * then mark the nodes the resolved group grants.
     */
    method GetNodeList(nodeTable: Result<seq<Node>, string>, userGroup: Option<int64>,
                       groupNodeTable: Result<seq<GroupNode>, string>, ghost d: nat)
      returns (nodeList: seq<Node>, err: Option<NodeError>)
      requires CheckParams() == None && nodeTable.Success? ==> Bounded(TreeMapOf(OfType(nodeTable.value, nodeType)), 0, d)
      modifies this
      ensures old(CheckParams()) != None ==> nodeList == [] && err == old(CheckParams()) && groupId == old(groupId)
      ensures old(CheckParams()) == None && nodeTable.Failure? ==> nodeList == [] && err == Some(DbSelect) && groupId == old(groupId)
      ensures old(CheckParams()) == None && nodeTable.Success? ==>
        err == None && groupId == ResolvedGroupId(old(userId), old(groupId), userGroup) &&
        nodeList == NodeForest(OfType(nodeTable.value, nodeType), CheckedIds(CheckedRows(groupId, nodeType, groupNodeTable).1), d)
      ensures appId == old(appId) && productId == old(productId) && userId == old(userId) && nodeType == old(nodeType)
    {
      nodeList := [];
      err := CheckParams();
      if err.Some? {
        return;
      }
      var e, nodeTree := GetNodeTreeMap(nodeTable);
      if e.Some? {
        err := Some(DbSelect);
        return;
      }
      var nodes := AttachRoots(nodeTree, d);
      var _, checkedNode := GetCheckedNodes(userGroup, groupNodeTable);
      nodeList := MarkRoots(nodes, checkedNode);
    }
  }
}
