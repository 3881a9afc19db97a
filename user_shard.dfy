/** The user-table sharding of the user model: odd user ids live in user1, even ones in user2. */
module UserShard {
  import opened Bytes

  /** The two user tables. */
  datatype Table = User1 | User2

  /** The table's name as the database knows it. */
  function Name(t: Table): string {
    match t
    case User1 => "user1"
    case User2 => "user2"
  }

  /** Go's `%`, which truncates toward zero: the remainder takes the sign of the dividend. */
  function GoRem(a: int, b: int): (r: int)
    requires b > 0
    ensures a >= 0 ==> r == a % b
    ensures a < 0 ==> r == -((-a) % b)
  {
    if a >= 0 then a % b else -((-a) % b)
  }

  /** toTableName: user2 when userID % 2 == 0, user1 otherwise. */
  function ToTableName(userID: int64): (t: Table)
    ensures t == User2 <==> userID % 2 == 0
  {
    if GoRem(userID, 2) == 0 then User2 else User1
  }

  /** The two names differ, so the grouping by table is a grouping by name. */
  lemma NamesDistinct()
    ensures Name(User1) != Name(User2)
  {
    assert Name(User1)[4] != Name(User2)[4];
  }

  /** Even ids, negative ones included, map to user2; odd ids, negative ones included, to user1. */
  lemma TableByParity(userID: int64)
    ensures ToTableName(userID) == User2 <==> userID % 2 == 0
    ensures ToTableName(userID) == User1 <==> userID % 2 == 1
  {
  }

  /** A negative odd id truncates to remainder -1 and is still sent to user1. */
  lemma NegativeOddToUser1()
    ensures GoRem(-3, 2) == -1 && ToTableName(-3) == User1
  {
  }

  /** The ids of the list stored in table t, in list order and with duplicates. */
  function IdsIn(ids: seq<int64>, t: Table): (r: seq<int64>)
    ensures |r| <= |ids| && forall x :: x in r <==> x in ids && ToTableName(x) == t
    decreases |ids|
  {
    if ids == [] then []
    else if ToTableName(ids[|ids| - 1]) == t then IdsIn(ids[..|ids| - 1], t) + [ids[|ids| - 1]]
    else IdsIn(ids[..|ids| - 1], t)
  }

  /** The tables some id of the list lives in. */
  function TablesOf(ids: seq<int64>): (r: set<Table>)
    ensures forall t :: t in r <==> exists i :: 0 <= i < |ids| && ToTableName(ids[i]) == t
  {
    set i | 0 <= i < |ids| :: ToTableName(ids[i])
  }

  /** m holds, for every table some id of ids maps to, exactly that table's ids. */
  predicate Grouped(m: map<Table, seq<int64>>, ids: seq<int64>) {
    m.Keys == TablesOf(ids) && forall t :: t in m ==> m[t] == IdsIn(ids, t)
  }

  /** GetUserByUserIDList's grouping loop: each id appended to the list of its table. */
  method GroupByTable(userIDList: seq<int64>) returns (tableMap: map<Table, seq<int64>>)
    ensures tableMap.Keys == TablesOf(userIDList)
    ensures forall t :: t in tableMap ==> tableMap[t] == IdsIn(userIDList, t)
  {
    tableMap := map[];
    var i := 0;
    while i < |userIDList|
      invariant 0 <= i <= |userIDList| && Grouped(tableMap, userIDList[..i])
    {
      var u := userIDList[i];
      var t := ToTableName(u);
      GroupStep(tableMap, userIDList, i);
      tableMap := tableMap[t := (if t in tableMap then tableMap[t] else []) + [u]];
      i := i + 1;
    }
    assert userIDList[..i] == userIDList;
  }

  /** Appending id i to its table's list turns a grouping of the first i ids into one of the first i + 1. */
  lemma GroupStep(m: map<Table, seq<int64>>, ids: seq<int64>, i: nat)
    requires i < |ids| && Grouped(m, ids[..i])
    ensures Grouped(m[ToTableName(ids[i]) := (if ToTableName(ids[i]) in m then m[ToTableName(ids[i])] else []) + [ids[i]]],
                    ids[..i + 1])
  {
    var t := ToTableName(ids[i]);
    var prev := if t in m then m[t] else [];
    var m' := m[t := prev + [ids[i]]];
    IdsInStep(ids, i);
    assert prev == IdsIn(ids[..i], t);
    assert m'.Keys == m.Keys + {t};
    forall t' | t' in m' ensures m'[t'] == IdsIn(ids[..i + 1], t') {
      if t' != t {
        assert m'[t'] == m[t'];
      }
    }
  }

  /** One more id extends the list of its own table only. */
  lemma IdsInStep(ids: seq<int64>, i: nat)
    requires i < |ids|
    ensures forall t :: IdsIn(ids[..i + 1], t) ==
                          (if ToTableName(ids[i]) == t then IdsIn(ids[..i], t) + [ids[i]] else IdsIn(ids[..i], t))
    ensures TablesOf(ids[..i + 1]) == TablesOf(ids[..i]) + {ToTableName(ids[i])}
    ensures ToTableName(ids[i]) !in TablesOf(ids[..i]) ==> IdsIn(ids[..i], ToTableName(ids[i])) == []
  {
    var next := ids[..i + 1];
    assert next[..|next| - 1] == ids[..i] && next[|next| - 1] == ids[i];
    forall t ensures IdsIn(next, t) ==
                     (if ToTableName(ids[i]) == t then IdsIn(ids[..i], t) + [ids[i]] else IdsIn(ids[..i], t)) {
    }
    if ToTableName(ids[i]) !in TablesOf(ids[..i]) {
      IdsInAbsent(ids[..i], ToTableName(ids[i]));
    }
  }

  /** A table no id maps to gets the empty list. */
  lemma {:induction false} IdsInAbsent(ids: seq<int64>, t: Table)
    requires t !in TablesOf(ids)
    ensures IdsIn(ids, t) == []
    decreases |ids|
  {
    if ids != [] {
      var init := ids[..|ids| - 1];
      assert forall i :: 0 <= i < |init| ==> init[i] == ids[i];
      IdsInAbsent(init, t);
    }
  }

  /** Grouping loses and invents nothing: every id of the list is counted once per occurrence in its table's list. */
  lemma {:induction false} GroupingKeepsCounts(ids: seq<int64>, x: int64)
    ensures multiset(IdsIn(ids, ToTableName(x)))[x] == multiset(ids)[x]
    decreases |ids|
  {
    if ids != [] {
      var init := ids[..|ids| - 1];
      GroupingKeepsCounts(init, x);
      assert ids == init + [ids[|ids| - 1]];
    }
  }
}
