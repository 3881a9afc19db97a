/**
 * The mcpack v2 binder: from a tree of read items to the dynamic value it stands for.
 *
 * Arrays become lists of values in wire order, objects become maps from key to value (only the
 * child that last carries a key is bound), and every other item is classified by testing masks
 * on its type byte, in a fixed order, and converted to a Go scalar.
 */
module McPackBind {
  import opened Wrappers
  import opened Bytes
  import opened McPackRead

  /**
   * A bound value: Go's `interface{}` holding one of the scalar types, a `V2Array` or a `V2Map`.
   * Floats are kept as their IEEE-754 bit patterns (math.Float32frombits, math.Float64frombits).
   */
  datatype Value =
    | Null
    | Text(text: seq<byte>)
    | Raw(raw: seq<byte>)
    | Int8(i8: int8)
    | Int16(i16: int16)
    | Int32(i32: int32)
    | Int64(i64: int64)
    | Uint8(u8: byte)
    | Uint16(u16: uint16)
    | Uint32(u32: uint32)
    | Uint64(u64: uint64)
    | Bool(b: bool)
    | Float32(f32: uint32)
    | Float64(f64: uint64)
    | Array(items: seq<Value>)
    | Map(entries: map<seq<byte>, Value>)

  /** The scalar branches of bind, in the order it tries them. */
  datatype Kind =
    | KText | KNull | KRaw
    | KInt8 | KInt16 | KInt32 | KInt64
    | KUint8 | KUint16 | KUint32 | KUint64
    | KBool | KFloat | KDouble
    | KInvalid

  /** `tag & mask == mask`. */
  predicate Has(b: bv8, mask: bv8) { b & mask == mask }

  /** The first branch of bind's mask chain that a type byte passes. */
  function Classify(b: bv8): Kind {
    if Has(b, 0x50) then KText
    else if b == 0x61 then KNull
    else if Has(b, 0x60) then KRaw
    else if Has(b, 0x11) then KInt8
    else if Has(b, 0x12) then KInt16
    else if Has(b, 0x14) then KInt32
    else if Has(b, 0x18) then KInt64
    else if Has(b, 0x21) then KUint8
    else if Has(b, 0x22) then KUint16
    else if Has(b, 0x24) then KUint32
    else if Has(b, 0x28) then KUint64
    else if Has(b, 0x31) then KBool
    else if Has(b, 0x44) then KFloat
    else if Has(b, 0x48) then KDouble
    else if Has(b, 0x61) then KNull
    else KInvalid
  }

  /**
   * Each type constant lands in its own branch, except bool: 0x31 contains the bits of int8
   * (0x11), which is tested first, so a bool item binds as an int8.
   */
  lemma TypeTagKinds()
    ensures Classify(0x50) == KText && Classify(0x61) == KNull && Classify(0x60) == KRaw
    ensures Classify(0x11) == KInt8 && Classify(0x12) == KInt16
    ensures Classify(0x14) == KInt32 && Classify(0x18) == KInt64
    ensures Classify(0x21) == KUint8 && Classify(0x22) == KUint16
    ensures Classify(0x24) == KUint32 && Classify(0x28) == KUint64
    ensures Classify(0x44) == KFloat && Classify(0x48) == KDouble
    ensures Classify(0x31) == KInt8
    ensures Classify(0xd0) == KText && Classify(0xe0) == KRaw
  {
  }

  /** Whatever would pass the last null test was already taken as text, raw or exact null. */
  lemma LateNullUnreachable(b: bv8)
    requires Has(b, 0x61)
    ensures Classify(b) == KText || Classify(b) == KRaw || (b == 0x61 && Classify(b) == KNull)
  {
  }

  /** No tag is classified as a bool. */
  lemma BoolUnreachable(b: bv8)
    ensures Classify(b) != KBool
  {
  }

  /** A short object or array tag is no container and no scalar either. */
  lemma ShortContainersInvalid()
    ensures Classify(0x90) == KInvalid && Classify(0xa0) == KInvalid
  {
  }

  /** bind's scalar conversion of an item's content; too-short content panics. */
  function BindScalar(tag: byte, data: seq<byte>): Result<Value, Error> {
    match Classify(tag as bv8)
    case KText =>
      if |data| > 0 && data[|data| - 1] == 0 then Success(Text(data[..|data| - 1]))
      else Success(Text(data))
    case KNull => Success(Null)
    case KRaw => Success(Raw(data))
    case KInt8 => if |data| < 1 then Failure(OutOfBounds) else Success(Int8(Signed(data[0], Two8)))
    case KInt16 => if |data| < 2 then Failure(OutOfBounds) else Success(Int16(Signed(LE16(data), Two16)))
    case KInt32 => if |data| < 4 then Failure(OutOfBounds) else Success(Int32(Signed(LE32(data), Two32)))
    case KInt64 => if |data| < 8 then Failure(OutOfBounds) else Success(Int64(Signed(LE64(data), Two64)))
    case KUint8 => if |data| < 1 then Failure(OutOfBounds) else Success(Uint8(data[0]))
    case KUint16 => if |data| < 2 then Failure(OutOfBounds) else Success(Uint16(LE16(data)))
    case KUint32 => if |data| < 4 then Failure(OutOfBounds) else Success(Uint32(LE32(data)))
    case KUint64 => if |data| < 8 then Failure(OutOfBounds) else Success(Uint64(LE64(data)))
    case KBool => Success(Bool(exists b :: b in data && b > 0))
    case KFloat => if |data| < 4 then Failure(OutOfBounds) else Success(Float32(LE32(data)))
    case KDouble => if |data| < 8 then Failure(OutOfBounds) else Success(Float64(LE64(data)))
    case KInvalid => Failure(InvalidPackType)
  }

  /** bind: containers first (by exact tag), then the scalar chain. */
  function Bind(it: Item): Result<Value, Error>
    decreases it, 1
  {
    if IsArray(it.tag) then
      match InOrder(Bound(it))
      case Failure(e) => Failure(e)
      case Success(vs) => Success(Array(vs))
    else if IsObject(it.tag) then
      match Gather(it.kids, Bound(it), 0)
      case Failure(e) => Failure(e)
      case Success(m) => Success(Map(m))
    else BindScalar(it.tag, it.data)
  }

  /** The outcome of binding each child, in wire order. */
  function Bound(it: Item): (rs: seq<Result<Value, Error>>)
    ensures |rs| == |it.kids|
    ensures forall j :: 0 <= j < |it.kids| ==> rs[j] == Bind(it.kids[j])
    decreases it, 0
  {
    seq(|it.kids|, j requires 0 <= j < |it.kids| => Bind(it.kids[j]))
  }

  /** The children's values in order, or the error of the first child that fails. */
  function InOrder(rs: seq<Result<Value, Error>>): Result<seq<Value>, Error> {
    if rs == [] then Success([])
    else if rs[0].Failure? then Failure(rs[0].error)
    else
      match InOrder(rs[1..])
      case Failure(e) => Failure(e)
      case Success(vs) => Success([rs[0].value] + vs)
  }

  /** Child j is the one the object's map keeps for its key: no later child has that key. */
  predicate Survives(kids: seq<Item>, j: nat)
    requires j < |kids|
  {
    LastWithKey(kids, KeyAt(kids, j), j)
  }

  /**
   * The surviving children from index i on, entered into a map under their keys, or the error
   * of the first surviving child that fails. The source binds them in Go's map order, which is
   * unspecified; this reference walks them in wire order.
   */
  function Gather(kids: seq<Item>, rs: seq<Result<Value, Error>>, i: nat): Result<map<seq<byte>, Value>, Error>
    requires |rs| == |kids| && i <= |kids|
    decreases |kids| - i
  {
    if i == |kids| then Success(map[])
    else if !Survives(kids, i) then Gather(kids, rs, i + 1)
    else if rs[i].Failure? then Failure(rs[i].error)
    else
      match Gather(kids, rs, i + 1)
      case Failure(e) => Failure(e)
      case Success(m) => Success(m[KeyAt(kids, i) := rs[i].value])
  }

  /** The list is built exactly when every child binds, and holds their values in order. */
  lemma {:induction false} InOrderAll(rs: seq<Result<Value, Error>>)
    ensures InOrder(rs).Success? <==> forall j :: 0 <= j < |rs| ==> rs[j].Success?
    ensures InOrder(rs).Success? ==>
      |InOrder(rs).value| == |rs| && forall j :: 0 <= j < |rs| ==> InOrder(rs).value[j] == rs[j].value
  {
    if rs != [] {
      InOrderAll(rs[1..]);
      assert forall j :: 0 < j < |rs| ==> rs[j] == rs[1..][j - 1];
    }
  }

  /** The map is built from index i on exactly when every surviving child from there binds. */
  lemma {:induction false} GatherOk(kids: seq<Item>, rs: seq<Result<Value, Error>>, i: nat)
    requires |rs| == |kids| && i <= |kids|
    ensures Gather(kids, rs, i).Success? <==> forall j :: i <= j < |kids| && Survives(kids, j) ==> rs[j].Success?
    decreases |kids| - i
  {
    if i < |kids| {
      GatherOk(kids, rs, i + 1);
    }
  }

  /** The keys of the map built from index i on, and the value each surviving child leaves. */
  lemma GatherEntries(kids: seq<Item>, rs: seq<Result<Value, Error>>, i: nat, m: map<seq<byte>, Value>)
    requires |rs| == |kids| && i <= |kids| && Gather(kids, rs, i) == Success(m)
    ensures forall k :: k in m <==> exists j :: i <= j < |kids| && KeyAt(kids, j) == k
    ensures forall j :: i <= j < |kids| && Survives(kids, j) ==>
      KeyAt(kids, j) in m && rs[j] == Success(m[KeyAt(kids, j)])
  {
    GatherKeys(kids, rs, i, m);
    GatherValues(kids, rs, i, m);
  }

  /** The keys of the map built from index i on are the keys of the children from there. */
  lemma {:induction false} GatherKeys(kids: seq<Item>, rs: seq<Result<Value, Error>>, i: nat, m: map<seq<byte>, Value>)
    requires |rs| == |kids| && i <= |kids| && Gather(kids, rs, i) == Success(m)
    ensures forall k :: k in m <==> exists j :: i <= j < |kids| && KeyAt(kids, j) == k
    decreases |kids| - i
  {
    if i < |kids| {
      var m' := Gather(kids, rs, i + 1).value;
      GatherKeys(kids, rs, i + 1, m');
      forall k
        ensures k in m <==> exists j :: i <= j < |kids| && KeyAt(kids, j) == k
      {
        if k == KeyAt(kids, i) {
          if !Survives(kids, i) {
            var j' :| i < j' < |kids| && KeyAt(kids, j') == k;
          }
        } else {
          assert (exists j :: i <= j < |kids| && KeyAt(kids, j) == k) <==>
                 (exists j :: i + 1 <= j < |kids| && KeyAt(kids, j) == k);
        }
      }
    }
  }

  /** Each surviving child from index i on leaves its value under its key. */
  lemma {:induction false} GatherValues(kids: seq<Item>, rs: seq<Result<Value, Error>>, i: nat, m: map<seq<byte>, Value>)
    requires |rs| == |kids| && i <= |kids| && Gather(kids, rs, i) == Success(m)
    ensures forall j :: i <= j < |kids| && Survives(kids, j) ==>
      KeyAt(kids, j) in m && rs[j] == Success(m[KeyAt(kids, j)])
    decreases |kids| - i
  {
    if i < |kids| {
      var m' := Gather(kids, rs, i + 1).value;
      GatherValues(kids, rs, i + 1, m');
      forall j | i <= j < |kids| && Survives(kids, j)
        ensures KeyAt(kids, j) in m && rs[j] == Success(m[KeyAt(kids, j)])
      {
        GatherValue(kids, rs, i, m, m', j);
      }
    }
  }

  /** One step of GatherValues: child j keeps its value when child i is entered in front. */
  lemma GatherValue(kids: seq<Item>, rs: seq<Result<Value, Error>>, i: nat, m: map<seq<byte>, Value>,
                    m': map<seq<byte>, Value>, j: nat)
    requires |rs| == |kids| && i <= j < |kids| && Survives(kids, j)
    requires Gather(kids, rs, i) == Success(m) && Gather(kids, rs, i + 1) == Success(m')
    requires j > i ==> KeyAt(kids, j) in m' && rs[j] == Success(m'[KeyAt(kids, j)])
    ensures KeyAt(kids, j) in m && rs[j] == Success(m[KeyAt(kids, j)])
  {
    if Survives(kids, i) {
      assert m == m'[KeyAt(kids, i) := rs[i].value];
      if j > i {
        assert KeyAt(kids, j) != KeyAt(kids, i);
      }
    } else {
      assert m == m';
      if j == i {
        assert false;
      }
    }
  }

  /** Every value of the object map is one of the children. */
  lemma PropsValues(kids: seq<Item>, k: seq<byte>)
    requires k in Props(kids)
    ensures Props(kids)[k] in kids
  {
    PropsLastWins(kids, k);
  }

  /** The surviving child with key k is what the object map holds for k. */
  lemma SurvivorIsProp(kids: seq<Item>, j: nat)
    requires j < |kids| && Survives(kids, j)
    ensures KeyAt(kids, j) in Props(kids) && Props(kids)[KeyAt(kids, j)] == kids[j]
  {
    var k := KeyAt(kids, j);
    PropsKeys(kids, k);
    PropsLastWins(kids, k);
    var j': nat :| LastWithKey(kids, k, j') && Props(kids)[k] == kids[j'];
    assert j' == j;
  }

  /**
   * An array binds exactly when every child does, to the list of the children's values in
   * wire order.
   */
  lemma BindArrayAll(it: Item)
    requires IsArray(it.tag)
    ensures Bind(it).Success? <==> forall j :: 0 <= j < |it.kids| ==> Bind(it.kids[j]).Success?
    ensures Bind(it).Success? ==>
      Bind(it).value.Array? && |Bind(it).value.items| == |it.kids| &&
      forall j :: 0 <= j < |it.kids| ==> Bind(it).value.items[j] == Bind(it.kids[j]).value
  {
    InOrderAll(Bound(it));
  }

  /** An object binds exactly when every value of its key-to-child map does. */
  lemma BindObjectOk(it: Item)
    requires IsObject(it.tag)
    ensures Bind(it).Success? <==> forall k :: k in Props(it.kids) ==> Bind(Props(it.kids)[k]).Success?
  {
    var kids := it.kids;
    var props := Props(kids);
    var rs := Bound(it);
    var all := forall j :: 0 <= j < |kids| && Survives(kids, j) ==> rs[j].Success?;
    GatherOk(kids, rs, 0);
    assert Bind(it).Success? == all;
    if all {
      forall k | k in props ensures Bind(props[k]).Success? {
        PropsLastWins(kids, k);
        var j: nat :| LastWithKey(kids, k, j) && props[k] == kids[j];
        assert Survives(kids, j);
      }
    } else {
      var j :| 0 <= j < |kids| && Survives(kids, j) && rs[j].Failure?;
      SurvivorIsProp(kids, j);
      assert Bind(props[KeyAt(kids, j)]).Failure?;
    }
  }

  /**
   * A bound object is a map with the keys of its key-to-child map, each holding the value of
   * the child it maps to.
   */
  lemma BindObjectMap(it: Item)
    requires IsObject(it.tag) && Bind(it).Success?
    ensures Bind(it).value.Map? && Bind(it).value.entries.Keys == Props(it.kids).Keys
    ensures forall k :: k in Props(it.kids) ==> Bind(Props(it.kids)[k]) == Success(Bind(it).value.entries[k])
  {
    var kids := it.kids;
    var props := Props(kids);
    var rs := Bound(it);
    var m := Gather(kids, rs, 0).value;
    assert Bind(it).value == Map(m);
    GatherEntries(kids, rs, 0, m);
    forall k ensures k in m <==> k in props {
      PropsKeys(kids, k);
    }
    forall k | k in props ensures Bind(props[k]) == Success(m[k]) {
      PropsLastWins(kids, k);
      var j: nat :| LastWithKey(kids, k, j) && props[k] == kids[j];
      assert Survives(kids, j);
    }
  }

  /** A failed list carries the error of its first failing child: the first error aborts. */
  lemma {:induction false} InOrderFirstError(rs: seq<Result<Value, Error>>)
    requires InOrder(rs).Failure?
    ensures exists j :: 0 <= j < |rs| && rs[j] == Failure(InOrder(rs).error) &&
                        forall j' :: 0 <= j' < j ==> rs[j'].Success?
  {
    if rs[0].Success? {
      InOrderFirstError(rs[1..]);
      var j :| 0 <= j < |rs[1..]| && rs[1..][j] == Failure(InOrder(rs[1..]).error) &&
               forall j' :: 0 <= j' < j ==> rs[1..][j'].Success?;
      assert rs[j + 1] == rs[1..][j];
      forall j' | 0 <= j' < j + 1 ensures rs[j'].Success? {
        if j' > 0 {
          assert rs[j'] == rs[1..][j' - 1];
        }
      }
    }
  }

  /** A failed map carries the error of one of the surviving children. */
  lemma {:induction false} GatherError(kids: seq<Item>, rs: seq<Result<Value, Error>>, i: nat)
    requires |rs| == |kids| && i <= |kids| && Gather(kids, rs, i).Failure?
    ensures exists j :: i <= j < |kids| && Survives(kids, j) && rs[j] == Failure(Gather(kids, rs, i).error)
    decreases |kids| - i
  {
    if !Survives(kids, i) || rs[i].Success? {
      GatherError(kids, rs, i + 1);
    }
  }

  /** Binding fails only on a tag outside the chain or on content too short to convert. */
  lemma {:induction false} BindErrors(it: Item)
    ensures Bind(it).Failure? ==> Bind(it).error == InvalidPackType || Bind(it).error == OutOfBounds
    decreases it
  {
    var rs := Bound(it);
    forall j | 0 <= j < |it.kids|
      ensures rs[j].Failure? ==> rs[j].error == InvalidPackType || rs[j].error == OutOfBounds
    {
      BindErrors(it.kids[j]);
    }
    if IsArray(it.tag) && InOrder(rs).Failure? {
      InOrderFirstError(rs);
    } else if !IsArray(it.tag) && IsObject(it.tag) && Gather(it.kids, rs, 0).Failure? {
      GatherError(it.kids, rs, 0);
    }
  }

  /** A bool item binds as an int8 of its first content byte. */
  lemma BoolBindsAsInt8(name: seq<byte>, data: seq<byte>, kids: seq<Item>)
    ensures Bind(Item(PackBool, name, data, kids)) ==
      if |data| < 1 then Failure(OutOfBounds) else Success(Int8(Signed(data[0], Two8)))
  {
    assert Classify(PackBool as bv8) == KInt8;
  }

  /** Short object and array items are not containers to the binder, and fail. */
  lemma ShortContainersFail(name: seq<byte>, data: seq<byte>, kids: seq<Item>)
    ensures Bind(Item(PackObject + PackShortItem, name, data, kids)) == Failure(InvalidPackType)
    ensures Bind(Item(PackArray + PackShortItem, name, data, kids)) == Failure(InvalidPackType)
  {
    assert Classify((PackObject + PackShortItem) as bv8) == KInvalid;
    assert Classify((PackArray + PackShortItem) as bv8) == KInvalid;
  }

  /** A Map value comes only from an object item, an Array value only from an array item. */
  lemma BindShape(it: Item)
    ensures Bind(it).Success? && Bind(it).value.Map? ==> IsObject(it.tag)
    ensures Bind(it).Success? && Bind(it).value.Array? ==> IsArray(it.tag)
  {
  }

  /**
   * bind, with the source's append loops. Array children are bound in order; object children
   * are taken from the key-to-child map in an unspecified order, so when several fail the error
   * reported may be that of a different child than the reference's: the result agrees with
   * `Bind` on whether binding succeeds, and on the value when it does.
   */
  method BindItem(it: Item) returns (r: Result<Value, Error>)
    ensures r.Success? <==> Bind(it).Success?
    ensures r.Success? ==> r == Bind(it)
    decreases it, 1
  {
    if IsArray(it.tag) {
      var items := BindElements(it);
      BindArrayAll(it);
      if items.Failure? {
        return Failure(items.error);
      }
      assert Bind(it).value.items == items.value;
      return Success(Array(items.value));
    }
    if IsObject(it.tag) {
      var members := BindMembers(it);
      BindObjectOk(it);
      if members.Failure? {
        return Failure(members.error);
      }
      BindObjectMap(it);
      assert Bind(it).value.entries == members.value;
      return Success(Map(members.value));
    }
    r := BindScalar(it.tag, it.data);
  }

  /** The array loop: each child bound in turn and appended, the first error returned. */
  method BindElements(it: Item) returns (r: Result<seq<Value>, Error>)
    ensures r.Success? <==> forall j :: 0 <= j < |it.kids| ==> Bind(it.kids[j]).Success?
    ensures r.Success? ==>
      |r.value| == |it.kids| && forall j :: 0 <= j < |it.kids| ==> Bind(it.kids[j]) == Success(r.value[j])
    decreases it, 0
  {
    var resArr: seq<Value> := [];
    var i := 0;
    while i < |it.kids|
      invariant 0 <= i <= |it.kids| && |resArr| == i
      invariant forall j :: 0 <= j < i ==> Bind(it.kids[j]) == Success(resArr[j])
    {
      var sb := BindItem(it.kids[i]);
      if sb.Failure? {
        return Failure(sb.error);
      }
      resArr := resArr + [sb.value];
      i := i + 1;
    }
    return Success(resArr);
  }

  /** The object loop: each entry of the key-to-child map bound and stored, the first error returned. */
  method BindMembers(it: Item) returns (r: Result<map<seq<byte>, Value>, Error>)
    ensures r.Success? <==> forall k :: k in Props(it.kids) ==> Bind(Props(it.kids)[k]).Success?
    ensures r.Success? ==>
      r.value.Keys == Props(it.kids).Keys &&
      forall k :: k in Props(it.kids) ==> Bind(Props(it.kids)[k]) == Success(r.value[k])
    decreases it, 0
  {
    var props := Props(it.kids);
    var resMap: map<seq<byte>, Value> := map[];
    var remaining := props.Keys;
    while remaining != {}
      invariant remaining <= props.Keys
      invariant resMap.Keys == props.Keys - remaining
      invariant forall k :: k in resMap ==> Bind(props[k]) == Success(resMap[k])
      decreases remaining
    {
      var name :| name in remaining;
      PropsValues(it.kids, name);
      var sb := BindItem(props[name]);
      if sb.Failure? {
        return Failure(sb.error);
      }
      resMap := resMap[name := sb.value];
      remaining := remaining - {name};
    }
    return Success(resMap);
  }
}
