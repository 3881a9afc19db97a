/**
 * The mcpack v2 item reader: how a byte buffer is cut into a tree of items.
 *
 * Every item is laid out as
 *   type byte | name-length byte | [content length: none, 1 byte or 4 bytes LE] | name | content
 * where the type's low nibble, when non-zero, is the content length of a fixed-size item, bit 0x80
 * marks a short item (one length byte) and all other items carry a four-byte little-endian length.
 * The content of an object (0x10) or array (0x20) item starts with a four-byte child count
 * followed by the children, each laid out the same way.
 */
module McPackRead {
  import opened Wrappers
  import opened Bytes

  const PackObject: byte := 0x10
  const PackArray: byte := 0x20
  const PackString: byte := 0x50
  const PackRaw: byte := 0x60
  const PackInt8: byte := 0x11
  const PackInt16: byte := 0x12
  const PackInt32: byte := 0x14
  const PackInt64: byte := 0x18
  const PackUint8: byte := 0x21
  const PackUint16: byte := 0x22
  const PackUint32: byte := 0x24
  const PackUint64: byte := 0x28
  const PackBool: byte := 0x31
  const PackFloat: byte := 0x44
  const PackDouble: byte := 0x48
  const PackNull: byte := 0x61
  const PackShortItem: byte := 0x80
  const PackFixedItem: byte := 0x0f
  const PackDeletedItem: byte := 0x70
  /** The version-1 container tags, which the v2 container tests also accept. */
  const V1PackObject: byte := 0x02
  const V1PackArray: byte := 0x04

  /** `tag & 0x70 == 0`: an item none of whose bits 0x70 is set counts as deleted. */
  predicate IsDeleted(tag: byte) { (tag / 16) % 8 == 0 }
  /** `tag & 0x80 != 0`. */
  predicate IsShort(tag: byte) { tag >= 0x80 }
  /** `tag & 0x0f != 0`. */
  predicate IsFixed(tag: byte) { tag % 16 != 0 }
  predicate IsArray(tag: byte) { tag == PackArray || tag == V1PackArray }
  predicate IsObject(tag: byte) { tag == PackObject || tag == V1PackObject }

  /**
   * The tests above are the source's masks on the tag's bits: for every bit pattern `b` of a
   * tag, deleted is `b & 0x70 == 0`, short is `b & 0x80 != 0`, fixed is `b & 0x0f != 0` and the
   * fixed content length is `b & 0x0f`.
   */
  lemma DeletedMask(b: bv8)
    ensures IsDeleted(b as int) <==> b & 0x70 == 0
  {
  }

  lemma ShortMask(b: bv8)
    ensures IsShort(b as int) <==> b & 0x80 != 0
  {
  }

  lemma FixedMask(b: bv8)
    ensures FixedSize(b as int) == (b & 0x0f) as int
    ensures IsFixed(b as int) <==> b & 0x0f != 0
  {
  }

  /** The content length a fixed-size item's tag announces: `tag & 0x0f`. */
  function FixedSize(tag: byte): (n: nat)
    ensures n < 16
    ensures n == 0 <==> !IsFixed(tag)
  {
    tag % 16
  }

  /** The bytes before the name: type and name length, then 0, 1 or 4 length bytes. */
  function HeaderSize(tag: byte): (n: nat)
    ensures n == 2 <==> IsFixed(tag)
    ensures n == 3 <==> !IsFixed(tag) && IsShort(tag)
    ensures n == 6 <==> !IsFixed(tag) && !IsShort(tag)
  {
    if IsFixed(tag) then 2 else if IsShort(tag) then 3 else 6
  }

  /**
   * A decoded item. `kids` holds the children of an array or object in wire order; for an object
   * the source keeps them in a map from key to child instead, which is `Props(kids)` below.
   */
  datatype Item = Item(tag: byte, name: seq<byte>, data: seq<byte>, kids: seq<Item>)

  /** The number of bytes the item occupies in the buffer (`size()`). */
  function Size(it: Item): nat {
    HeaderSize(it.tag) + |it.name| + |it.data|
  }

  /** An object child's key: its name without one trailing NUL byte. */
  function Key(name: seq<byte>): seq<byte> {
    if |name| > 0 && name[|name| - 1] == 0 then name[..|name| - 1] else name
  }

  function KeyAt(kids: seq<Item>, j: nat): seq<byte>
    requires j < |kids|
  {
    Key(kids[j].name)
  }

  /** The object's key-to-child map: children are entered in wire order, so later duplicates win. */
  function Props(kids: seq<Item>): map<seq<byte>, Item>
    decreases |kids|
  {
    if kids == [] then map[]
    else Props(kids[..|kids| - 1])[Key(kids[|kids| - 1].name) := kids[|kids| - 1]]
  }

  /** Child j is the last child with key k. */
  predicate LastWithKey(kids: seq<Item>, k: seq<byte>, j: nat) {
    j < |kids| && KeyAt(kids, j) == k &&
    forall j' :: j < j' < |kids| ==> KeyAt(kids, j') != k
  }

  /** A key is in the map exactly when some child has it. */
  lemma {:induction false} PropsKeys(kids: seq<Item>, k: seq<byte>)
    ensures k in Props(kids) <==> exists j :: 0 <= j < |kids| && KeyAt(kids, j) == k
    decreases |kids|
  {
    if kids != [] {
      var n := |kids| - 1;
      var init := kids[..n];
      assert Props(kids) == Props(init)[KeyAt(kids, n) := kids[n]];
      PropsKeys(init, k);
      if KeyAt(kids, n) != k && exists j :: 0 <= j < |kids| && KeyAt(kids, j) == k {
        var j :| 0 <= j < |kids| && KeyAt(kids, j) == k;
        assert KeyAt(init, j) == k;
      }
      if KeyAt(kids, n) != k && k in Props(kids) {
        var j :| 0 <= j < |init| && KeyAt(init, j) == k;
        assert KeyAt(kids, j) == k;
      }
    }
  }

  /** A key maps to the last child that has it. */
  lemma {:induction false} PropsLastWins(kids: seq<Item>, k: seq<byte>)
    requires k in Props(kids)
    ensures exists j: nat :: LastWithKey(kids, k, j) && Props(kids)[k] == kids[j]
    decreases |kids|
  {
    var n := |kids| - 1;
    var init := kids[..n];
    assert Props(kids) == Props(init)[KeyAt(kids, n) := kids[n]];
    if KeyAt(kids, n) == k {
      assert LastWithKey(kids, k, n);
    } else {
      PropsLastWins(init, k);
      var j: nat :| LastWithKey(init, k, j) && Props(init)[k] == init[j];
      forall j' | j < j' < |kids| ensures KeyAt(kids, j') != k {
        if j' < n {
          assert KeyAt(init, j') == KeyAt(kids, j');
        }
      }
      assert LastWithKey(kids, k, j);
    }
  }

  /** All children carry different keys. */
  predicate DistinctKeys(kids: seq<Item>) {
    forall i, j :: 0 <= i < j < |kids| ==> KeyAt(kids, i) != KeyAt(kids, j)
  }

  /** The map has one entry per child exactly when no two children share a key. */
  lemma {:induction false} PropsCount(kids: seq<Item>)
    ensures |Props(kids)| <= |kids|
    ensures |Props(kids)| == |kids| <==> DistinctKeys(kids)
    decreases |kids|
  {
    if kids != [] {
      var n := |kids| - 1;
      var init := kids[..n];
      var k := KeyAt(kids, n);
      assert Props(kids) == Props(init)[k := kids[n]];
      assert forall j :: 0 <= j < n ==> KeyAt(init, j) == KeyAt(kids, j);
      PropsCount(init);
      PropsKeys(init, k);
      if k in Props(init) {
        assert Props(kids).Keys == Props(init).Keys;
        var j :| 0 <= j < n && KeyAt(init, j) == k;
        assert KeyAt(kids, j) == KeyAt(kids, n);
        assert !DistinctKeys(kids);
      } else {
        assert Props(kids).Keys == Props(init).Keys + {k};
        assert |Props(kids)| == |Props(init)| + 1;
        assert DistinctKeys(kids) ==> DistinctKeys(init);
        if DistinctKeys(init) {
          forall i, j | 0 <= i < j < |kids| ensures KeyAt(kids, i) != KeyAt(kids, j) {
            if j == n {
              assert KeyAt(init, i) == KeyAt(kids, i);
            } else {
              assert KeyAt(init, i) != KeyAt(init, j);
            }
          }
        }
      }
    }
  }

  // ---- the functional reading of readObjectAt ----

  datatype Error =
    | InvalidPack        // the source's InvalidPackError
    | InvalidPackType    // "invalid pack type": a scalar tag bind does not recognise
    | InvalidRoot        // "invalid root data type": the root item is not an object
    | OutOfBounds        // an unchecked slice or index the source performs runs past the buffer (a panic)

  /** What an item's header announces. */
  datatype Header = Header(tag: byte, nameLen: nat, contentSize: nat)

  /**
   * The header of the item at `start`: type, name length and content length, each read through
   * the bounds check `advanceOffset`, which fails with InvalidPack. A deleted type is rejected
   * before the content length is read.
   */
  function ReadHeader(buf: seq<byte>, start: nat): (r: Result<Header, Error>)
    ensures r.Success? ==> start + HeaderSize(r.value.tag) <= |buf|
    ensures r.Success? ==> r.value.tag == buf[start] && r.value.nameLen == buf[start + 1]
    ensures r.Success? ==> !IsDeleted(r.value.tag)
    ensures r.Success? && IsFixed(r.value.tag) ==> r.value.contentSize == FixedSize(r.value.tag)
    ensures r.Failure? ==> r.error == InvalidPack
  {
    if start + 1 > |buf| then Failure(InvalidPack)
    else
      var tag := buf[start];
      if start + 2 > |buf| then Failure(InvalidPack)
      else
        var nameLen := buf[start + 1];
        if IsDeleted(tag) then Failure(InvalidPack)
        else if IsFixed(tag) then Success(Header(tag, nameLen, FixedSize(tag)))
        else if IsShort(tag) then
          if start + 3 > |buf| then Failure(InvalidPack)
          else Success(Header(tag, nameLen, buf[start + 2]))
        else
          if start + 6 > |buf| then Failure(InvalidPack)
          else Success(Header(tag, nameLen, LE32(buf[start + 2..start + 6])))
  }

  /** What a container's count is compared with: its children, or an object's distinct keys. */
  function Found(tag: byte, kids: seq<Item>): nat {
    if IsArray(tag) then |kids| else |Props(kids)|
  }

  /**
   * A container item once its children have been read: the number found must equal the
   * declared count, compared as uint32.
   */
  function Checked(tag: byte, name: seq<byte>, data: seq<byte>, count: nat,
                   kids: Result<seq<Item>, Error>): (r: Result<Item, Error>)
    ensures kids.Failure? ==> r == Failure(kids.error)
    ensures kids.Success? && Found(tag, kids.value) % Two32 != count ==> r == Failure(InvalidPack)
    ensures kids.Success? && Found(tag, kids.value) % Two32 == count ==> r == Success(Item(tag, name, data, kids.value))
  {
    match kids
    case Failure(e) => Failure(e)
    case Success(kids) =>
      if Found(tag, kids) % Two32 != count then Failure(InvalidPack)
      else Success(Item(tag, name, data, kids))
  }

  /** The item that starts at `start`: its header, then the rest of it. */
  function ParseItem(buf: seq<byte>, start: nat): Result<Item, Error>
    decreases |buf| - start, 2
  {
    match ReadHeader(buf, start)
    case Failure(e) => Failure(e)
    case Success(h) => ParseBody(buf, start, h)
  }

  /**
   * The rest of the item at `start` once its header `h` is read. The name is read through the
   * bounds check; the content slice and the child count of a container are taken without one,
   * which the model reports as OutOfBounds. Children are read from the whole buffer, not from
   * the parent's content, until the next child would start at or past the end of the content.
   */
  function ParseBody(buf: seq<byte>, start: nat, h: Header): Result<Item, Error>
    decreases |buf| - start, 1
  {
    var nameAt := start + HeaderSize(h.tag);
    var dataAt := nameAt + h.nameLen;
    var end := dataAt + h.contentSize;
    if dataAt > |buf| then Failure(InvalidPack)
    else if end > |buf| then Failure(OutOfBounds)
    else if !IsArray(h.tag) && !IsObject(h.tag) then
      Success(Item(h.tag, buf[nameAt..dataAt], buf[dataAt..end], []))
    else if dataAt + 4 > |buf| then Failure(OutOfBounds)
    else Checked(h.tag, buf[nameAt..dataAt], buf[dataAt..end], LE32(buf[dataAt..dataAt + 4]),
                 ParseKids(buf, dataAt + 4, end))
  }

  /** The children read one after another from `pos` while they start before `end`. */
  function ParseKids(buf: seq<byte>, pos: nat, end: nat): Result<seq<Item>, Error>
    requires end <= |buf|
    decreases |buf| - pos, 3
  {
    if pos >= end then Success([])
    else
      match ParseItem(buf, pos)
      case Failure(e) => Failure(e)
      case Success(kid) =>
        match ParseKids(buf, pos + Size(kid), end)
        case Failure(e) => Failure(e)
        case Success(rest) => Success([kid] + rest)
  }

  /** `kids` followed by the outcome of reading the remaining children. */
  function Prepend(kids: seq<Item>, rest: Result<seq<Item>, Error>): Result<seq<Item>, Error> {
    match rest
    case Failure(e) => Failure(e)
    case Success(more) => Success(kids + more)
  }

  /** A header that cannot be read is the outcome of the whole read. */
  lemma HeaderFails(buf: seq<byte>, start: nat)
    requires ReadHeader(buf, start).Failure?
    ensures ParseItem(buf, start) == Failure(InvalidPack)
  {
  }

  /** Once the header is read, the item is the rest read after it. */
  lemma ItemIsBody(buf: seq<byte>, start: nat, h: Header)
    requires ReadHeader(buf, start) == Success(h)
    ensures ParseItem(buf, start) == ParseBody(buf, start, h)
  {
  }

  /** ParseBody on a container whose name, content and count are all in the buffer. */
  lemma ContainerBody(buf: seq<byte>, start: nat, h: Header, nameAt: nat, dataAt: nat)
    requires IsArray(h.tag) || IsObject(h.tag)
    requires nameAt == start + HeaderSize(h.tag) && dataAt == nameAt + h.nameLen
    requires dataAt + h.contentSize <= |buf| && dataAt + 4 <= |buf|
    ensures ParseBody(buf, start, h) ==
      Checked(h.tag, buf[nameAt..dataAt], buf[dataAt..dataAt + h.contentSize],
              LE32(buf[dataAt..dataAt + 4]), ParseKids(buf, dataAt + 4, dataAt + h.contentSize))
  {
  }

  /** ParseBody on a scalar whose name and content are in the buffer. */
  lemma ScalarBody(buf: seq<byte>, start: nat, h: Header, nameAt: nat, dataAt: nat)
    requires !IsArray(h.tag) && !IsObject(h.tag)
    requires nameAt == start + HeaderSize(h.tag) && dataAt == nameAt + h.nameLen
    requires dataAt + h.contentSize <= |buf|
    ensures ParseBody(buf, start, h) == Success(Item(h.tag, buf[nameAt..dataAt], buf[dataAt..dataAt + h.contentSize], []))
  {
  }

  lemma KidsStep(buf: seq<byte>, pos: nat, end: nat)
    requires end <= |buf| && pos < end
    ensures ParseItem(buf, pos).Failure? ==> ParseKids(buf, pos, end) == Failure(ParseItem(buf, pos).error)
    ensures ParseItem(buf, pos).Success? ==>
      var kid := ParseItem(buf, pos).value;
      ParseKids(buf, pos, end) == Prepend([kid], ParseKids(buf, pos + Size(kid), end))
  {
  }

  /** A successful non-empty read of children: the first child, then the rest after it. */
  lemma KidsCons(buf: seq<byte>, pos: nat, end: nat, kids: seq<Item>)
    requires end <= |buf| && pos < end && ParseKids(buf, pos, end) == Success(kids)
    ensures |kids| > 0 && ParseItem(buf, pos) == Success(kids[0])
    ensures ParseKids(buf, pos + Size(kids[0]), end) == Success(kids[1..])
  {
  }

  /** The tail half of KidsCons, for proofs that do not need the first child. */
  lemma KidsTail(buf: seq<byte>, pos: nat, end: nat, kids: seq<Item>)
    requires end <= |buf| && pos < end && ParseKids(buf, pos, end) == Success(kids)
    ensures |kids| > 0 && ParseKids(buf, pos + Size(kids[0]), end) == Success(kids[1..])
  {
    KidsCons(buf, pos, end, kids);
  }

  /** Reading a first child and then the rest is reading the children. */
  lemma KidsBuild(buf: seq<byte>, pos: nat, end: nat, kid: Item, rest: seq<Item>)
    requires end <= |buf| && pos < end
    requires ParseItem(buf, pos) == Success(kid) && ParseKids(buf, pos + Size(kid), end) == Success(rest)
    ensures ParseKids(buf, pos, end) == Success([kid] + rest)
  {
  }

  lemma PrependNothing(rest: Result<seq<Item>, Error>)
    ensures Prepend([], rest) == rest
  {
    if rest.Success? {
      assert [] + rest.value == rest.value;
    }
  }

  lemma PrependTwice(a: seq<Item>, b: seq<Item>, rest: Result<seq<Item>, Error>)
    ensures Prepend(a, Prepend(b, rest)) == Prepend(a + b, rest)
  {
    if rest.Success? {
      assert a + (b + rest.value) == (a + b) + rest.value;
    }
  }

  lemma PropsSnoc(kids: seq<Item>, kid: Item)
    ensures Props(kids + [kid]) == Props(kids)[Key(kid.name) := kid]
  {
    assert (kids + [kid])[..|kids|] == kids;
  }

  /**
   * readObjectAt: reads the item at `offset` with a running offset that every header field
   * advances through a bounds check, then loops over the children of a container.
   */
  method ReadObjectAt(buf: seq<byte>, bufLength: nat, offset0: nat) returns (r: Result<Item, Error>)
    requires bufLength == |buf|
    ensures r == ParseItem(buf, offset0)
    decreases |buf| - offset0, 2
  {
    var offset := offset0;
    if offset + 1 > bufLength { HeaderFails(buf, offset0); return Failure(InvalidPack); }
    offset := offset + 1;
    var tag := buf[offset - 1];
    if offset + 1 > bufLength { HeaderFails(buf, offset0); return Failure(InvalidPack); }
    offset := offset + 1;
    var nameLen := buf[offset - 1];
    if IsDeleted(tag) { HeaderFails(buf, offset0); return Failure(InvalidPack); }
    var contentSize: nat := 0;
    if IsFixed(tag) {
      contentSize := FixedSize(tag);
    } else if IsShort(tag) {
      if offset + 1 > bufLength { HeaderFails(buf, offset0); return Failure(InvalidPack); }
      offset := offset + 1;
      contentSize := buf[offset - 1];
    } else {
      if offset + 4 > bufLength { HeaderFails(buf, offset0); return Failure(InvalidPack); }
      offset := offset + 4;
      contentSize := LE32(buf[offset - 4..offset]);
    }
    var h := Header(tag, nameLen, contentSize);
    assert offset == offset0 + HeaderSize(tag);
    assert ReadHeader(buf, offset0) == Success(h);
    ItemIsBody(buf, offset0, h);
    r := ReadBody(buf, bufLength, offset0, offset, h);
  }

  /**
   * The rest of readObjectAt once the header is read and `offset` is past it: the name through
   * the bounds check, the content and count slices without one, then the children.
   */
  method ReadBody(buf: seq<byte>, bufLength: nat, offset0: nat, offset: nat, h: Header)
      returns (r: Result<Item, Error>)
    requires bufLength == |buf| && offset == offset0 + HeaderSize(h.tag)
    ensures r == ParseBody(buf, offset0, h)
    decreases |buf| - offset0, 1
  {
    var tag, nameLen, contentSize := h.tag, h.nameLen, h.contentSize;
    var offset := offset;
    if offset + nameLen > bufLength { return Failure(InvalidPack); }
    offset := offset + nameLen;
    var name := buf[offset - nameLen..offset];
    if offset + contentSize > |buf| { return Failure(OutOfBounds); }
    var data := buf[offset..offset + contentSize];
    if IsArray(tag) || IsObject(tag) {
      r := ReadContainer(buf, bufLength, offset0, h, name, offset);
      return;
    }
    ScalarBody(buf, offset0, h, offset - nameLen, offset);
    return Success(Item(tag, name, data, []));
  }

  /**
   * The container branch of readObjectAt, with `dataAt` at the content: the child count, the
   * children, and the check of the count against what was read.
   */
  method ReadContainer(buf: seq<byte>, bufLength: nat, offset0: nat, h: Header, name: seq<byte>, dataAt: nat)
      returns (r: Result<Item, Error>)
    requires IsArray(h.tag) || IsObject(h.tag)
    requires bufLength == |buf| && dataAt == offset0 + HeaderSize(h.tag) + h.nameLen
    requires dataAt + h.contentSize <= |buf| && name == buf[dataAt - h.nameLen..dataAt]
    ensures r == ParseBody(buf, offset0, h)
    decreases |buf| - offset0, 0
  {
    var tag, offset, end := h.tag, dataAt, dataAt + h.contentSize;
    var data := buf[offset..end];
    if offset + 4 > |buf| { return Failure(OutOfBounds); }
    var count := LE32(buf[offset..offset + 4]);
    ContainerBody(buf, offset0, h, offset - h.nameLen, offset);
    var kids, props := ReadChildren(buf, bufLength, offset + 4, end);
    ghost var spec := Checked(tag, name, data, count, kids);
    assert ParseBody(buf, offset0, h) == spec;
    if kids.Failure? { return Failure(kids.error); }
    var found := if IsArray(tag) then |kids.value| else |props|;
    assert found == Found(tag, kids.value);
    if found % Two32 != count { return Failure(InvalidPack); }
    return Success(Item(tag, name, data, kids.value));
  }

  /**
   * The child loop of readObjectAt: reads children from `from` while the next one starts before
   * `end`, advancing by each child's size, and keeps the key-to-child map of an object.
   */
  method ReadChildren(buf: seq<byte>, bufLength: nat, from: nat, end: nat)
      returns (r: Result<seq<Item>, Error>, props: map<seq<byte>, Item>)
    requires bufLength == |buf| && end <= |buf|
    ensures r == ParseKids(buf, from, end)
    ensures r.Success? ==> props == Props(r.value)
    decreases |buf| - from, 3
  {
    var kids: seq<Item> := [];
    props := map[];
    var innerOff := from;
    PrependNothing(ParseKids(buf, innerOff, end));
    while innerOff < end
      invariant from <= innerOff
      invariant ParseKids(buf, from, end) == Prepend(kids, ParseKids(buf, innerOff, end))
      invariant props == Props(kids)
      decreases end - innerOff
    {
      var obj := ReadObjectAt(buf, bufLength, innerOff);
      KidsStep(buf, innerOff, end);
      if obj.Failure? { return Failure(obj.error), props; }
      var kid := obj.value;
      PrependTwice(kids, [kid], ParseKids(buf, innerOff + Size(kid), end));
      PropsSnoc(kids, kid);
      props := props[Key(kid.name) := kid];
      kids := kids + [kid];
      innerOff := innerOff + Size(kid);
    }
    assert ParseKids(buf, innerOff, end) == Success([]);
    assert kids + [] == kids;
    return Success(kids), props;
  }

  // ---- properties of the reader ----

  /** A successful read's header, and the rest of the item read after it. */
  lemma HeaderOf(buf: seq<byte>, start: nat, it: Item) returns (h: Header)
    requires ParseItem(buf, start) == Success(it)
    ensures ReadHeader(buf, start) == Success(h) && ParseBody(buf, start, h) == Success(it)
  {
    h := ReadHeader(buf, start).value;
  }

  /** What a successfully read item is made of, in terms of its header. */
  lemma BodyOf(buf: seq<byte>, start: nat, h: Header, it: Item) returns (nameAt: nat, dataAt: nat)
    requires ParseBody(buf, start, h) == Success(it)
    ensures nameAt == start + HeaderSize(h.tag) && dataAt == nameAt + h.nameLen
    ensures dataAt + h.contentSize <= |buf|
    ensures it.tag == h.tag && it.name == buf[nameAt..dataAt] && it.data == buf[dataAt..dataAt + h.contentSize]
    ensures |it.name| == h.nameLen && |it.data| == h.contentSize
    ensures !IsArray(h.tag) && !IsObject(h.tag) ==> it.kids == []
    ensures IsArray(h.tag) || IsObject(h.tag) ==>
      && dataAt + 4 <= |buf|
      && ParseKids(buf, dataAt + 4, dataAt + h.contentSize) == Success(it.kids)
      && Found(h.tag, it.kids) % Two32 == LE32(buf[dataAt..dataAt + 4])
  {
    nameAt := start + HeaderSize(h.tag);
    dataAt := nameAt + h.nameLen;
  }

  /** HeaderOf and BodyOf together. */
  lemma Unfold(buf: seq<byte>, start: nat, it: Item) returns (h: Header, nameAt: nat, dataAt: nat)
    requires ParseItem(buf, start) == Success(it)
    ensures ReadHeader(buf, start) == Success(h) && ParseBody(buf, start, h) == Success(it)
    ensures nameAt == start + HeaderSize(h.tag) && dataAt == nameAt + h.nameLen
    ensures dataAt + h.contentSize <= |buf|
    ensures it.tag == h.tag && it.name == buf[nameAt..dataAt] && it.data == buf[dataAt..dataAt + h.contentSize]
    ensures |it.name| == h.nameLen && |it.data| == h.contentSize
    ensures !IsArray(h.tag) && !IsObject(h.tag) ==> it.kids == []
    ensures IsArray(h.tag) || IsObject(h.tag) ==>
      && dataAt + 4 <= |buf|
      && ParseKids(buf, dataAt + 4, dataAt + h.contentSize) == Success(it.kids)
      && Found(h.tag, it.kids) % Two32 == LE32(buf[dataAt..dataAt + 4])
  {
    h := HeaderOf(buf, start, it);
    nameAt, dataAt := BodyOf(buf, start, h, it);
  }

  /** A successfully read item's tag is the byte it starts at, and is not deleted. */
  lemma ItemTag(buf: seq<byte>, start: nat, it: Item)
    requires ParseItem(buf, start) == Success(it)
    ensures start < |buf| && it.tag == buf[start] && !IsDeleted(it.tag)
  {
    var h := HeaderOf(buf, start, it);
    var nameAt, dataAt := BodyOf(buf, start, h, it);
  }

  /** A header that does not fit in the buffer, or a deleted type, fails with InvalidPack. */
  lemma HeaderFailures(buf: seq<byte>, start: nat)
    ensures start + 2 > |buf| ==> ParseItem(buf, start) == Failure(InvalidPack)
    ensures start + 2 <= |buf| && IsDeleted(buf[start]) ==> ParseItem(buf, start) == Failure(InvalidPack)
    ensures start + 2 <= |buf| && !IsDeleted(buf[start]) && start + HeaderSize(buf[start]) > |buf| ==>
      ParseItem(buf, start) == Failure(InvalidPack)
  {
  }

  /**
   * The version-1 container tags pass the container tests but are rejected as deleted items,
   * so no item read from a buffer is ever a version-1 container.
   */
  lemma V1ContainersRejected(buf: seq<byte>, start: nat)
    requires start < |buf| && (buf[start] == V1PackObject || buf[start] == V1PackArray)
    ensures IsObject(V1PackObject) && IsArray(V1PackArray)
    ensures ParseItem(buf, start) == Failure(InvalidPack)
  {
  }

  /** A name that runs past the buffer end is caught by the bounds check. */
  lemma NamePastEnd(buf: seq<byte>, start: nat, h: Header)
    requires ReadHeader(buf, start) == Success(h)
    requires start + HeaderSize(h.tag) + h.nameLen > |buf|
    ensures ParseItem(buf, start) == Failure(InvalidPack)
  {
    assert ParseItem(buf, start) == ParseBody(buf, start, h);
  }

  /**
   * A header and name that fit but content that runs past the buffer end is not caught by the
   * bounds check: the content slice is out of range.
   */
  lemma ContentPastEnd(buf: seq<byte>, start: nat, h: Header)
    requires ReadHeader(buf, start) == Success(h)
    requires start + HeaderSize(h.tag) + h.nameLen <= |buf| < start + HeaderSize(h.tag) + h.nameLen + h.contentSize
    ensures ParseItem(buf, start) == Failure(OutOfBounds)
  {
    assert ParseItem(buf, start) == ParseBody(buf, start, h);
  }

  /**
   * The child count of a container is read from the four bytes after the name even when the
   * content is shorter than four bytes; past the buffer end that read is out of range.
   */
  lemma CountPastEnd(buf: seq<byte>, start: nat, h: Header)
    requires ReadHeader(buf, start) == Success(h)
    requires IsArray(h.tag) || IsObject(h.tag)
    requires start + HeaderSize(h.tag) + h.nameLen + h.contentSize <= |buf| < start + HeaderSize(h.tag) + h.nameLen + 4
    ensures ParseItem(buf, start) == Failure(OutOfBounds)
  {
    assert ParseItem(buf, start) == ParseBody(buf, start, h);
  }

  /** Where an item's content starts, relative to the item's own start. */
  function DataAt(start: nat, it: Item): nat {
    start + HeaderSize(it.tag) + |it.name|
  }

  /**
   * A read item occupies exactly Size(item) bytes: header, then the name, then the content, so
   * the next sibling starts right after the content; the header fields are the item's lengths.
   */
  lemma ItemLayout(buf: seq<byte>, start: nat, it: Item)
    requires ParseItem(buf, start) == Success(it)
    ensures start + Size(it) <= |buf|
    ensures it.tag == buf[start] && !IsDeleted(it.tag) && |it.name| == buf[start + 1]
    ensures it.name == buf[start + HeaderSize(it.tag)..DataAt(start, it)]
    ensures it.data == buf[DataAt(start, it)..start + Size(it)]
    ensures IsFixed(it.tag) ==> |it.data| == FixedSize(it.tag)
    ensures !IsFixed(it.tag) && IsShort(it.tag) ==> |it.data| == buf[start + 2]
    ensures !IsFixed(it.tag) && !IsShort(it.tag) ==> |it.data| == LE32(buf[start + 2..start + 6])
    ensures !IsArray(it.tag) && !IsObject(it.tag) ==> it.kids == []
  {
    var h, nameAt, dataAt := Unfold(buf, start, it);
  }

  /** Where the i-th child starts: right after the previous children. */
  function KidOffset(pos: nat, kids: seq<Item>, i: nat): nat
    requires i <= |kids|
  {
    if i == 0 then pos else KidOffset(pos, kids, i - 1) + Size(kids[i - 1])
  }

  /**
   * The children are the items read one after another from `pos`: each starts where the previous
   * one ends and before `end`, and the one after the last would start at or past `end`.
   */
  lemma KidsInWireOrder(buf: seq<byte>, pos: nat, end: nat, kids: seq<Item>)
    requires end <= |buf| && ParseKids(buf, pos, end) == Success(kids)
    ensures forall i :: 0 <= i < |kids| ==>
      KidOffset(pos, kids, i) < end && ParseItem(buf, KidOffset(pos, kids, i)) == Success(kids[i])
    ensures KidOffset(pos, kids, |kids|) >= end
  {
    forall i | 0 <= i < |kids|
      ensures KidOffset(pos, kids, i) < end && ParseItem(buf, KidOffset(pos, kids, i)) == Success(kids[i])
    {
      KidAt(buf, pos, end, kids, i);
    }
    KidsEnd(buf, pos, end, kids);
  }

  /** The i-th child is the item read where the children before it end. */
  lemma {:induction false} KidAt(buf: seq<byte>, pos: nat, end: nat, kids: seq<Item>, i: nat)
    requires end <= |buf| && ParseKids(buf, pos, end) == Success(kids) && i < |kids|
    ensures KidOffset(pos, kids, i) < end && ParseItem(buf, KidOffset(pos, kids, i)) == Success(kids[i])
    decreases i
  {
    if i == 0 {
      KidsCons(buf, pos, end, kids);
    } else {
      KidsTail(buf, pos, end, kids);
      var next := pos + Size(kids[0]);
      KidAt(buf, next, end, kids[1..], i - 1);
      KidOffsetShift(pos, kids, i - 1);
      assert kids[1..][i - 1] == kids[i];
      assert KidOffset(pos, kids, i) == KidOffset(next, kids[1..], i - 1);
    }
  }

  /** After the last child the next offset is at or past the end. */
  lemma {:induction false} KidsEnd(buf: seq<byte>, pos: nat, end: nat, kids: seq<Item>)
    requires end <= |buf| && ParseKids(buf, pos, end) == Success(kids)
    ensures KidOffset(pos, kids, |kids|) >= end
    decreases |kids|
  {
    if pos < end {
      KidsTail(buf, pos, end, kids);
      KidsEnd(buf, pos + Size(kids[0]), end, kids[1..]);
      KidOffsetShift(pos, kids, |kids| - 1);
    }
  }

  lemma {:induction false} KidOffsetShift(pos: nat, kids: seq<Item>, i: nat)
    requires i < |kids|
    ensures KidOffset(pos, kids, i + 1) == KidOffset(pos + Size(kids[0]), kids[1..], i)
  {
    if i > 0 {
      KidOffsetShift(pos, kids, i - 1);
      assert kids[1..][i - 1] == kids[i];
    }
  }

  /** Children start before `end` and each takes at least two bytes, so there are at most `end - pos`. */
  lemma {:induction false} KidsBound(buf: seq<byte>, pos: nat, end: nat, kids: seq<Item>)
    requires end <= |buf| && ParseKids(buf, pos, end) == Success(kids)
    ensures |kids| <= if pos < end then end - pos else 0
    decreases |kids|
  {
    if pos < end {
      KidsTail(buf, pos, end, kids);
      KidsBound(buf, pos + Size(kids[0]), end, kids[1..]);
    }
  }


  /**
   * In a buffer shorter than 4 GiB the count check is exact: an array has exactly the declared
   * number of children and an object exactly that many distinct keys.
   */
  lemma ContainerCount(buf: seq<byte>, start: nat, it: Item)
    requires ParseItem(buf, start) == Success(it) && |buf| < Two32
    requires IsArray(it.tag) || IsObject(it.tag)
    ensures DataAt(start, it) + 4 <= |buf|
    ensures IsArray(it.tag) ==> |it.kids| == LE32(buf[DataAt(start, it)..DataAt(start, it) + 4])
    ensures IsObject(it.tag) ==> |Props(it.kids)| == LE32(buf[DataAt(start, it)..DataAt(start, it) + 4])
  {
    var h, nameAt, dataAt := Unfold(buf, start, it);
    assert DataAt(start, it) == dataAt;
    KidsBound(buf, dataAt + 4, dataAt + h.contentSize, it.kids);
    CountExact(it.tag, it.kids, LE32(buf[dataAt..dataAt + 4]));
  }

  lemma CountExact(tag: byte, kids: seq<Item>, count: nat)
    requires Found(tag, kids) % Two32 == count && |kids| < Two32
    ensures IsArray(tag) ==> |kids| == count
    ensures !IsArray(tag) ==> |Props(kids)| == count
  {
    PropsBound(kids);
    ModSmall(Found(tag, kids), Two32);
  }

  lemma PropsBound(kids: seq<Item>)
    ensures |Props(kids)| <= |kids|
  {
    PropsCount(kids);
  }

  /**
   * An object whose declared count equals its number of children is rejected when two children
   * share a key: later duplicates overwrite earlier ones, leaving fewer distinct keys.
   */
  lemma DuplicateKeysRejected(buf: seq<byte>, start: nat, it: Item)
    requires ParseItem(buf, start) == Success(it) && |buf| < Two32 && IsObject(it.tag)
    ensures DataAt(start, it) + 4 <= |buf|
    ensures |it.kids| == LE32(buf[DataAt(start, it)..DataAt(start, it) + 4]) ==> DistinctKeys(it.kids)
  {
    ContainerCount(buf, start, it);
    PropsCount(it.kids);
  }

  /** Bytes after a successfully read item do not change what is read. */
  lemma {:induction false} ParseItemExtend(buf: seq<byte>, extra: seq<byte>, start: nat, it: Item)
    requires ParseItem(buf, start) == Success(it)
    ensures ParseItem(buf + extra, start) == Success(it)
    decreases |buf| - start, 2
  {
    var h, nameAt, dataAt := Unfold(buf, start, it);
    HeaderExtend(buf, extra, start, h);
    BodyExtend(buf, extra, start, h, it, nameAt, dataAt);
    assert ParseItem(buf + extra, start) == ParseBody(buf + extra, start, h);
  }

  lemma {:induction false} BodyExtend(buf: seq<byte>, extra: seq<byte>, start: nat, h: Header, it: Item,
                                      nameAt: nat, dataAt: nat)
    requires ParseBody(buf, start, h) == Success(it)
    requires nameAt == start + HeaderSize(h.tag) && dataAt == nameAt + h.nameLen
    requires dataAt + h.contentSize <= |buf|
    requires IsArray(h.tag) || IsObject(h.tag) ==>
      dataAt + 4 <= |buf| && ParseKids(buf, dataAt + 4, dataAt + h.contentSize) == Success(it.kids)
    ensures ParseBody(buf + extra, start, h) == Success(it)
    decreases |buf| - start, 1
  {
    var big := buf + extra;
    var end := dataAt + h.contentSize;
    SliceExtend(buf, extra, nameAt, dataAt);
    SliceExtend(buf, extra, dataAt, end);
    if IsArray(h.tag) || IsObject(h.tag) {
      SliceExtend(buf, extra, dataAt, dataAt + 4);
      KidsExtend(buf, extra, dataAt + 4, end, it.kids);
      calc {
        ParseBody(big, start, h);
        { ContainerBody(big, start, h, nameAt, dataAt); }
        Checked(h.tag, big[nameAt..dataAt], big[dataAt..end], LE32(big[dataAt..dataAt + 4]), ParseKids(big, dataAt + 4, end));
        Checked(h.tag, buf[nameAt..dataAt], buf[dataAt..end], LE32(buf[dataAt..dataAt + 4]), ParseKids(buf, dataAt + 4, end));
        { ContainerBody(buf, start, h, nameAt, dataAt); }
        ParseBody(buf, start, h);
      }
    } else {
      ScalarBody(big, start, h, nameAt, dataAt);
      ScalarBody(buf, start, h, nameAt, dataAt);
    }
  }

  lemma {:induction false} KidsExtend(buf: seq<byte>, extra: seq<byte>, pos: nat, end: nat, kids: seq<Item>)
    requires end <= |buf| && ParseKids(buf, pos, end) == Success(kids)
    ensures ParseKids(buf + extra, pos, end) == Success(kids)
    decreases |buf| - pos, 3
  {
    if pos < end {
      KidsCons(buf, pos, end, kids);
      ParseItemExtend(buf, extra, pos, kids[0]);
      KidsExtend(buf, extra, pos + Size(kids[0]), end, kids[1..]);
      KidsBuild(buf + extra, pos, end, kids[0], kids[1..]);
      assert [kids[0]] + kids[1..] == kids;
    }
  }

  lemma SliceExtend(buf: seq<byte>, extra: seq<byte>, i: nat, j: nat)
    requires i <= j <= |buf|
    ensures (buf + extra)[i..j] == buf[i..j]
  {
  }

  lemma HeaderExtend(buf: seq<byte>, extra: seq<byte>, start: nat, h: Header)
    requires ReadHeader(buf, start) == Success(h)
    ensures ReadHeader(buf + extra, start) == Success(h)
  {
    var big := buf + extra;
    assert big[start] == buf[start] && big[start + 1] == buf[start + 1];
    if !IsFixed(h.tag) && IsShort(h.tag) {
      assert big[start + 2] == buf[start + 2];
    }
    if !IsFixed(h.tag) && !IsShort(h.tag) {
      assert big[start + 2..start + 6] == buf[start + 2..start + 6];
    }
  }
}
