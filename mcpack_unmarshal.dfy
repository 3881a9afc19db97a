/**
 * The public surface of the mcpack v2 decoder: `Decode` from bytes to the root map, the dotted
 * path lookup `Get` and the typed getters built on it.
 */
module McPackUnmarshal {
  import opened Wrappers
  import opened Bytes
  import opened Text
  import opened McPackRead
  import opened McPackBind

  /** The root map of a decoded pack (`V2Map`). */
  type V2Map = map<seq<byte>, Value>

  /** "PCK", the magic of the version-1 format. */
  const TagPack: seq<byte> := [0x50, 0x43, 0x4b]

  /** The path separator of `Get`. */
  const Dot: byte := 0x2e

  /**
   * Decode: at least four bytes, then the item at offset 0 is read and bound, and the root must
   * bind to a map.
   */
  function Decoded(buf: seq<byte>): Result<V2Map, Error> {
    if |buf| < 4 then Failure(InvalidPack)
    else if buf[0..4] == TagPack then Failure(InvalidPack)
    else
      match ParseItem(buf, 0)
      case Failure(e) => Failure(e)
      case Success(root) =>
        match Bind(root)
        case Failure(e) => Failure(e)
        case Success(v) => if v.Map? then Success(v.entries) else Failure(InvalidRoot)
  }

  /** The v1 guard compares a four-byte slice with a three-byte string, so it never fires. */
  lemma PckGuardDead(buf: seq<byte>)
    requires |buf| >= 4
    ensures buf[0..4] != TagPack
  {
    assert |buf[0..4]| != |TagPack|;
  }

  /** Buffers under four bytes are invalid; every longer one is read as a v2 item at offset 0. */
  lemma DecodeStart(buf: seq<byte>)
    ensures |buf| < 4 ==> Decoded(buf) == Failure(InvalidPack)
    ensures |buf| >= 4 && ParseItem(buf, 0).Failure? ==> Decoded(buf) == Failure(ParseItem(buf, 0).error)
  {
    if |buf| >= 4 {
      PckGuardDead(buf);
    }
  }

  /** A decoded buffer's root item, which binds to the decoded map. */
  lemma DecodedRoot(buf: seq<byte>) returns (root: Item)
    requires Decoded(buf).Success?
    ensures ParseItem(buf, 0) == Success(root)
    ensures Bind(root) == Success(Map(Decoded(buf).value))
  {
    PckGuardDead(buf);
    root := ParseItem(buf, 0).value;
  }

  /** Only an object root decodes, so a decoded buffer starts with the object tag 0x10. */
  lemma DecodedStartsWithObject(buf: seq<byte>)
    requires Decoded(buf).Success?
    ensures buf[0] == PackObject
  {
    var root := DecodedRoot(buf);
    BindShape(root);
    ItemTag(buf, 0, root);
    assert IsDeleted(V1PackObject);
  }

  /** A root that binds to anything but a map (array, scalar, null) is an invalid root. */
  lemma NonMapRootRejected(buf: seq<byte>, root: Item)
    requires |buf| >= 4 && ParseItem(buf, 0) == Success(root)
    requires Bind(root).Success? && !Bind(root).value.Map?
    ensures Decoded(buf) == Failure(InvalidRoot)
  {
    PckGuardDead(buf);
  }

  /** Bytes after the root item are ignored: appending to a decodable buffer changes nothing. */
  lemma DecodeIgnoresTrailing(buf: seq<byte>, extra: seq<byte>)
    requires Decoded(buf).Success?
    ensures Decoded(buf + extra) == Decoded(buf)
  {
    var root := DecodedRoot(buf);
    PckGuardDead(buf + extra);
    ParseItemExtend(buf, extra, 0, root);
    assert (buf + extra)[0..4] == buf[0..4];
  }

  /**
   * Decode. The result agrees with `Decoded` on success and on the errors of reading and of the
   * root's shape; a binding error may name a different failing object member (map order).
   */
  method Decode(buf: seq<byte>) returns (r: Result<V2Map, Error>)
    ensures r.Success? <==> Decoded(buf).Success?
    ensures r.Success? ==> r == Decoded(buf)
    ensures Decoded(buf) == Failure(InvalidPack) ==> r == Failure(InvalidPack)
    ensures Decoded(buf) == Failure(InvalidRoot) ==> r == Failure(InvalidRoot)
  {
    if |buf| < 4 {
      return Failure(InvalidPack);
    }
    PckGuardDead(buf);
    var root := ReadObjectAt(buf, |buf|, 0);
    if root.Failure? {
      return Failure(root.error);
    }
    var res := BindItem(root.value);
    if res.Failure? {
      BindErrors(root.value);
      return Failure(res.error);
    }
    if res.value.Map? {
      return Success(res.value.entries);
    }
    return Failure(InvalidRoot);
  }

  /** The value a path of keys leads to from v through nested maps; Null (nil) once one is missing. */
  function Walk(v: Value, path: seq<seq<byte>>): Value
    decreases |path|
  {
    if path == [] then v
    else if v.Map? && path[0] in v.entries then Walk(v.entries[path[0]], path[1..])
    else Null
  }

  /** Get: the key split on '.', walked from the root map. */
  function Lookup(m: V2Map, key: seq<byte>): Value {
    Walk(Map(m), Split(key, Dot))
  }

  /** Get, with the source's loop over the key's segments. */
  method Get(m: V2Map, key: seq<byte>) returns (r: Value)
    ensures r == Lookup(m, key)
  {
    var kArr := Split(key, Dot);
    var res := Map(m);
    var i := 0;
    while i < |kArr|
      invariant 0 <= i <= |kArr|
      invariant Walk(Map(m), kArr) == Walk(res, kArr[i..])
    {
      var k := kArr[i];
      assert kArr[i..][1..] == kArr[i + 1..];
      if res.Map? && k in res.entries {
        res := res.entries[k];
        i := i + 1;
      } else {
        return Null;
      }
    }
    return res;
  }

  /** A key without a dot is looked up in the root map itself, nil when absent. */
  lemma GetDotFree(m: V2Map, key: seq<byte>)
    requires Dot !in key
    ensures Lookup(m, key) == if key in m then m[key] else Null
  {
    SplitWithoutSeparator(key, Dot);
    var path := [key];
    assert path[1..] == [];
    if key in m {
      assert Walk(Map(m), path) == Walk(m[key], []);
    }
  }

  /** Keys are joined with dots to reach nested maps: dot-free segments are walked in turn. */
  lemma GetNested(m: V2Map, path: seq<seq<byte>>)
    requires |path| >= 1 && forall i :: 0 <= i < |path| ==> Dot !in path[i]
    ensures Lookup(m, Join(path, [Dot])) == Walk(Map(m), path)
  {
    SplitJoin(path, Dot);
  }

  /** An entry whose key holds a dot can never be reached: changing it leaves Get unchanged. */
  lemma DottedKeyUnreachable(m: V2Map, key: seq<byte>, v: Value)
    requires Dot in key
    ensures Lookup(m[key := v], key) == Lookup(m, key)
  {
    var path := Split(key, Dot);
    assert Dot !in path[0];
    assert path[0] != key;
  }

  /** GetString: a text value, else def. */
  function GetString(m: V2Map, key: seq<byte>, def: seq<byte>): seq<byte> {
    var v := Lookup(m, key);
    if v.Text? then v.text else def
  }

  function GetBool(m: V2Map, key: seq<byte>, def: bool): bool {
    var v := Lookup(m, key);
    if v.Bool? then v.b else def
  }

  function GetInt8(m: V2Map, key: seq<byte>, def: int8): int8 {
    var v := Lookup(m, key);
    if v.Int8? then v.i8 else def
  }

  function GetInt16(m: V2Map, key: seq<byte>, def: int16): int16 {
    var v := Lookup(m, key);
    if v.Int16? then v.i16 else def
  }

  function GetInt32(m: V2Map, key: seq<byte>, def: int32): int32 {
    var v := Lookup(m, key);
    if v.Int32? then v.i32 else def
  }

  function GetInt64(m: V2Map, key: seq<byte>, def: int64): int64 {
    var v := Lookup(m, key);
    if v.Int64? then v.i64 else def
  }

  function GetUint8(m: V2Map, key: seq<byte>, def: byte): byte {
    var v := Lookup(m, key);
    if v.Uint8? then v.u8 else def
  }

  function GetUint16(m: V2Map, key: seq<byte>, def: uint16): uint16 {
    var v := Lookup(m, key);
    if v.Uint16? then v.u16 else def
  }

  function GetUint32(m: V2Map, key: seq<byte>, def: uint32): uint32 {
    var v := Lookup(m, key);
    if v.Uint32? then v.u32 else def
  }

  function GetUint64(m: V2Map, key: seq<byte>, def: uint64): uint64 {
    var v := Lookup(m, key);
    if v.Uint64? then v.u64 else def
  }

  /** GetFloat32 and GetFloat64 return the bit pattern of the float. */
  function GetFloat32(m: V2Map, key: seq<byte>, def: uint32): uint32 {
    var v := Lookup(m, key);
    if v.Float32? then v.f32 else def
  }

  function GetFloat64(m: V2Map, key: seq<byte>, def: uint64): uint64 {
    var v := Lookup(m, key);
    if v.Float64? then v.f64 else def
  }

  /** Missing keys and null values give every getter its default. */
  lemma NullGivesDefaults(m: V2Map, key: seq<byte>)
    requires Lookup(m, key) == Null
    ensures forall d :: GetString(m, key, d) == d
    ensures forall d :: GetBool(m, key, d) == d
    ensures forall d :: GetInt8(m, key, d) == d
    ensures forall d :: GetInt16(m, key, d) == d
    ensures forall d :: GetInt32(m, key, d) == d
    ensures forall d :: GetInt64(m, key, d) == d
    ensures forall d :: GetUint8(m, key, d) == d
    ensures forall d :: GetUint16(m, key, d) == d
    ensures forall d :: GetUint32(m, key, d) == d
    ensures forall d :: GetUint64(m, key, d) == d
    ensures forall d :: GetFloat32(m, key, d) == d
    ensures forall d :: GetFloat64(m, key, d) == d
  {
  }

  /**
   * There is no numeric conversion: a 32-bit signed value is returned by GetInt32 alone, and the
   * wider, narrower and unsigned getters give their defaults.
   */
  lemma NoWidening(m: V2Map, key: seq<byte>)
    requires Lookup(m, key).Int32?
    ensures forall d :: GetInt32(m, key, d) == Lookup(m, key).i32
    ensures forall d :: GetInt64(m, key, d) == d
    ensures forall d :: GetInt16(m, key, d) == d
    ensures forall d :: GetInt8(m, key, d) == d
    ensures forall d :: GetUint32(m, key, d) == d
    ensures forall d :: GetUint64(m, key, d) == d
    ensures forall d :: GetFloat32(m, key, d) == d
  {
  }

  /**
   * An entry bound from a bool item (tag 0x31) holds an int8, so GetBool gives its default and
   * GetInt8 the first content byte.
   */
  lemma BoolItemGetters(m: V2Map, key: seq<byte>, name: seq<byte>, data: seq<byte>, kids: seq<Item>)
    requires Bind(Item(PackBool, name, data, kids)) == Success(Lookup(m, key))
    ensures forall d :: GetBool(m, key, d) == d
    ensures |data| >= 1 && forall d :: GetInt8(m, key, d) == Signed(data[0], Two8)
  {
    BoolBindsAsInt8(name, data, kids);
  }
}
