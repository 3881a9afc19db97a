/**
 * The string commands of the Redis client: GET with its nil reply, SET with its reply check, and
 * the MGET family, which fetches keys in chunks of 32. The server's replies are given as inputs:
 * a command is answered by a function from its arguments to the reply.
 */
module RedisString {
  import opened Wrappers
  import opened Bytes
  import opened Text

  const ChunkSize: nat := 32

  /** A reply of the server, by the kinds the conversions tell apart. */
  datatype Reply = NilReply | BulkReply(bytes: seq<byte>) | StatusReply(status: string)
                 | IntReply(n: int) | ErrorReply(msg: string)

  /** The error redis.ErrNil: the reply was nil. */
  const ErrNil: string := "redigo: nil returned"

  /** redis.Bytes: a bulk or status reply as bytes; nil, an error reply or any other reply is an error. */
  function ReplyBytes(r: Result<Reply, string>): (b: Result<seq<byte>, string>)
    ensures r.Success? && r.value == NilReply ==> b == Failure(ErrNil)
  {
    if r.Failure? then Failure(r.error)
    else match r.value
      case BulkReply(bytes) => Success(bytes)
      case StatusReply(s) => Success(StringBytes(s))
      case NilReply => Failure(ErrNil)
      case ErrorReply(msg) => Failure(msg)
      case IntReply(_) => Failure("redigo: unexpected type for Bytes")
  }

  /** redis.String: a bulk or status reply as a string; anything else is an error. */
  function ReplyString(r: Result<Reply, string>): (s: Result<string, string>)
    ensures r.Success? && r.value.StatusReply? ==> s == Success(r.value.status)
  {
    if r.Failure? then Failure(r.error)
    else match r.value
      case BulkReply(bytes) => Success(BytesString(bytes))
      case StatusReply(s) => Success(s)
      case NilReply => Failure(ErrNil)
      case ErrorReply(msg) => Failure(msg)
      case IntReply(_) => Failure("redigo: unexpected type for String")
  }

  /** Get: the value of the key, none for a nil reply; any other failure is passed on. */
  function Get(key: string, do: seq<string> -> Result<Reply, string>): (r: Result<Option<seq<byte>>, string>)
    ensures do(["GET", key]) == Success(NilReply) ==> r == Success(None)
    ensures (do(["GET", key]).Success? && do(["GET", key]).value.BulkReply?) ==>
      r == Success(Some(do(["GET", key]).value.bytes))
    ensures do(["GET", key]).Failure? && do(["GET", key]).error != ErrNil ==> r == Failure(do(["GET", key]).error)
  {
    var res := ReplyBytes(do(["GET", key]));
    if res.Failure? && res.error == ErrNil then Success(None)
    else if res.Failure? then Failure(res.error)
    else Success(Some(res.value))
  }

  /** The arguments of the SET command: EX and the expiry are added exactly when an expiry is given. */
  function SetCommand(key: string, value: string, expire: seq<int64>): (c: seq<string>)
    ensures |expire| == 0 ==> c == ["SET", key, value]
    ensures |expire| > 0 ==> c == ["SET", key, value, "EX", FormatInt(expire[0])]
  {
    if |expire| == 0 then ["SET", key, value] else ["SET", key, value, "EX", FormatInt(expire[0])]
  }

  /** Set: the command's error, or an error unless the reply lower-cased is "ok". */
  function Set(key: string, value: string, expire: seq<int64>, do: seq<string> -> Result<Reply, string>): (err: Option<string>)
    ensures err == None <==> (ReplyString(do(SetCommand(key, value, expire))).Success? &&
                              ToLower(ReplyString(do(SetCommand(key, value, expire))).value) == "ok")
  {
    var res := ReplyString(do(SetCommand(key, value, expire)));
    if res.Failure? then Some(res.error)
    else if ToLower(res.value) != "ok" then Some("set result not OK")
    else None
  }

  /** The usual status reply "OK" is accepted. */
  lemma SetAcceptsOK(key: string, value: string, expire: seq<int64>, do: seq<string> -> Result<Reply, string>)
    requires do(SetCommand(key, value, expire)) == Success(StatusReply("OK"))
    ensures Set(key, value, expire, do) == None
  {
    assert ToLower("OK") == [LowerChar('O'), LowerChar('K')];
  }

  /** SetEx: Set with the expiry given. */
  function SetEx(key: string, value: string, expire: int64, do: seq<string> -> Result<Reply, string>): (err: Option<string>)
    ensures err == Set(key, value, [expire], do)
  {
    Set(key, value, [expire], do)
  }

  /** math.Ceil(len / 32): the number of chunks. */
  function PageNum(n: nat): (p: nat)
    ensures n == 0 <==> p == 0
    ensures p > 0 ==> ChunkSize * (p - 1) < n <= ChunkSize * p
  {
    (n + ChunkSize - 1) / ChunkSize
  }

  /** mget's chunk n: keys 32n up to 32(n + 1), the last chunk up to the end. */
  function Chunk(keys: seq<string>, pageNo: nat, pageNum: nat): (c: seq<string>)
    requires pageNum == PageNum(|keys|) && pageNo < pageNum
    ensures pageNo < pageNum - 1 ==> |c| == ChunkSize
    ensures 0 < |c| <= ChunkSize
  {
    var end := if pageNo != pageNum - 1 then (pageNo + 1) * ChunkSize else |keys|;
    keys[pageNo * ChunkSize..end]
  }

  /** The first n chunks, joined. */
  function Chunks(keys: seq<string>, n: nat): seq<string>
    requires n <= PageNum(|keys|)
  {
    if n == 0 then [] else Chunks(keys, n - 1) + Chunk(keys, n - 1, PageNum(|keys|))
  }

  /** The first n chunks are the first keys, and all the chunks are the keys: they partition the keys in order. */
  lemma {:induction false} ChunksPartition(keys: seq<string>, n: nat)
    requires n <= PageNum(|keys|)
    ensures Chunks(keys, n) == keys[..if n == PageNum(|keys|) then |keys| else n * ChunkSize]
  {
    if n > 0 {
      ChunksPartition(keys, n - 1);
      var p := PageNum(|keys|);
      var start := (n - 1) * ChunkSize;
      assert Chunks(keys, n - 1) == keys[..start];
      var end := if n - 1 != p - 1 then n * ChunkSize else |keys|;
      assert keys[..start] + keys[start..end] == keys[..end];
    }
  }

  /** One chunk's MGET reply: one value or nil per key, or an error. */
  type MgetReply = Result<seq<Option<seq<byte>>>, string>

  /** MGET's result after n chunks: the replies in chunk order, or the first chunk error. */
  function MgetOf(keys: seq<string>, do: seq<string> -> MgetReply, n: nat): (r: Result<seq<Option<seq<byte>>>, string>)
    requires n <= PageNum(|keys|)
  {
    if n == 0 then Success([])
    else
      var prev := MgetOf(keys, do, n - 1);
      if prev.Failure? then prev
      else
        var cacheRes := do(Chunk(keys, n - 1, PageNum(|keys|)));
        if cacheRes.Failure? then Failure(cacheRes.error) else Success(prev.value + cacheRes.value)
  }

  /** MGET: each chunk in turn; the first error ends it. */
  method MGET(keys: seq<string>, do: seq<string> -> MgetReply) returns (res: Result<seq<Option<seq<byte>>>, string>)
    ensures res == MgetOf(keys, do, PageNum(|keys|))
  {
    var acc: seq<Option<seq<byte>>> := [];
    var pageNum := PageNum(|keys|);
    var n := 0;
    while n < pageNum
      invariant 0 <= n <= pageNum && MgetOf(keys, do, n) == Success(acc)
    {
      var cacheRes := do(Chunk(keys, n, pageNum));
      if cacheRes.Failure? {
        FailureSticks(keys, do, n + 1, pageNum);
        return Failure(cacheRes.error);
      }
      acc := acc + cacheRes.value;
      n := n + 1;
    }
    return Success(acc);
  }

  /** Once a chunk has failed, MGET stays failed with that error. */
  lemma {:induction false} FailureSticks(keys: seq<string>, do: seq<string> -> MgetReply, m: nat, n: nat)
    requires m <= n <= PageNum(|keys|) && MgetOf(keys, do, m).Failure?
    ensures MgetOf(keys, do, n) == MgetOf(keys, do, m)
    decreases n - m
  {
    if m < n {
      FailureSticks(keys, do, m, n - 1);
    }
  }

  /** No keys: no command, and an empty result. */
  lemma MgetNoKeys(do: seq<string> -> MgetReply)
    ensures MgetOf([], do, PageNum(0)) == Success([])
  {
  }

  /** The error MGET returns is the first chunk's error: every chunk before it succeeded. */
  lemma {:induction false} MgetFirstError(keys: seq<string>, do: seq<string> -> MgetReply, n: nat)
    requires n <= PageNum(|keys|) && MgetOf(keys, do, n).Failure?
    ensures exists k :: 0 <= k < n && do(Chunk(keys, k, PageNum(|keys|))) == Failure(MgetOf(keys, do, n).error) &&
                        MgetOf(keys, do, k).Success?
  {
    var prev := MgetOf(keys, do, n - 1);
    if prev.Failure? {
      MgetFirstError(keys, do, n - 1);
      var k :| 0 <= k < n - 1 && do(Chunk(keys, k, PageNum(|keys|))) == Failure(prev.error) && MgetOf(keys, do, k).Success?;
      assert 0 <= k < n;
    } else {
      assert do(Chunk(keys, n - 1, PageNum(|keys|))) == Failure(MgetOf(keys, do, n).error);
    }
  }

  /** MGet's result after n chunks: a failed chunk stands in as one nil per key. */
  function MGetOf(keys: seq<string>, do: seq<string> -> MgetReply, n: nat): seq<Option<seq<byte>>>
    requires n <= PageNum(|keys|)
  {
    if n == 0 then []
    else
      var chunk := Chunk(keys, n - 1, PageNum(|keys|));
      var cacheRes := do(chunk);
      MGetOf(keys, do, n - 1) + (if cacheRes.Failure? then Nils(|chunk|) else cacheRes.value)
  }

  function Nils(n: nat): (s: seq<Option<seq<byte>>>)
    ensures |s| == n && forall i :: 0 <= i < n ==> s[i] == None
  {
    seq(n, _ => None)
  }

  /** MGet: never fails; a failed chunk contributes one nil per key. */
  method MGet(keys: seq<string>, do: seq<string> -> MgetReply) returns (res: seq<Option<seq<byte>>>)
    ensures res == MGetOf(keys, do, PageNum(|keys|))
  {
    res := [];
    var pageNum := PageNum(|keys|);
    var n := 0;
    while n < pageNum
      invariant 0 <= n <= pageNum && res == MGetOf(keys, do, n)
    {
      var chunk := Chunk(keys, n, pageNum);
      var cacheRes := do(chunk);
      if cacheRes.Failure? {
        ghost var before := res;
        var i := 0;
        while i < |chunk|
          invariant 0 <= i <= |chunk| && res == before + Nils(i)
        {
          res := res + [None];
          i := i + 1;
          assert Nils(i) == Nils(i - 1) + [None];
        }
      } else {
        res := res + cacheRes.value;
      }
      n := n + 1;
    }
  }

  /** When every successful chunk answers one value per key, MGet answers one value per key, failed chunks included. */
  lemma {:induction false} MGetLength(keys: seq<string>, do: seq<string> -> MgetReply, n: nat)
    requires n <= PageNum(|keys|)
    requires forall c :: do(c).Success? ==> |do(c).value| == |c|
    ensures |MGetOf(keys, do, n)| == |Chunks(keys, n)|
  {
    if n > 0 {
      MGetLength(keys, do, n - 1);
    }
  }

  /** So the whole result has one entry per key. */
  lemma MGetCoversKeys(keys: seq<string>, do: seq<string> -> MgetReply)
    requires forall c :: do(c).Success? ==> |do(c).value| == |c|
    ensures |MGetOf(keys, do, PageNum(|keys|))| == |keys|
  {
    MGetLength(keys, do, PageNum(|keys|));
    ChunksPartition(keys, PageNum(|keys|));
  }
}
