/**
 * The RocketMQ producer helpers: the queue a message is sent to, chosen by an FNV-1a hash of its
 * sharding key, and how SendCmd labels the message and reports the outcome of the send.
 */
module Rmq {
  import opened Wrappers
  import opened Bytes
  import opened Text

  const Two32: nat := 0x1_0000_0000

  /** The 32-bit FNV-1a offset basis and prime. */
  const FnvOffset: nat := 0x811c_9dc5
  const FnvPrime: nat := 0x0100_0193

  /** One FNV-1a step: the byte xored into the low byte of the hash, then a multiplication modulo 2^32. */
  function FnvStep(h: nat, b: byte): (r: nat)
    requires h < Two32
    ensures r < Two32
  {
    var mixed := h - h % 256 + Xor((h % 256) as byte, b);
    (mixed * FnvPrime) % Two32
  }

  /** hash/fnv's New32a over the data: the steps folded over the bytes from the offset basis. */
  function Fnv1a32(data: seq<byte>): (h: nat)
    ensures h < Two32
    decreases |data|
  {
    if data == [] then FnvOffset else FnvStep(Fnv1a32(data[..|data| - 1]), data[|data| - 1])
  }

  /** Writing the data in two pieces hashes as writing it at once: the hash is a running state. */
  lemma {:induction false} FnvAppend(a: seq<byte>, b: seq<byte>, h: nat)
    requires h == Fnv1a32(a)
    ensures Fnv1a32(a + b) == FnvFrom(h, b)
    decreases |b|
  {
    if b != [] {
      var init := b[..|b| - 1];
      assert (a + b)[..|a + b| - 1] == a + init;
      FnvAppend(a, init, h);
    } else {
      assert a + b == a;
    }
  }

  /** The hash state after the data, from a given state. */
  function FnvFrom(h: nat, data: seq<byte>): (r: nat)
    requires h < Two32
    ensures r < Two32
    decreases |data|
  {
    if data == [] then h else FnvStep(FnvFrom(h, data[..|data| - 1]), data[|data| - 1])
  }

  /** The published FNV-1a-32 value of "a". */
  lemma FnvOfA()
    ensures Fnv1a32([0x61]) == 0xe40c_292c
  {
    assert [0x61 as byte][..0] == [];
    assert Fnv1a32([]) == 0x811c_9dc5;
    assert XorBit(0xc5, 0x61, 1) == 0 && XorBit(0xc5, 0x61, 2) == 0 && XorBit(0xc5, 0x61, 4) == 1;
    assert XorBit(0xc5, 0x61, 8) == 0 && XorBit(0xc5, 0x61, 16) == 0 && XorBit(0xc5, 0x61, 32) == 1;
    assert XorBit(0xc5, 0x61, 64) == 0 && XorBit(0xc5, 0x61, 128) == 1;
    assert Xor(0xc5, 0x61) == 0xa4;
    assert 0x811c_9dc5 % 256 == 0xc5;
    assert 0x811c_9dc5 - 0xc5 + 0xa4 == 0x811c_9da4;
    assert 0x811c_9da4 * 0x0100_0193 == 0x81_1d68_e40c_292c;
    assert 0x81_1d68_e40c_292c % 0x1_0000_0000 == 0xe40c_292c;
    assert FnvStep(0x811c_9dc5, 0x61) == 0xe40c_292c;
  }

  /**
   * queueSelectorByShardingKey.Select: without a sharding key the queue the random draw r
   * names; with one, the queue at the key's hash modulo the number of queues. Both Intn and the
   * modulo panic on an empty queue list.
   */
  function Select<Q>(shardingKey: string, queues: seq<Q>, r: nat): (q: Q)
    requires |queues| > 0
    requires shardingKey == "" ==> r < |queues|
    ensures q in queues
    ensures shardingKey == "" ==> q == queues[r]
    ensures shardingKey != "" ==> q == queues[Fnv1a32(StringBytes(shardingKey)) % |queues|]
  {
    if shardingKey == "" then queues[r]
    else queues[Fnv1a32(StringBytes(shardingKey)) % |queues|]
  }

  /** A sharding key pins its queue: the random draw plays no part. */
  lemma SameKeySameQueue<Q>(shardingKey: string, queues: seq<Q>, r1: nat, r2: nat)
    requires |queues| > 0 && shardingKey != ""
    ensures Select(shardingKey, queues, r1) == Select(shardingKey, queues, r2)
  {
  }

  /** The reply SendCmd returns. */
  datatype NmqResponse = NmqResponse(transID: uint64, errNo: int, errStr: string)

  /** The settings SendCmd gives a message before sending it. */
  datatype Message = Message(service: string, body: seq<byte>, tag: string, key: string,
                             properties: map<string, string>, shard: Option<string>)

  /** The message SendCmd builds: tagged with the command, keyed with the transaction id, sharded when a shard is given. */
  function BuildMessage(service: string, body: seq<byte>, cmd: int64, transID: uint64, shard: string): (m: Message)
    ensures m.tag == FormatInt(cmd) && m.key == Decimal(transID)
    ensures m.properties == map["b" := " ", "s" := " "]
    ensures m.shard == (if shard == "" then None else Some(shard))
    ensures m.service == service && m.body == body
  {
    var m := Message(service, body, FormatInt(cmd), Decimal(transID), map[], None);
    var m := m.(properties := m.properties["b" := " "]["s" := " "]);
    if shard != "" then m.(shard := Some(shard)) else m
  }

  /**
   * The text of errors.WithMessagef(err, "NewMessage() error, body: %s", body): the message, the
   * body's bytes as text, then ": " and the wrapped error's text.
   */
  function NewMessageError(body: seq<byte>, err: string): (t: string)
    ensures |t| == |"NewMessage() error, body: "| + |body| + 2 + |err|
    ensures t[..|"NewMessage() error, body: "|] == "NewMessage() error, body: "
    ensures t[|t| - |err|..] == err
  {
    "NewMessage() error, body: " + BytesString(body) + ": " + err
  }

  /** What SendCmd gives back: the reply, the error, and the message it sent, if it got that far. */
  datatype SendOutcome = SendOutcome(resp: NmqResponse, err: Option<string>, sent: Option<Message>)

  /**
   * SendCmd, the encoded body, the outcome of building the message and the outcome of the send
   * given as inputs: an encoding or building error ends it with an empty reply; after the send,
   * an error becomes error number -1 with its text, success error number 0, "OK" and the
   * transaction id.
   */
  function SendCmd(service: string, cmd: int64, body: Result<seq<byte>, string>, transID: uint64, shard: string,
                   newMessageErr: Option<string>, sendErr: Option<string>): (o: SendOutcome)
    ensures body.Failure? ==> o == SendOutcome(NmqResponse(0, 0, ""), Some(body.error), None)
    ensures body.Success? && newMessageErr.Some? ==>
      o == SendOutcome(NmqResponse(0, 0, ""), Some(NewMessageError(body.value, newMessageErr.value)), None)
    ensures body.Success? && newMessageErr.None? ==>
      o.sent == Some(BuildMessage(service, body.value, cmd, transID, shard)) && o.err == sendErr
    ensures body.Success? && newMessageErr.None? && sendErr.Some? ==> o.resp == NmqResponse(0, -1, sendErr.value)
    ensures body.Success? && newMessageErr.None? && sendErr.None? ==> o.resp == NmqResponse(transID, 0, "OK")
  {
    var empty := NmqResponse(0, 0, "");
    if body.Failure? then SendOutcome(empty, Some(body.error), None)
    else if newMessageErr.Some? then SendOutcome(empty, Some(NewMessageError(body.value, newMessageErr.value)), None)
    else
      var msg := BuildMessage(service, body.value, cmd, transID, shard);
      var resp := if sendErr.Some? then NmqResponse(0, -1, sendErr.value) else NmqResponse(transID, 0, "OK");
      SendOutcome(resp, sendErr, Some(msg))
  }

  /** A reply reports success exactly when no error came back, and only a successful one carries the id. */
  lemma ReplyMatchesError(service: string, cmd: int64, body: Result<seq<byte>, string>, transID: uint64,
                          shard: string, newMessageErr: Option<string>, sendErr: Option<string>)
    ensures var o := SendCmd(service, cmd, body, transID, shard, newMessageErr, sendErr);
      (o.resp.errNo == 0 && o.resp.errStr == "OK" <==> o.err.None?) &&
      (o.resp.transID != 0 ==> o.err.None?)
  {
  }

  /** The message's tag reads back as the command, and its key as the transaction id. */
  lemma LabelsReadBack(service: string, body: seq<byte>, cmd: int64, transID: uint64, shard: string)
    ensures var m := BuildMessage(service, body, cmd, transID, shard);
      IsDigits(m.key) && DecimalValue(m.key) == transID
  {
    DecimalRoundTrip(transID);
  }
}
