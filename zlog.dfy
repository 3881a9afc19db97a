/**
 * The context helpers of the zlog package: the log id and the request id a request is logged
 * under, the caller's own log fields, and the no-log flag. They read and write the key-value
 * store of a gin context, modelled as a class whose fields the helpers update in place; the
 * clock and the random generator they draw on are given as parameters.
 */
module Zlog {
  import opened Wrappers
  import opened Bytes
  import opened Text
  import T = Trans

  const ContextKeyRequestID: string := "requestId"
  const ContextKeyLogID: string := "logID"
  const ContextKeyNoLog: string := "_no_log"
  const CustomerFieldKey: string := "__customerFields"

  const TraceHeaderKey: string := "Uber-Trace-Id"
  const LogIDHeaderKey: string := "X_BD_LOGID"
  const LogIDHeaderKeyLower: string := "x_bd_logid"

  const Two31: nat := 0x8000_0000
  const Two32: nat := 0x1_0000_0000
  const Two63: nat := 0x8000_0000_0000_0000

  /** A log field the caller adds. */
  datatype Field = Field(key: string, value: string)

  /** A value of the context's store, by the types these helpers ask for. */
  datatype Value = Str(s: string) | Flag(b: bool) | FieldList(fields: seq<Field>) | OtherValue

  /** A gin context: its request (which may be nil) and its key-value store. */
  class GinContext {
    var request: Option<T.Request>
    var keys: map<string, Value>

    constructor (request: Option<T.Request>)
      ensures this.request == request && keys == map[]
    {
      this.request := request;
      keys := map[];
    }
  }

  /** ctx.GetString: the stored value when it is a string, "" otherwise. */
  function GetString(keys: map<string, Value>, key: string): string {
    if key in keys && keys[key].Str? then keys[key].s else ""
  }

  /** The value genLogID builds from the clock in nanoseconds: bit 31 set and the low 31 bits of the clock. */
  function GenLogIDValue(nanos: int): (v: nat)
    ensures Two31 <= v < Two32
    ensures v % Two31 == nanos % Two31
  {
    var usec := nanos % Two64;
    assert usec % Two31 == nanos % Two31 by {
      LowBits(nanos);
    }
    usec % Two31 + Two31
  }

  /** The low 31 bits survive the conversion to uint64. */
  lemma LowBits(x: int)
    ensures (x % 0x1_0000_0000_0000_0000) % 0x8000_0000 == x % 0x8000_0000
  {
  }

  /** genLogID: that value in decimal. */
  function GenLogID(nanos: int): (id: string)
    ensures IsDigits(id) && DecimalValue(id) == GenLogIDValue(nanos) && id != ""
  {
    DecimalRoundTrip(GenLogIDValue(nanos));
    Decimal(GenLogIDValue(nanos))
  }

  /** genRequestID from the generator's Int63 draw: the draw in 16 hex digits, twice, then ":0:1". */
  function GenRequestID(number: nat): (id: string)
    requires number < Two63
    ensures |id| == 37 && id[16] == ':' && id[33..] == ":0:1"
    ensures id[..16] == id[17..33] && (forall i :: 0 <= i < 16 ==> IsHexChar(id[i]))
    ensures (forall i :: 0 <= i < 16 ==> IsHexChar(id[..16][i])) && HexValue(id[..16]) == number
  {
    var traceID := Hex(number, 16);
    PowSixteen();
    HexRoundTrip(number, 16);
    var id := traceID + ":" + traceID + ":0:1";
    assert id[..16] == traceID && id[17..33] == traceID;
    id
  }

  lemma PowSixteen()
    ensures Pow16(16) == 0x1_0000_0000_0000_0000
  {
    assert Pow16(1) == 0x10;
    assert Pow16(2) == 0x100;
    assert Pow16(3) == 0x1000;
    assert Pow16(4) == 0x10000;
    assert Pow16(5) == 0x100000;
    assert Pow16(6) == 0x1000000;
    assert Pow16(7) == 0x10000000;
    assert Pow16(8) == 0x100000000;
    assert Pow16(9) == 0x1000000000;
    assert Pow16(10) == 0x10000000000;
    assert Pow16(11) == 0x100000000000;
    assert Pow16(12) == 0x1000000000000;
    assert Pow16(13) == 0x10000000000000;
    assert Pow16(14) == 0x100000000000000;
    assert Pow16(15) == 0x1000000000000000;
    assert Pow16(16) == 0x10000000000000000;
  }

  /** The log id held by the request's header: X_BD_LOGID, then x_bd_logid, "" without a header. */
  function HeaderLogID(request: Option<T.Request>): string {
    if request.Some? && request.value.header.Some? then
      var id := T.GetHeader(request.value, LogIDHeaderKey);
      if id == "" then T.GetHeader(request.value, LogIDHeaderKeyLower) else id
    else ""
  }

  /** The log id GetLogID settles on for a context: the stored one, then the header's, then a new one. */
  function LogIDOf(keys: map<string, Value>, request: Option<T.Request>, nanos: int): (id: string)
    ensures id != ""
    ensures GetString(keys, ContextKeyLogID) != "" ==> id == GetString(keys, ContextKeyLogID)
    ensures GetString(keys, ContextKeyLogID) == "" && HeaderLogID(request) != "" ==> id == HeaderLogID(request)
    ensures GetString(keys, ContextKeyLogID) == "" && HeaderLogID(request) == "" ==> id == GenLogID(nanos)
  {
    var stored := GetString(keys, ContextKeyLogID);
    if stored != "" then stored
    else if HeaderLogID(request) != "" then HeaderLogID(request)
    else GenLogID(nanos)
  }

  /** GetLogID: a fresh id for a nil context; otherwise the settled id, stored in the context when it was not yet. */
  method GetLogID(ctx: GinContext?, nanos: int) returns (logID: string)
    modifies ctx
    ensures ctx == null ==> logID == GenLogID(nanos)
    ensures ctx != null ==> logID == LogIDOf(old(ctx.keys), old(ctx.request), nanos)
    ensures ctx != null ==> ctx.request == old(ctx.request)
    ensures ctx != null ==> ctx.keys == old(ctx.keys)[ContextKeyLogID := Str(logID)] ||
                            (ctx.keys == old(ctx.keys) && GetString(old(ctx.keys), ContextKeyLogID) == logID)
  {
    if ctx == null {
      return GenLogID(nanos);
    }
    var stored := GetString(ctx.keys, ContextKeyLogID);
    if stored != "" {
      return stored;
    }
    logID := "";
    if ctx.request.Some? && ctx.request.value.header.Some? {
      logID := T.GetHeader(ctx.request.value, LogIDHeaderKey);
      if logID == "" {
        logID := T.GetHeader(ctx.request.value, LogIDHeaderKeyLower);
      }
    }
    if logID == "" {
      logID := GenLogID(nanos);
    }
    ctx.keys := ctx.keys[ContextKeyLogID := Str(logID)];
  }

  /** Once stored, the log id is returned again by every later call, whatever the clock says. */
  lemma LogIDStable(keys: map<string, Value>, request: Option<T.Request>, nanos: int, later: int)
    ensures var id := LogIDOf(keys, request, nanos);
      LogIDOf(keys[ContextKeyLogID := Str(id)], request, later) == id
  {
  }

  /**
   * The lower-case fallback names the same header: Header.Get canonicalizes both names to
   * "X_bd_logid", so the second lookup finds nothing the first did not.
   */
  lemma LowerFallbackSameHeader()
    ensures T.Canonical(LogIDHeaderKeyLower) == T.Canonical(LogIDHeaderKey)
  {
    var k := LogIDHeaderKey;
    forall i | 0 <= i < |k| ensures T.HeaderByte(k[i]) {
      assert k[i] in "X_BDLOGI";
    }
    var l := ToLower(k);
    assert l == [LowerChar('X'), LowerChar('_'), LowerChar('B'), LowerChar('D'), LowerChar('_'),
                 LowerChar('L'), LowerChar('O'), LowerChar('G'), LowerChar('I'), LowerChar('D')];
    assert l == LogIDHeaderKeyLower;
    T.CanonicalIgnoresCase(k);
  }

  /** The request id held by the request's header: Uber-Trace-Id, "" without a header. */
  function HeaderRequestID(request: Option<T.Request>): string {
    if request.Some? && request.value.header.Some? then T.GetHeader(request.value, TraceHeaderKey) else ""
  }

  /** The request id GetRequestID settles on: the stored one, then the trace header, then a new one. */
  function RequestIDOf(keys: map<string, Value>, request: Option<T.Request>, number: nat): (id: string)
    requires number < Two63
    ensures id != ""
    ensures GetString(keys, ContextKeyRequestID) != "" ==> id == GetString(keys, ContextKeyRequestID)
    ensures GetString(keys, ContextKeyRequestID) == "" && HeaderRequestID(request) != "" ==> id == HeaderRequestID(request)
    ensures GetString(keys, ContextKeyRequestID) == "" && HeaderRequestID(request) == "" ==> id == GenRequestID(number)
  {
    var stored := GetString(keys, ContextKeyRequestID);
    if stored != "" then stored
    else if HeaderRequestID(request) != "" then HeaderRequestID(request)
    else GenRequestID(number)
  }

  /** GetRequestID: as GetLogID, with the trace header and the generator's draw. */
  method GetRequestID(ctx: GinContext?, number: nat) returns (requestID: string)
    requires number < Two63
    modifies ctx
    ensures ctx == null ==> requestID == GenRequestID(number)
    ensures ctx != null ==> requestID == RequestIDOf(old(ctx.keys), old(ctx.request), number)
    ensures ctx != null ==> ctx.request == old(ctx.request)
    ensures ctx != null ==> ctx.keys == old(ctx.keys)[ContextKeyRequestID := Str(requestID)] ||
                            (ctx.keys == old(ctx.keys) && GetString(old(ctx.keys), ContextKeyRequestID) == requestID)
  {
    if ctx == null {
      return GenRequestID(number);
    }
    var r := GetString(ctx.keys, ContextKeyRequestID);
    if r != "" {
      return r;
    }
    requestID := "";
    if ctx.request.Some? && ctx.request.value.header.Some? {
      requestID := T.GetHeader(ctx.request.value, TraceHeaderKey);
    }
    if requestID == "" {
      requestID := GenRequestID(number);
    }
    ctx.keys := ctx.keys[ContextKeyRequestID := Str(requestID)];
  }

  /** Once stored, the request id is returned again by every later call. */
  lemma RequestIDStable(keys: map<string, Value>, request: Option<T.Request>, number: nat, later: nat)
    requires number < Two63 && later < Two63
    ensures var id := RequestIDOf(keys, request, number);
      RequestIDOf(keys[ContextKeyRequestID := Str(id)], request, later) == id
  {
  }

  /** GetCustomerFields: the stored field list, none when there is none. */
  function CustomerFields(keys: map<string, Value>): seq<Field> {
    if CustomerFieldKey in keys && keys[CustomerFieldKey].FieldList? then keys[CustomerFieldKey].fields else []
  }

  /** AddField: the given fields appended to the stored list. */
  method AddField(c: GinContext, field: seq<Field>)
    modifies c
    ensures c.request == old(c.request)
    ensures c.keys == old(c.keys)[CustomerFieldKey := FieldList(CustomerFields(old(c.keys)) + field)]
  {
    var customerFields := CustomerFields(c.keys);
    if customerFields == [] {
      assert customerFields + field == field;
      customerFields := field;
    } else {
      customerFields := customerFields + field;
    }
    c.keys := c.keys[CustomerFieldKey := FieldList(customerFields)];
  }

  /** The store after AddField. */
  function WithFields(keys: map<string, Value>, field: seq<Field>): map<string, Value> {
    keys[CustomerFieldKey := FieldList(CustomerFields(keys) + field)]
  }

  /** Fields added in two calls are kept in the order they were added, after the earlier ones. */
  lemma AddFieldKeepsOrder(keys: map<string, Value>, f1: seq<Field>, f2: seq<Field>)
    ensures CustomerFields(WithFields(WithFields(keys, f1), f2)) == CustomerFields(keys) + f1 + f2
    ensures forall k :: k in keys && k != CustomerFieldKey ==> WithFields(keys, f1)[k] == keys[k]
  {
  }

  /** SetNoLogFlag: the no-log flag stored as true. */
  method SetNoLogFlag(ctx: GinContext)
    modifies ctx
    ensures ctx.request == old(ctx.request) && ctx.keys == old(ctx.keys)[ContextKeyNoLog := Flag(true)]
  {
    ctx.keys := ctx.keys[ContextKeyNoLog := Flag(true)];
  }

  /** SetLogFlag: the no-log flag stored as false. */
  method SetLogFlag(ctx: GinContext)
    modifies ctx
    ensures ctx.request == old(ctx.request) && ctx.keys == old(ctx.keys)[ContextKeyNoLog := Flag(false)]
  {
    ctx.keys := ctx.keys[ContextKeyNoLog := Flag(false)];
  }

  /** noLog on a store: the flag is present and is the boolean true. */
  predicate NoLogIn(keys: map<string, Value>) {
    ContextKeyNoLog in keys && keys[ContextKeyNoLog] == Flag(true)
  }

  /** noLog: false for a nil context, otherwise whether the stored flag is true. */
  method NoLog(ctx: GinContext?) returns (r: bool)
    ensures r <==> ctx != null && NoLogIn(ctx.keys)
  {
    if ctx == null {
      return false;
    }
    r := ContextKeyNoLog in ctx.keys && ctx.keys[ContextKeyNoLog] == Flag(true);
  }

  /** The flag last set decides: after SetNoLogFlag logging is off, after SetLogFlag it is on. */
  lemma LastFlagDecides(keys: map<string, Value>)
    ensures NoLogIn(keys[ContextKeyNoLog := Flag(true)])
    ensures !NoLogIn(keys[ContextKeyNoLog := Flag(false)])
    ensures !NoLogIn(keys[ContextKeyNoLog := Flag(true)][ContextKeyNoLog := Flag(false)])
  {
  }
}
