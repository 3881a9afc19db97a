/**
 * The decisions of the base package's HTTP client: how a request's options become a body, a
 * content type and a URL; which timeout and which retry policy apply; how many attempts the retry
 * loop makes and what it reports; how much of a body is logged; and the call's correctness code.
 * The transport, JSON and mcpack marshalling and URL form encoding are inputs.
 */
module Http {
  import opened Wrappers
  import opened Bytes
  import opened Text

  /** The body encodings a request may name. */
  const EncodeJson: string := "_json"
  const EncodeForm: string := "_form"
  const EncodeMcPack: string := "_mcPack"
  const EncodeRaw: string := "_raw"
  const EncodeRawByte: string := "_raw_byte"

  const ContentTypeJson: string := "application/json"
  const ContentTypeForm: string := "application/x-www-form-urlencoded"

  /** The longest body logged when no limit is configured. */
  const DefaultPrintLen: nat := 10240

  /** The timeout of an attempt when neither the request nor the client sets one: 3 s, in nanoseconds. */
  const DefaultTimeout: int := 3_000_000_000

  /** The dynamic value of a request body (Go's `interface{}`). */
  datatype Value =
    | VString(s: string)
    | VBytes(b: seq<byte>)
    | VStringMap(strings: map<string, string>)
    | VAnyMap(values: map<string, Value>)
    | VOther(id: nat)

  /** The per-request options: the body sources, extra headers, the content type, the encoding, the timeout (ns). */
  datatype RequestOptions = RequestOptions(requestBody: Option<Value>, data: map<string, string>,
                                           jsonBody: Option<Value>, headers: Option<map<string, string>>,
                                           contentType: string, encode: string, timeout: int)

  /** The zero value of HttpRequestOptions. */
  const NoOptions: RequestOptions := RequestOptions(None, map[], None, None, "", "", 0)

  /** The serialisers the client relies on: JSON and mcpack marshalling (none on failure), url.Values.Encode. */
  datatype Encoders = Encoders(json: Value -> Option<seq<byte>>, mcpack: Value -> Option<seq<byte>>,
                               form: map<string, string> -> string)

  /** Why a body could not be built. */
  datatype DataError = MarshalFailed | RawNeedsString | RawByteNeedsBytes | UnsupportedBody

  /** A marshaller's result as a `(bytes, error)` pair. */
  function Marshalled(r: Option<seq<byte>>): Result<seq<byte>, DataError> {
    if r.Some? then Success(r.value) else Failure(MarshalFailed)
  }

  /** The form value of one entry of a `map[string]interface{}` body: a string as is, anything else as JSON. */
  predicate Marshals(v: Value, enc: Encoders) {
    v.VString? || enc.json(v).Some?
  }

  function FormField(v: Value, enc: Encoders): string
    requires Marshals(v, enc)
  {
    if v.VString? then v.s else BytesString(enc.json(v).value)
  }

  /** getFormRequestData: only string maps and maps of values form-encode; one unmarshallable value fails. */
  function FormRequestData(body: Value, enc: Encoders): (r: Result<string, DataError>)
    ensures r.Failure? <==> (!body.VStringMap? && !body.VAnyMap?) ||
                            (body.VAnyMap? && exists k :: k in body.values && !Marshals(body.values[k], enc))
    ensures body.VStringMap? ==> r == Success(enc.form(body.strings))
  {
    match body
    case VStringMap(m) => Success(enc.form(m))
    case VAnyMap(m) =>
      if exists k :: k in m && !Marshals(m[k], enc) then Failure(MarshalFailed)
      else Success(enc.form(map k | k in m :: FormField(m[k], enc)))
    case _ => Failure(UnsupportedBody)
  }

  /** getData: the bytes a request sends, nil meaning none. */
  function GetData(o: RequestOptions, enc: Encoders): (r: Result<seq<byte>, DataError>)
    ensures r.Failure? ==> |o.data| == 0 && (o.jsonBody.Some? || o.requestBody.Some?)
    ensures |o.data| == 0 && o.jsonBody.None? && o.requestBody.Some? && o.encode == EncodeRaw ==>
            (r.Failure? <==> !o.requestBody.value.VString?)
    ensures |o.data| == 0 && o.jsonBody.None? && o.requestBody.Some? && o.encode == EncodeRawByte ==>
            (r.Failure? <==> !o.requestBody.value.VBytes?)
  {
    if |o.data| > 0 then Success(StringBytes(enc.form(o.data)))
    else if o.jsonBody.Some? then Marshalled(enc.json(o.jsonBody.value))
    else if o.requestBody.None? then Success([])
    else
      var body := o.requestBody.value;
      if o.encode == EncodeJson then Marshalled(enc.json(body))
      else if o.encode == EncodeMcPack then Marshalled(enc.mcpack(body))
      else if o.encode == EncodeRaw then
        (if body.VString? then Success(StringBytes(body.s)) else Failure(RawNeedsString))
      else if o.encode == EncodeRawByte then
        (if body.VBytes? then Success(body.b) else Failure(RawByteNeedsBytes))
      else
        var f := FormRequestData(body, enc);
        if f.Success? then Success(StringBytes(f.value)) else Failure(f.error)
  }

  /** The four encodings getData treats specially. */
  predicate KnownEncoding(e: string) {
    e == EncodeJson || e == EncodeMcPack || e == EncodeRaw || e == EncodeRawByte
  }

  /** A non-empty Data map decides the body alone: the JSON body, the request body and the encoding are ignored. */
  lemma DataWins(o1: RequestOptions, o2: RequestOptions, enc: Encoders)
    requires |o1.data| > 0 && o1.data == o2.data
    ensures GetData(o1, enc) == GetData(o2, enc) == Success(StringBytes(enc.form(o1.data)))
  {
  }

  /** Without Data, a JSON body decides the body: the request body and the encoding are ignored. */
  lemma JsonBodyNext(o1: RequestOptions, o2: RequestOptions, enc: Encoders)
    requires |o1.data| == 0 && |o2.data| == 0
    requires o1.jsonBody.Some? && o1.jsonBody == o2.jsonBody
    ensures GetData(o1, enc) == GetData(o2, enc)
  {
    assert o1.data == o2.data == map[];
  }

  /** Without Data, JSON body or request body there is nothing to send, whatever the encoding. */
  lemma NilBodyNoData(o: RequestOptions, enc: Encoders)
    requires |o.data| == 0 && o.jsonBody.None? && o.requestBody.None?
    ensures GetData(o, enc) == Success([])
  {
  }

  /** An encoding other than the four special ones is treated as form encoding. */
  lemma UnknownEncodingIsForm(o: RequestOptions, enc: Encoders)
    requires !KnownEncoding(o.encode)
    ensures GetData(o, enc) == GetData(o.(encode := EncodeForm), enc)
  {
  }

  /** A raw body sends the string's bytes, and refuses anything but a string. */
  lemma RawBody(o: RequestOptions, enc: Encoders)
    requires |o.data| == 0 && o.jsonBody.None? && o.requestBody.Some? && o.encode == EncodeRaw
    ensures GetData(o, enc).Success? <==> o.requestBody.value.VString?
    ensures GetData(o, enc).Success? ==> GetData(o, enc).value == StringBytes(o.requestBody.value.s)
  {
  }

  /** GetContentType: an explicit content type, else JSON for the JSON encoding, else form. */
  function GetContentType(o: RequestOptions): (cType: string)
    ensures o.contentType != "" ==> cType == o.contentType
    ensures o.contentType == "" ==> (cType == ContentTypeJson <==> o.encode == EncodeJson)
    ensures o.contentType == "" && o.encode != EncodeJson ==> cType == ContentTypeForm
  {
    if o.contentType != "" then o.contentType
    else if o.encode == EncodeJson then ContentTypeJson
    else ContentTypeForm
  }

  /**
   * The content type follows the encoding, not the body actually built: Data is always form-encoded,
   * yet with the JSON encoding and no explicit type it is labelled JSON.
   */
  lemma DataLabelledByEncoding(enc: Encoders)
    ensures var o := NoOptions.(data := map["a" := "1"], encode := EncodeJson);
            GetData(o, enc) == Success(StringBytes(enc.form(o.data))) && GetContentType(o) == ContentTypeJson
  {
  }

  /** The methods that carry their data in the URL, and those that carry it in the body. */
  predicate QueryMethod(m: string) {
    m == "GET" || m == "HEAD" || m == "DELETE"
  }

  predicate BodyMethod(m: string) {
    m == "POST" || m == "PUT"
  }

  /** The URL and body makeRequest builds from the domain, path, method and data. */
  datatype Target = Target(url: string, body: seq<byte>)

  /** The separator before the query: `&` when the URL already has a query, `?` otherwise. */
  function QuerySeparator(base: string): (c: char)
    ensures c == '&' <==> Contains(base, "?")
    ensures c == '&' || c == '?'
  {
    if Contains(base, "?") then '&' else '?'
  }

  /** makeRequest's URL and body rule. */
  function RequestTarget(domain: string, path: string, httpMethod: string, data: seq<byte>): (t: Target)
    ensures QueryMethod(httpMethod) ==> t.body == [] && |t.url| == |domain + path| + 1 + |data|
    ensures !QueryMethod(httpMethod) ==> t.url == domain + path
    ensures BodyMethod(httpMethod) ==> t.body == data
    ensures !QueryMethod(httpMethod) && !BodyMethod(httpMethod) ==> t.body == []
  {
    var base := domain + path;
    if QueryMethod(httpMethod) then Target(base + [QuerySeparator(base)] + BytesString(data), [])
    else if BodyMethod(httpMethod) then Target(base, data)
    else Target(base, [])
  }

  /** A query method's URL is the base, one separator, then the data: the data can be read back off it. */
  lemma QueryRecoverable(domain: string, path: string, httpMethod: string, data: seq<byte>)
    requires QueryMethod(httpMethod)
    ensures var t := RequestTarget(domain, path, httpMethod, data);
            var n := |domain + path|;
            t.url[..n] == domain + path && t.url[n] == QuerySeparator(domain + path) &&
            StringBytes(t.url[n + 1..]) == data
  {
    var base := domain + path;
    var t := RequestTarget(domain, path, httpMethod, data);
    assert t.url == base + [QuerySeparator(base)] + BytesString(data);
    assert t.url[|base| + 1..] == BytesString(data);
  }

  /** Even with no data a query method appends the separator: `GET /a` becomes `/a?`. */
  lemma EmptyQueryKeepsSeparator()
    ensures RequestTarget("", "/a", "GET", []).url == "/a?"
  {
    ContainsAt("/a", "?");
    forall i ensures !OccursAt("/a", "?", i) {
      if 0 <= i <= 1 {
        assert "/a"[i..i + 1][0] == "/a"[i];
      }
    }
    assert QuerySeparator("/a") == '?';
    assert BytesString([]) == [];
    assert "" + "/a" == "/a";
  }

  /** Why makeRequest builds no request: getData failed, or http.NewRequest rejected the method or URL. */
  datatype RequestError = DataFailed(data: DataError) | NewRequestFailed(message: string)

  /**
   * makeRequest up to the request object: no request when the body cannot be built, and none when
   * http.NewRequest, given here as `newRequest` from the method and URL to its error, rejects them.
   */
  function MakeRequest(domain: string, path: string, httpMethod: string, o: RequestOptions, enc: Encoders,
                       newRequest: (string, string) -> Option<string>)
    : (r: Result<(Target, string), RequestError>)
    ensures GetData(o, enc).Failure? ==> r == Failure(DataFailed(GetData(o, enc).error))
    ensures GetData(o, enc).Success? ==>
      var t := RequestTarget(domain, path, httpMethod, GetData(o, enc).value);
      (newRequest(httpMethod, t.url).Some? ==> r == Failure(NewRequestFailed(newRequest(httpMethod, t.url).value))) &&
      (newRequest(httpMethod, t.url).None? ==> r == Success((t, GetContentType(o))))
    ensures r.Success? <==>
      (GetData(o, enc).Success? &&
       newRequest(httpMethod, RequestTarget(domain, path, httpMethod, GetData(o, enc).value).url).None?)
  {
    var data := GetData(o, enc);
    if data.Failure? then Failure(DataFailed(data.error))
    else
      var t := RequestTarget(domain, path, httpMethod, data.value);
      var err := newRequest(httpMethod, t.url);
      if err.Some? then Failure(NewRequestFailed(err.value))
      else Success((t, GetContentType(o)))
  }

  /** The timeout of each attempt: the request's if positive, else the client's if positive, else 3 s. */
  function AttemptTimeout(requestTimeout: int, clientTimeout: int): (timeout: int)
    ensures timeout > 0
    ensures timeout == requestTimeout || timeout == clientTimeout || timeout == DefaultTimeout
    ensures requestTimeout > 0 ==> timeout == requestTimeout
    ensures requestTimeout <= 0 && clientTimeout > 0 ==> timeout == clientTimeout
  {
    if requestTimeout > 0 then requestTimeout
    else if clientTimeout > 0 then clientTimeout
    else DefaultTimeout
  }


  /** What one attempt came back with: the status code if there is a response, the transport error if any. */
  datatype Reply = Reply(status: Option<int>, err: Option<string>)

  /** A Go RetryPolicy: whether to try again after a reply. */
  type RetryPolicy = Reply -> bool

  /** The policy built from the configured RetryHttpCode: retry on an error, no response, or a status at or above it. */
  predicate RetryFromCode(code: int, r: Reply) {
    r.err.Some? || r.status.None? || r.status.value >= code
  }

  /** The default policy: retry only after a transport error. */
  predicate RetryOnError(r: Reply) {
    r.err.Some?
  }

  /** GetRetryPolicy: the request's policy, else the client's, else one from RetryHttpCode, else the default. */
  function GetRetryPolicy(requestPolicy: Option<RetryPolicy>, clientPolicy: Option<RetryPolicy>,
                          retryHttpCode: int): (p: RetryPolicy)
    ensures requestPolicy.Some? ==> forall r :: p(r) == requestPolicy.value(r)
    ensures requestPolicy.None? && clientPolicy.Some? ==> forall r :: p(r) == clientPolicy.value(r)
    ensures requestPolicy.None? && clientPolicy.None? && retryHttpCode > 0 ==>
      forall r :: p(r) == RetryFromCode(retryHttpCode, r)
    ensures requestPolicy.None? && clientPolicy.None? && retryHttpCode <= 0 ==>
      forall r :: p(r) == RetryOnError(r)
  {
    if requestPolicy.Some? then requestPolicy.value
    else if clientPolicy.Some? then clientPolicy.value
    else if retryHttpCode > 0 then (r: Reply) => RetryFromCode(retryHttpCode, r)
    else (r: Reply) => RetryOnError(r)
  }

  /** Configuring RetryHttpCode only adds retries: the code policy retries whenever the default one does. */
  lemma CodePolicyExtendsDefault(retryHttpCode: int, r: Reply)
    requires retryHttpCode > 0
    ensures GetRetryPolicy(None, None, 0)(r) ==> GetRetryPolicy(None, None, retryHttpCode)(r)
  {
  }

  /** calRalCode: -1 for an error, no response, status 0 or a status of 400 or more; 0 otherwise. */
  function RalCode(status: Option<int>, failed: bool): (code: int)
    ensures code == 0 || code == -1
    ensures code == 0 <==> !failed && status.Some? && status.value != 0 && status.value < 400
  {
    if failed || status.None? || status.value >= 400 || status.value == 0 then -1 else 0
  }

  /**
   * With RetryHttpCode 400, the retry policy and calRalCode agree on every reply that did not fail
   * in transport and has a positive status: it is retried exactly when it counts as failed.
   */
  lemma CodePolicyMatchesRalCode(r: Reply)
    requires r.err.None? && (r.status.Some? ==> r.status.value > 0)
    ensures GetRetryPolicy(None, None, 400)(r) <==> RalCode(r.status, false) == -1
  {
  }

  /** What do returns: the last reply, the number of attempts, and the error reported. */
  datatype DoResult = DoResult(last: Reply, attempts: nat, err: Option<string>)

  /** The loop stops after attempt k when the policy declines, or when k already exceeds maxAttempts. */
  predicate StopsAt(k: nat, maxAttempts: int, policy: RetryPolicy, send: nat -> Reply) {
    !policy(send(k)) || k > maxAttempts
  }

  /** The first attempt from k on at which the loop stops. */
  function StopFrom(k: nat, maxAttempts: int, policy: RetryPolicy, send: nat -> Reply): (n: nat)
    requires 1 <= k <= Max(maxAttempts, 0) + 1
    ensures k <= n <= Max(maxAttempts, 0) + 1 && StopsAt(n, maxAttempts, policy, send)
    decreases Max(maxAttempts, 0) + 1 - k
  {
    if StopsAt(k, maxAttempts, policy, send) then k else StopFrom(k + 1, maxAttempts, policy, send)
  }

  /** The error do reports when it gives up, naming the attempt count and the last transport error. */
  function GiveUpMessage(attempts: nat, last: Reply): string {
    "giving up after " + Decimal(attempts) + " attempt(s): hit retry policy"
    + (if last.err.Some? then ", error: " + last.err.value else "")
  }

  /**
   * The retry loop of do, as written: attempt k gets the reply send(k); an error is reported only
   * when the policy still wanted a retry at the end.
   */
  function DoOf(maxAttempts: int, policy: RetryPolicy, send: nat -> Reply): (r: DoResult)
    ensures 1 <= r.attempts <= Max(maxAttempts, 0) + 1 && r.last == send(r.attempts)
    ensures r.err.Some? <==> policy(r.last)
  {
    var n := StopFrom(1, maxAttempts, policy, send);
    DoResult(send(n), n, if policy(send(n)) then Some(GiveUpMessage(n, send(n))) else None)
  }

  /** do's loop: attempts until the policy declines or the retries are used up. */
  method Do(maxAttempts: int, policy: RetryPolicy, send: nat -> Reply) returns (res: DoResult)
    ensures res == DoOf(maxAttempts, policy, send)
  {
    var attemptCount: nat := 0;
    var resp := Reply(None, None);
    var shouldRetry := false;
    while true
      invariant attemptCount <= Max(maxAttempts, 0)
      invariant forall k :: 1 <= k <= attemptCount ==> !StopsAt(k, maxAttempts, policy, send)
      decreases Max(maxAttempts, 0) + 1 - attemptCount
    {
      attemptCount := attemptCount + 1;
      resp := send(attemptCount);
      shouldRetry := policy(resp);
      if !shouldRetry {
        assert StopsAt(attemptCount, maxAttempts, policy, send);
        break;
      }
      if attemptCount > maxAttempts {
        assert StopsAt(attemptCount, maxAttempts, policy, send);
        break;
      }
    }
    assert 1 <= attemptCount <= Max(maxAttempts, 0) + 1;
    assert StopsAt(attemptCount, maxAttempts, policy, send);
    StopFromFirst(1, attemptCount, maxAttempts, policy, send);
    var err := None;
    if shouldRetry {
      err := Some(GiveUpMessage(attemptCount, resp));
    }
    res := DoResult(resp, attemptCount, err);
  }

  /** The loop stops at the first attempt that stops it. */
  lemma {:induction false} StopFromFirst(k: nat, n: nat, maxAttempts: int, policy: RetryPolicy, send: nat -> Reply)
    requires 1 <= k <= n <= Max(maxAttempts, 0) + 1
    requires forall j :: k <= j < n ==> !StopsAt(j, maxAttempts, policy, send)
    requires StopsAt(n, maxAttempts, policy, send)
    ensures StopFrom(k, maxAttempts, policy, send) == n
    decreases n - k
  {
    if k < n {
      StopFromFirst(k + 1, n, maxAttempts, policy, send);
    }
  }

  /**
   * At most max(Retry, 0) + 1 attempts, every attempt but the last was retried, and an error is
   * reported exactly when a retry was still wanted, which happens only once the retries are used up.
   */
  lemma AttemptBound(maxAttempts: int, policy: RetryPolicy, send: nat -> Reply)
    ensures var r := DoOf(maxAttempts, policy, send);
            1 <= r.attempts <= Max(maxAttempts, 0) + 1 && r.last == send(r.attempts) &&
            (r.err.Some? <==> policy(r.last)) &&
            (r.err.Some? ==> r.attempts == Max(maxAttempts, 0) + 1)
    ensures forall k :: 1 <= k < DoOf(maxAttempts, policy, send).attempts ==> policy(send(k))
  {
    var n := StopFrom(1, maxAttempts, policy, send);
    forall k | 1 <= k < n ensures policy(send(k)) {
      StopFromBefore(1, k, maxAttempts, policy, send);
    }
  }

  /** No attempt before the stopping one stops the loop. */
  lemma {:induction false} StopFromBefore(k: nat, j: nat, maxAttempts: int, policy: RetryPolicy, send: nat -> Reply)
    requires 1 <= k <= j && k <= Max(maxAttempts, 0) + 1
    requires j < StopFrom(k, maxAttempts, policy, send)
    ensures !StopsAt(j, maxAttempts, policy, send)
    decreases j - k
  {
    if k < j {
      StopFromBefore(k + 1, j, maxAttempts, policy, send);
    }
  }

  /** Without retries configured there is exactly one attempt. */
  lemma NoRetryOneAttempt(maxAttempts: int, policy: RetryPolicy, send: nat -> Reply)
    requires maxAttempts <= 0
    ensures DoOf(maxAttempts, policy, send).attempts == 1
  {
  }

  /** A first reply the policy accepts ends the loop at once, with no error. */
  lemma AcceptedFirstReply(maxAttempts: int, policy: RetryPolicy, send: nat -> Reply)
    requires !policy(send(1))
    ensures DoOf(maxAttempts, policy, send) == DoResult(send(1), 1, None)
  {
  }

  /**
   * As written, a transport error the policy declines to retry is lost: with a policy that never
   * retries, a failed attempt yields no response and no error.
   */
  lemma DoDropsTransportError(maxAttempts: int)
    ensures var r := DoOf(maxAttempts, (r: Reply) => false, (k: nat) => Reply(None, Some("connection refused")));
            r.last.status.None? && r.err.None?
  {
  }

  /** do with the last transport error reported when no retry is pending. */
  function DoChecked(maxAttempts: int, policy: RetryPolicy, send: nat -> Reply): (r: DoResult)
    ensures r.attempts == DoOf(maxAttempts, policy, send).attempts && r.last == DoOf(maxAttempts, policy, send).last
    ensures r.err.None? ==> r.last.err.None?
    ensures r.err.None? <==> !policy(r.last) && r.last.err.None?
  {
    var r := DoOf(maxAttempts, policy, send);
    if r.err.None? && r.last.err.Some? then r.(err := r.last.err) else r
  }

  /** Where the policy retries every transport error, the correction changes nothing. */
  lemma DoCheckedAgrees(maxAttempts: int, policy: RetryPolicy, send: nat -> Reply)
    requires forall r: Reply :: r.err.Some? ==> policy(r)
    ensures DoChecked(maxAttempts, policy, send) == DoOf(maxAttempts, policy, send)
  {
  }

  /** The logged prefix of a body: none for limit -1, at most 10240 bytes for 0; a limit below -1 panics. */
  function LogBody(body: seq<byte>, limit: int): (o: Outcome<Option<seq<byte>>>)
    ensures o == Panics <==> limit < -1
    ensures o == Returns(None) <==> limit == -1
    ensures o.Returns? && o.value.Some? ==>
      var cap := if limit == 0 then DefaultPrintLen else limit;
      o.value.value <= body && |o.value.value| == Min(|body|, cap)
  {
    var cap := if limit == 0 then DefaultPrintLen else limit;
    if cap == -1 then Returns(None)
    else if |body| > cap then (if cap < 0 then Panics else Returns(Some(body[..cap])))
    else Returns(Some(body))
  }

  /** Cutting a logged body again with the same limit changes nothing. */
  lemma LogBodyIdempotent(body: seq<byte>, limit: int)
    requires LogBody(body, limit).Returns? && LogBody(body, limit).value.Some?
    ensures LogBody(LogBody(body, limit).value.value, limit) == LogBody(body, limit)
  {
  }

  /** formatLogMsg: the request and the response body each cut by its own limit, the request first. */
  function FormatLogMsg(reqLimit: int, respLimit: int, requestParam: seq<byte>, responseData: seq<byte>)
    : (o: Outcome<(Option<seq<byte>>, Option<seq<byte>>)>)
    ensures o.Returns? <==> LogBody(requestParam, reqLimit).Returns? && LogBody(responseData, respLimit).Returns?
    ensures o.Returns? ==> o.value == (LogBody(requestParam, reqLimit).value, LogBody(responseData, respLimit).value)
  {
    var req := LogBody(requestParam, reqLimit);
    var resp := LogBody(responseData, respLimit);
    if req.Panics? || resp.Panics? then Panics else Returns((req.value, resp.value))
  }

  /** The logged request depends on the request alone, the logged response on the response alone. */
  lemma LogSidesIndependent(reqLimit: int, respLimit: int, req1: seq<byte>, req2: seq<byte>,
                            resp1: seq<byte>, resp2: seq<byte>)
    requires reqLimit >= -1 && respLimit >= -1
    ensures FormatLogMsg(reqLimit, respLimit, req1, resp1).value.0 == FormatLogMsg(reqLimit, respLimit, req1, resp2).value.0
    ensures FormatLogMsg(reqLimit, respLimit, req1, resp1).value.1 == FormatLogMsg(reqLimit, respLimit, req2, resp1).value.1
  {
  }
}
