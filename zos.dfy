/**
 * The object-storage client's configuration and request plumbing: defaults filled into the client
 * configuration, the bucket table built from it, the request options for a byte or string body,
 * and the mapping of replies to errors. The HTTP exchange itself is an input.
 */
module Zos {
  import opened Wrappers
  import opened Bytes
  import opened Text
  import H = Http

  const Millisecond: int := 1_000_000
  const Second: int := 1_000_000_000
  const Minute: int := 60_000_000_000

  /** The largest upload sent in one piece (5 GiB), and the smallest multipart block (1 MiB). */
  const MaxUnSliceFileSize: int := 5 * 1024 * 1024 * 1024
  const MinSliceFileSize: int := 1024 * 1024

  const StatusCodeSuccess: int := 200
  const StatusCodeNoSuchKey: int := 244

  const DockerDomain: string := "http://zos"
  const DefaultDomain: string := "http://zos-proxy-base-cc.suanshubang.cc"
  const HeaderDevAppName: string := "X-ZYB-Appname"

  /** One configured bucket. */
  datatype BucketConf = BucketConf(bucket: string, directory: string, filePrefix: string, uploadChunk: int)

  /** The client configuration; durations in nanoseconds. */
  datatype ClientConf = ClientConf(domain: string, retry: int, connectTimeout: int, timeout: int,
                                   maxIdleConns: int, maxIdleConnsPerHost: int, maxConnsPerHost: int,
                                   idleConnTimeout: int)

  /** The connection limits of the transport NewBucket installs; `unixSocket` when it dials the local socket. */
  datatype Transport = Transport(maxConnsPerHost: int, maxIdleConns: int, maxIdleConnsPerHost: int,
                                 idleConnTimeout: int, connectTimeout: int, unixSocket: bool)

  /** The HTTP client every bucket of one NewBucket call shares. */
  datatype ApiClient = ApiClient(service: string, domain: string, timeout: int, connectTimeout: int,
                                 retry: int, idleConnTimeout: int, maxReqBodyLen: int, maxRespBodyLen: int,
                                 transport: Transport)

  /** A usable bucket: its own configuration, the client configuration, the shared client. */
  datatype Bucket = Bucket(conf: BucketConf, clientConf: ClientConf, client: ApiClient)

  /** checkConf on a value: every zero setting replaced by its default, the rest kept. */
  function Checked(c: ClientConf): (r: ClientConf)
    ensures r.connectTimeout == (if c.connectTimeout == 0 then 500 * Millisecond else c.connectTimeout)
    ensures r.timeout == (if c.timeout == 0 then 10 * Second else c.timeout)
    ensures r.maxIdleConns == (if c.maxIdleConns == 0 then 50 else c.maxIdleConns)
    ensures r.maxIdleConnsPerHost == (if c.maxIdleConnsPerHost == 0 then 50 else c.maxIdleConnsPerHost)
    ensures r.idleConnTimeout == (if c.idleConnTimeout == 0 then 10 * Minute else c.idleConnTimeout)
    ensures r.domain == c.domain && r.retry == c.retry && r.maxConnsPerHost == c.maxConnsPerHost
  {
    c.(connectTimeout := if c.connectTimeout == 0 then 500 * Millisecond else c.connectTimeout,
       timeout := if c.timeout == 0 then 10 * Second else c.timeout,
       maxIdleConns := if c.maxIdleConns == 0 then 50 else c.maxIdleConns,
       maxIdleConnsPerHost := if c.maxIdleConnsPerHost == 0 then 50 else c.maxIdleConnsPerHost,
       idleConnTimeout := if c.idleConnTimeout == 0 then 10 * Minute else c.idleConnTimeout)
  }

  /** After checkConf no defaulted setting is zero, and a second checkConf changes nothing. */
  lemma CheckedComplete(c: ClientConf)
    ensures var r := Checked(c);
            r.connectTimeout != 0 && r.timeout != 0 && r.maxIdleConns != 0 && r.maxIdleConnsPerHost != 0 &&
            r.idleConnTimeout != 0
    ensures Checked(Checked(c)) == Checked(c)
  {
  }

  /** A configuration with all its limits set is left as it is. */
  lemma CheckedKeepsSettings(c: ClientConf)
    requires c.connectTimeout != 0 && c.timeout != 0 && c.maxIdleConns != 0 && c.maxIdleConnsPerHost != 0
    requires c.idleConnTimeout != 0
    ensures Checked(c) == c
  {
  }

  /** The configuration NewBucket receives, which checkConf completes in place. */
  class CustomerConfig {
    var buckets: seq<BucketConf>
    var clientConf: ClientConf

    constructor (buckets: seq<BucketConf>, clientConf: ClientConf)
      ensures this.buckets == buckets && this.clientConf == clientConf
    {
      this.buckets := buckets;
      this.clientConf := clientConf;
    }

    /** checkConf: fills the zero client settings with their defaults; the buckets are untouched. */
    method CheckConf()
      modifies this
      ensures clientConf == Checked(old(clientConf)) && buckets == old(buckets)
    {
      if clientConf.connectTimeout == 0 {
        clientConf := clientConf.(connectTimeout := 500 * Millisecond);
      }
      if clientConf.timeout == 0 {
        clientConf := clientConf.(timeout := 10 * Second);
      }
      if clientConf.maxIdleConns == 0 {
        clientConf := clientConf.(maxIdleConns := 50);
      }
      if clientConf.maxIdleConnsPerHost == 0 {
        clientConf := clientConf.(maxIdleConnsPerHost := 50);
      }
      if clientConf.idleConnTimeout == 0 {
        clientConf := clientConf.(idleConnTimeout := 10 * Minute);
      }
    }
  }

  /** A bucket's upload chunk: 0 means 5 GiB, anything else below 1 MiB is raised to 1 MiB. */
  function ClampChunk(uploadChunk: int): (r: int)
    ensures r >= MinSliceFileSize
    ensures uploadChunk == 0 ==> r == MaxUnSliceFileSize
    ensures uploadChunk != 0 && uploadChunk < MinSliceFileSize ==> r == MinSliceFileSize
    ensures uploadChunk >= MinSliceFileSize ==> r == uploadChunk
  {
    if uploadChunk == 0 then MaxUnSliceFileSize
    else if uploadChunk < MinSliceFileSize then MinSliceFileSize
    else uploadChunk
  }

  /** Clamping a clamped chunk changes nothing. */
  lemma ClampIdempotent(uploadChunk: int)
    ensures ClampChunk(ClampChunk(uploadChunk)) == ClampChunk(uploadChunk)
  {
  }

  /** The service domain: the local socket's name in docker, else the configured domain, else the default one. */
  function Domain(docker: bool, configured: string): (d: string)
    ensures docker ==> d == DockerDomain
    ensures !docker && configured != "" ==> d == configured
    ensures !docker && configured == "" ==> d == DefaultDomain
  {
    if docker then DockerDomain else if configured != "" then configured else DefaultDomain
  }

  /**
   * The client NewBucket builds from a checked configuration. No body is ever logged, and the
   * transport's per-host connection cap is the idle per-host limit; the configured MaxConnsPerHost
   * plays no part.
   */
  function ClientOf(c: ClientConf, docker: bool): (api: ApiClient)
    ensures api.service == "zos" && api.domain == Domain(docker, c.domain)
    ensures api.maxReqBodyLen == -1 && api.maxRespBodyLen == -1
    ensures api.transport.maxConnsPerHost == c.maxIdleConnsPerHost && api.transport.unixSocket == docker
  {
    ApiClient("zos", Domain(docker, c.domain), c.timeout, c.connectTimeout, c.retry, c.idleConnTimeout, -1, -1,
              Transport(c.maxIdleConnsPerHost, c.maxIdleConns, c.maxIdleConnsPerHost, c.idleConnTimeout,
                        c.connectTimeout, docker))
  }

  /** The configured MaxConnsPerHost never reaches the transport: two configurations differing only there agree. */
  lemma MaxConnsPerHostIgnored(c: ClientConf, n: int, docker: bool)
    ensures ClientOf(Checked(c.(maxConnsPerHost := n)), docker) == ClientOf(Checked(c), docker)
  {
  }

  /** The zos client logs neither request nor response bodies. */
  lemma NoBodiesLogged(c: ClientConf, docker: bool, req: seq<byte>, resp: seq<byte>)
    ensures var api := ClientOf(c, docker);
            H.FormatLogMsg(api.maxReqBodyLen, api.maxRespBodyLen, req, resp) == Returns((None, None))
  {
  }

  /** The bucket one configuration yields: its chunk clamped, the shared client configuration and client. */
  function MakeBucket(v: BucketConf, clientConf: ClientConf, api: ApiClient): (b: Bucket)
    ensures b.conf.uploadChunk == ClampChunk(v.uploadChunk) && b.conf.(uploadChunk := v.uploadChunk) == v
  {
    Bucket(v.(uploadChunk := ClampChunk(v.uploadChunk)), clientConf, api)
  }

  /** The bucket table after the given configurations, later ones overwriting earlier ones of the same name. */
  function BucketMap(confs: seq<BucketConf>, clientConf: ClientConf, api: ApiClient): map<string, Bucket>
    decreases |confs|
  {
    if confs == [] then map[]
    else
      var v := confs[|confs| - 1];
      BucketMap(confs[..|confs| - 1], clientConf, api)[v.bucket := MakeBucket(v, clientConf, api)]
  }

  /** The table holds exactly the configured names. */
  lemma {:induction false} BucketMapNames(confs: seq<BucketConf>, clientConf: ClientConf, api: ApiClient)
    ensures BucketMap(confs, clientConf, api).Keys == set i | 0 <= i < |confs| :: confs[i].bucket
    decreases |confs|
  {
    if confs != [] {
      var init := confs[..|confs| - 1];
      BucketMapNames(init, clientConf, api);
      assert forall i :: 0 <= i < |init| ==> init[i] == confs[i];
      assert (set i | 0 <= i < |confs| :: confs[i].bucket) ==
             (set i | 0 <= i < |init| :: init[i].bucket) + {confs[|confs| - 1].bucket};
    }
  }

  /** A name is bound to the bucket of its last configuration. */
  lemma {:induction false} LastConfigurationWins(confs: seq<BucketConf>, clientConf: ClientConf, api: ApiClient, i: nat)
    requires i < |confs| && forall j :: i < j < |confs| ==> confs[j].bucket != confs[i].bucket
    ensures confs[i].bucket in BucketMap(confs, clientConf, api)
    ensures BucketMap(confs, clientConf, api)[confs[i].bucket] == MakeBucket(confs[i], clientConf, api)
    decreases |confs|
  {
    if i < |confs| - 1 {
      var init := confs[..|confs| - 1];
      assert init[i] == confs[i];
      LastConfigurationWins(init, clientConf, api, i);
    }
  }

  /** Every bucket in the table has an upload chunk of at least 1 MiB. */
  lemma {:induction false} ChunksClamped(confs: seq<BucketConf>, clientConf: ClientConf, api: ApiClient)
    ensures forall name :: name in BucketMap(confs, clientConf, api) ==>
      BucketMap(confs, clientConf, api)[name].conf.uploadChunk >= MinSliceFileSize
    decreases |confs|
  {
    if confs != [] {
      ChunksClamped(confs[..|confs| - 1], clientConf, api);
    }
  }

  /** NewBucket: the configuration completed on a copy, one shared client, the bucket table built in order. */
  method NewBucket(buckets: seq<BucketConf>, clientConf: ClientConf, docker: bool) returns (bucketList: map<string, Bucket>)
    ensures bucketList == BucketMap(buckets, Checked(clientConf), ClientOf(Checked(clientConf), docker))
  {
    var conf := new CustomerConfig(buckets, clientConf);
    conf.CheckConf();
    var client := ClientOf(conf.clientConf, docker);
    bucketList := map[];
    var i := 0;
    while i < |conf.buckets|
      invariant 0 <= i <= |conf.buckets| && conf.buckets == buckets && conf.clientConf == Checked(clientConf)
      invariant bucketList == BucketMap(buckets[..i], conf.clientConf, client)
    {
      var v := conf.buckets[i];
      if v.uploadChunk == 0 {
        v := v.(uploadChunk := MaxUnSliceFileSize);
      } else if v.uploadChunk < MinSliceFileSize {
        v := v.(uploadChunk := MinSliceFileSize);
      }
      assert buckets[..i + 1][..i] == buckets[..i];
      assert v == MakeBucket(buckets[i], conf.clientConf, client).conf;
      bucketList := bucketList[conf.buckets[i].bucket := Bucket(v, conf.clientConf, client)];
      i := i + 1;
    }
    assert buckets[..i] == buckets;
  }

  /** The test-environment headers: the application name and the body length. */
  function TestHeaders(appName: string, length: nat): map<string, string> {
    map[HeaderDevAppName := appName, "Content-Length" := Decimal(length)]
  }

  /** bytesBody: a raw-byte body whenever the slice is not nil, even when it is empty. */
  function BytesBody(data: Option<seq<byte>>, testEnv: bool, appName: string): (opt: H.RequestOptions)
    ensures opt.requestBody.Some? <==> data.Some?
    ensures opt.headers.Some? <==> testEnv
    ensures testEnv ==> opt.headers == Some(TestHeaders(appName, if data.Some? then |data.value| else 0))
  {
    var opt := if data.Some? then H.NoOptions.(requestBody := Some(H.VBytes(data.value)), encode := H.EncodeRawByte)
               else H.NoOptions;
    if testEnv then opt.(headers := Some(TestHeaders(appName, if data.Some? then |data.value| else 0))) else opt
  }

  /** stringBody: a raw string body unless the string is empty. */
  function StringBody(data: string, testEnv: bool, appName: string): (opt: H.RequestOptions)
    ensures opt.requestBody.Some? <==> data != ""
    ensures opt.headers.Some? <==> testEnv
    ensures testEnv ==> opt.headers == Some(TestHeaders(appName, |data|))
  {
    var opt := if data != "" then H.NoOptions.(requestBody := Some(H.VString(data)), encode := H.EncodeRaw)
               else H.NoOptions;
    if testEnv then opt.(headers := Some(TestHeaders(appName, |data|))) else opt
  }

  /** What the client sends for a byte body is exactly the bytes given, nothing for nil. */
  lemma BytesBodySends(data: Option<seq<byte>>, testEnv: bool, appName: string, enc: H.Encoders)
    ensures H.GetData(BytesBody(data, testEnv, appName), enc) == Success(if data.Some? then data.value else [])
  {
  }

  /** What the client sends for a string body is exactly the string's bytes, nothing for the empty string. */
  lemma StringBodySends(data: string, testEnv: bool, appName: string, enc: H.Encoders)
    ensures H.GetData(StringBody(data, testEnv, appName), enc) == Success(StringBytes(data))
  {
  }

  /** The part of an ApiResult the bucket operations read: status, body and response headers. */
  datatype ApiResult = ApiResult(httpCode: int, response: seq<byte>, header: map<string, string>)

  /** What an HTTP call returns: the result and the transport error, if any. */
  datatype Response = Response(result: ApiResult, err: Option<string>)

  /** checkError: a transport error as is, a status other than 200 as an error carrying the body. */
  function CheckError(res: Response): (e: Option<string>)
    ensures res.err.Some? ==> e == res.err
    ensures res.err.None? && res.result.httpCode != StatusCodeSuccess ==> e == Some(BytesString(res.result.response))
    ensures e.None? <==> res.err.None? && res.result.httpCode == StatusCodeSuccess
  {
    if res.err.Some? then res.err
    else if res.result.httpCode != StatusCodeSuccess then Some(BytesString(res.result.response))
    else None
  }

  /** checkExist: 200 exists, 244 does not, any other status is an error carrying the body. */
  function CheckExist(res: Response): (r: (bool, Option<string>))
    ensures res.err.Some? ==> r == (false, res.err)
    ensures res.err.None? && res.result.httpCode == StatusCodeSuccess ==> r == (true, None)
    ensures res.err.None? && res.result.httpCode == StatusCodeNoSuchKey ==> r == (false, None)
    ensures res.err.None? && res.result.httpCode != StatusCodeSuccess && res.result.httpCode != StatusCodeNoSuchKey ==>
      r == (false, Some(BytesString(res.result.response)))
  {
    if res.err.Some? then (false, res.err)
    else if res.result.httpCode == StatusCodeSuccess then (true, None)
    else if res.result.httpCode == StatusCodeNoSuchKey then (false, None)
    else (false, Some(BytesString(res.result.response)))
  }

  /**
   * The two reply checks agree except on 244: an object exists exactly when checkError passes, and
   * every error checkExist reports is the one checkError reports.
   */
  lemma ExistAgreesWithError(res: Response)
    ensures CheckExist(res).0 <==> CheckError(res).None?
    ensures CheckExist(res).1.Some? ==> CheckExist(res).1 == CheckError(res)
    ensures CheckExist(res).1.None? && !CheckExist(res).0 <==> CheckError(res).Some? && res.err.None? &&
                                                               res.result.httpCode == StatusCodeNoSuchKey
  {
  }
}
