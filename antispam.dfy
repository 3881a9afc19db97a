/**
 * The anti-spam request check: the signed parameters taken from the form, the app id, the token
 * fetched for the device, the signature over the sorted parameters, and the client-time window.
 *
 * The form is the parsed url.Values (None when parsing fails); the token server's decoded reply,
 * the clock and the digest, Base64 and RC4 routines are inputs.
 */
module AntiSpam {
  import opened Wrappers
  import opened Bytes
  import opened Text

  const OSIos: string := "ios"
  const OSAndroid: string := "android"
  const OSSdk: string := "sdk"
  const DefaultAppId: string := "homework"

  /** The fixed text mixed into the RC4 key of a non-Android device. */
  const RC4Salt: string := "K$L@aPb$O^Ic%U*Y`T=f+R~d954e1215aef11a512c1585a0fcd5648ff189f1e?Q0\"9{8<7@6#5(4%3&2+1"

  /** The errors a check returns (errors.go). */
  datatype AntiSpamError =
    | ParseParams | SignErr | LackSign | EmptyToken | GetToken | Ignore | TokenNearlyExpired
    | TokenRc4 | CuIDEmpty | ClientTimeFormat | ClientTimeTooOld

  /** The time-control switch and window, and the key store. */
  datatype Config = Config(timeSwitch: int64, maxTime: int64, keystore: map<string, string>)

  /** InitAntiSpam without options: time control off, one key. */
  const DefaultConfig: Config := Config(0, 0, map["key3" := "8&%d*"])

  /** The digest (hex MD5), Base64 and RC4 routines the signature is built with. */
  datatype Crypto = Crypto(md5: string -> string, base64: string -> string, rc4: (string, string) -> Option<string>)

  /** A parsed request form. */
  type Form = map<string, seq<string>>

  datatype Request = Request(os: string, cuId: string, appId: string, path: string, sign: string,
                             clientTime: string, signParam: map<string, string>)

  /** url.Values.Get: the first value of the key, or "" when it has none. */
  function Get(form: Form, key: string): string {
    if key in form && |form[key]| > 0 then form[key][0] else ""
  }

  /** A Go map read: the value, or "" for a missing key. */
  function Read(m: map<string, string>, key: string): string {
    if key in m then m[key] else ""
  }

  // ---------------------------------------------------------------------------------------------
  // The request parameters.

  /** getAppID: appId, falling back to appid, falling back to "homework". */
  function GetAppId(form: Form): (appId: string)
    ensures appId != ""
    ensures Get(form, "appId") != "" ==> appId == Get(form, "appId")
    ensures Get(form, "appId") == "" && Get(form, "appid") != "" ==> appId == Get(form, "appid")
    ensures Get(form, "appId") == "" && Get(form, "appid") == "" ==> appId == DefaultAppId
  {
    var appId := Get(form, "appId");
    var appId := if appId == "" then Get(form, "appid") else appId;
    if appId != "" then appId else DefaultAppId
  }

  /** The first value of every key in `keys` that has one, except __scuid and sign. */
  function FirstValues(form: Form, keys: set<string>): map<string, string> {
    map k | k in keys && k in form && |form[k]| > 0 && k != "__scuid" && k != "sign" :: form[k][0]
  }

  /** The signed parameters: each key's first value, sign left out, cuid replaced by a non-empty __scuid. */
  function SignParams(form: Form): (params: map<string, string>)
    ensures "sign" !in params && "__scuid" !in params
    ensures forall k :: k in params <==>
      (k in form && |form[k]| > 0 && k != "__scuid" && k != "sign") || (k == "cuid" && Get(form, "__scuid") != "")
    ensures Get(form, "__scuid") != "" ==> params["cuid"] == Get(form, "__scuid")
    ensures forall k :: k in params && !(k == "cuid" && Get(form, "__scuid") != "") ==> params[k] == form[k][0]
  {
    var params := FirstValues(form, form.Keys);
    var scuId := Get(form, "__scuid");
    if scuId != "" then params["cuid" := scuId] else params
  }

  /** What initRequestParam builds from a form: a missing cuid is reported before a missing sign. */
  function RequestOf(form: Option<Form>, path: string): (r: Result<Request, AntiSpamError>)
    ensures form.None? ==> r == Failure(ParseParams)
    ensures form.Some? && Get(form.value, "cuid") == "" ==> r == Failure(CuIDEmpty)
    ensures form.Some? && Get(form.value, "cuid") != "" && Get(form.value, "sign") == "" ==> r == Failure(LackSign)
    ensures r.Success? <==> form.Some? && Get(form.value, "cuid") != "" && Get(form.value, "sign") != ""
    ensures r.Success? ==>
      r.value.cuId == Get(form.value, "cuid") && r.value.sign == Get(form.value, "sign") &&
      r.value.os == (if Get(form.value, "os") == "" then OSAndroid else Get(form.value, "os")) &&
      r.value.appId == GetAppId(form.value) && r.value.clientTime == Get(form.value, "_t_") &&
      r.value.signParam == SignParams(form.value) && r.value.path == path
  {
    match form
    case None => Failure(ParseParams)
    case Some(f) =>
      if Get(f, "cuid") == "" then Failure(CuIDEmpty)
      else if Get(f, "sign") == "" then Failure(LackSign)
      else
        var os := if Get(f, "os") == "" then OSAndroid else Get(f, "os");
        Success(Request(os, Get(f, "cuid"), GetAppId(f), path, Get(f, "sign"), Get(f, "_t_"), SignParams(f)))
  }

  /** initRequestParam: the form's keys are visited in an arbitrary order. */
  method InitRequestParam(form: Option<Form>, path: string) returns (r: Result<Request, AntiSpamError>)
    ensures r == RequestOf(form, path)
  {
    if form.None? {
      return Failure(ParseParams);
    }
    var f := form.value;
    var params, scuId := CollectParams(f);
    if scuId != "" {
      params := params["cuid" := scuId];
    }
    var request := Request("", "", GetAppId(f), path, "", "", params);
    var cuId := Get(f, "cuid");
    if cuId == "" {
      return Failure(CuIDEmpty);
    }
    request := request.(cuId := cuId);
    var os := Get(f, "os");
    if os == "" {
      os := OSAndroid;
    }
    request := request.(os := os);
    request := request.(clientTime := Get(f, "_t_"));
    var sign := Get(f, "sign");
    if sign == "" {
      return Failure(LackSign);
    }
    r := Success(request.(sign := sign));
  }

  /** The loop of initRequestParam over the form's keys, visited in an arbitrary order. */
  method CollectParams(f: Form) returns (params: map<string, string>, scuId: string)
    ensures params == FirstValues(f, f.Keys) && scuId == Get(f, "__scuid")
  {
    params, scuId := map[], "";
    var remaining := f.Keys;
    ghost var done: set<string> := {};
    while remaining != {}
      invariant done + remaining == f.Keys && done !! remaining
      invariant params == FirstValues(f, done)
      invariant scuId == (if "__scuid" in done then Get(f, "__scuid") else "")
      decreases |remaining|
    {
      var k :| k in remaining;
      var vs := f[k];
      FirstValuesStep(f, done, k);
      if |vs| > 0 {
        if k == "__scuid" {
          scuId := vs[0];
        } else if k == "sign" {
        } else {
          params := params[k := vs[0]];
        }
      }
      remaining := remaining - {k};
      done := done + {k};
    }
  }

  /** Visiting one more key adds its first value, unless it is skipped. */
  lemma FirstValuesStep(form: Form, done: set<string>, k: string)
    requires k in form && k !in done
    ensures FirstValues(form, done + {k}) ==
      if |form[k]| > 0 && k != "__scuid" && k != "sign" then FirstValues(form, done)[k := form[k][0]] else FirstValues(form, done)
  {
  }

  // ---------------------------------------------------------------------------------------------
  // The sign string.

  /** Go's `a < b` on strings: lexicographic by character. */
  predicate Below(a: string, b: string)
    decreases |a|
  {
    |b| > 0 && (|a| == 0 || a[0] < b[0] || (a[0] == b[0] && Below(a[1..], b[1..])))
  }

  lemma {:induction false} BelowIrreflexive(a: string)
    ensures !Below(a, a)
    decreases |a|
  {
    if |a| > 0 {
      BelowIrreflexive(a[1..]);
    }
  }

  lemma {:induction false} BelowTransitive(a: string, b: string, c: string)
    requires Below(a, b) && Below(b, c)
    ensures Below(a, c)
    decreases |a|
  {
    if |a| > 0 && a[0] == b[0] && b[0] == c[0] {
      BelowTransitive(a[1..], b[1..], c[1..]);
    }
  }

  lemma {:induction false} BelowTotal(a: string, b: string)
    requires a != b
    ensures Below(a, b) || Below(b, a)
    decreases |a|
  {
    if |a| > 0 && |b| > 0 && a[0] == b[0] {
      assert a == [a[0]] + a[1..] && b == [b[0]] + b[1..];
      BelowTotal(a[1..], b[1..]);
    }
  }

  predicate StrictlySorted(ks: seq<string>) {
    forall i, j :: 0 <= i < j < |ks| ==> Below(ks[i], ks[j])
  }

  predicate Distinct(ks: seq<string>) {
    forall i, j :: 0 <= i < j < |ks| ==> ks[i] != ks[j]
  }

  /** Insert x before the first key it is below. */
  function Insert(x: string, ks: seq<string>): (r: seq<string>)
    ensures |r| == |ks| + 1 && forall k :: k in r <==> k == x || k in ks
  {
    if ks == [] || Below(x, ks[0]) then [x] + ks else [ks[0]] + Insert(x, ks[1..])
  }

  /** sort.Strings, as an insertion sort. */
  function Sort(ks: seq<string>): (r: seq<string>)
    ensures |r| == |ks| && forall k :: k in r <==> k in ks
  {
    if ks == [] then [] else Insert(ks[0], Sort(ks[1..]))
  }

  lemma {:induction false} InsertSorted(x: string, ks: seq<string>)
    requires StrictlySorted(ks) && x !in ks
    ensures StrictlySorted(Insert(x, ks))
    decreases |ks|
  {
    if ks == [] {
    } else if Below(x, ks[0]) {
      forall j | 0 <= j < |ks| ensures Below(x, ks[j]) {
        if j > 0 {
          BelowTransitive(x, ks[0], ks[j]);
        }
      }
    } else {
      BelowTotal(x, ks[0]);
      InsertSorted(x, ks[1..]);
      var t := Insert(x, ks[1..]);
      forall j | 0 <= j < |t| ensures Below(ks[0], t[j]) {
        assert t[j] in t;
      }
    }
  }

  /** Sorting distinct keys gives them in strictly ascending order. */
  lemma {:induction false} SortSorted(ks: seq<string>)
    requires Distinct(ks)
    ensures StrictlySorted(Sort(ks))
    decreases |ks|
  {
    if ks != [] {
      assert Distinct(ks[1..]);
      SortSorted(ks[1..]);
      assert ks[0] !in ks[1..];
      InsertSorted(ks[0], Sort(ks[1..]));
    }
  }

  lemma FirstIsMember(s: seq<string>)
    ensures s == [] || s[0] in s
  {
  }

  /** Two strictly ascending sequences of the same keys are the same sequence. */
  lemma {:induction false} SortedUnique(a: seq<string>, b: seq<string>)
    requires StrictlySorted(a) && StrictlySorted(b)
    requires forall k :: k in a <==> k in b
    ensures a == b
    decreases |a|
  {
    if a == [] {
      FirstIsMember(b);
    } else {
      assert a[0] in b;
      assert b != [];
      if a[0] != b[0] {
        assert b[0] in a;
        var i :| 0 <= i < |a| && a[i] == b[0];
        var j :| 0 <= j < |b| && b[j] == a[0];
        BelowTransitive(a[0], b[0], a[0]);
        BelowIrreflexive(a[0]);
      }
      forall k ensures k in a[1..] <==> k in b[1..] {
        if k in a[1..] {
          var i :| 0 <= i < |a| - 1 && a[1..][i] == k;
          assert Below(a[0], a[i + 1]) && a[i + 1] in a;
          BelowIrreflexive(k);
          var j :| 0 <= j < |b| && b[j] == k;
          assert j != 0;
          assert b[1..][j - 1] == k;
        }
        if k in b[1..] {
          var j :| 0 <= j < |b| - 1 && b[1..][j] == k;
          assert Below(b[0], b[j + 1]) && b[j + 1] in b;
          BelowIrreflexive(k);
          var i :| 0 <= i < |a| && a[i] == k;
          assert i != 0;
          assert a[1..][i - 1] == k;
        }
      }
      SortedUnique(a[1..], b[1..]);
    }
  }

  /** The keys of a set, in some order. */
  ghost function Enumerate(s: set<string>): (r: seq<string>)
    ensures Distinct(r) && forall k :: k in r <==> k in s
    decreases |s|
  {
    if s == {} then []
    else
      var x :| x in s;
      [x] + Enumerate(s - {x})
  }

  /** The keys of the map in ascending order. */
  ghost function SortedKeys(m: map<string, string>): (ks: seq<string>)
    ensures StrictlySorted(ks) && forall k :: k in ks <==> k in m
  {
    SortSorted(Enumerate(m.Keys));
    Sort(Enumerate(m.Keys))
  }

  /** `k=v` for each key of ks in turn. */
  function Pairs(ks: seq<string>, m: map<string, string>): string
    requires forall i :: 0 <= i < |ks| ==> ks[i] in m
  {
    if ks == [] then "" else Pairs(ks[..|ks| - 1], m) + ks[|ks| - 1] + "=" + m[ks[|ks| - 1]]
  }

  /** The sign string of the parameters: `k=v` over the keys in ascending order. */
  ghost function SignString(m: map<string, string>): string {
    Pairs(SortedKeys(m), m)
  }

  /** Whatever order the keys were gathered in, sorting them gives the sign string's order. */
  lemma SortedKeysOfAnyOrder(ks: seq<string>, m: map<string, string>)
    requires Distinct(ks) && forall k :: k in ks <==> k in m
    ensures Sort(ks) == SortedKeys(m)
  {
    SortSorted(ks);
    SortedUnique(Sort(ks), SortedKeys(m));
  }

  /** The sign string of two parameters lists the smaller key first. */
  lemma SignStringOfTwo()
    ensures SignString(map["b" := "2", "a" := "1"]) == "a=1b=2"
  {
    var m := map["b" := "2", "a" := "1"];
    assert Below("a", "b");
    SortedUnique(["a", "b"], SortedKeys(m));
    assert Pairs(["a"], m) == "a=1";
  }

  /** The key-sorting and concatenation loops of signVerify. */
  method BuildSignString(params: map<string, string>) returns (signStr: string)
    ensures signStr == SignString(params)
  {
    var keys := CollectKeys(params);
    SortedKeysOfAnyOrder(keys, params);
    keys := Sort(keys);
    signStr := JoinPairs(keys, params);
  }

  /** The keys of the map, gathered in its (arbitrary) iteration order. */
  method CollectKeys(m: map<string, string>) returns (keys: seq<string>)
    ensures Distinct(keys) && forall k :: k in keys <==> k in m
  {
    keys := [];
    var remaining := m.Keys;
    while remaining != {}
      invariant remaining <= m.Keys
      invariant Distinct(keys) && forall k :: k in keys <==> k in m.Keys - remaining
      decreases |remaining|
    {
      var k :| k in remaining;
      assert k !in keys;
      keys := keys + [k];
      remaining := remaining - {k};
    }
  }

  /** Appending `k=v` for each key in turn. */
  method JoinPairs(keys: seq<string>, m: map<string, string>) returns (s: string)
    requires forall i :: 0 <= i < |keys| ==> keys[i] in m
    ensures s == Pairs(keys, m)
  {
    s := "";
    var i := 0;
    while i < |keys|
      invariant 0 <= i <= |keys|
      invariant s == Pairs(keys[..i], m)
    {
      assert keys[..i + 1][..i] == keys[..i];
      s := s + keys[i] + "=" + m[keys[i]];
      i := i + 1;
    }
    assert keys[..i] == keys;
  }

  // ---------------------------------------------------------------------------------------------
  // The signature.

  /** The text whose digest must equal the request's sign; None when the RC4 step fails. */
  ghost function SignedText(r: Request, randomKey: string, conf: Config, crypto: Crypto): Option<string> {
    var body := crypto.base64(SignString(r.signParam));
    if r.os == OSAndroid then
      Some(Read(conf.keystore, "key3") + "[" + crypto.md5(randomKey) + "]@" + body)
    else
      match crypto.rc4(crypto.md5(RC4Salt + r.cuId + randomKey), randomKey)
      case None => None
      case Some(c) => Some("[" + crypto.base64(c) + "]@" + body)
  }

  /** What signVerify returns. */
  ghost function SignOutcome(r: Request, randomKey: string, conf: Config, crypto: Crypto): (e: Option<AntiSpamError>)
    ensures e == None <==> SignedText(r, randomKey, conf, crypto).Some? && crypto.md5(SignedText(r, randomKey, conf, crypto).value) == r.sign
    ensures e != None ==> e == Some(TokenRc4) || e == Some(SignErr)
  {
    match SignedText(r, randomKey, conf, crypto)
    case None => Some(TokenRc4)
    case Some(t) => if crypto.md5(t) != r.sign then Some(SignErr) else None
  }

  /** signVerify: build the sign string, wrap it for the device's OS, and compare digests. */
  method SignVerify(r: Request, randomKey: string, conf: Config, crypto: Crypto) returns (err: Option<AntiSpamError>)
    ensures err == SignOutcome(r, randomKey, conf, crypto)
  {
    var signStr := BuildSignString(r.signParam);
    if r.os == OSAndroid {
      var prefix := Read(conf.keystore, "key3");
      signStr := prefix + "[" + crypto.md5(randomKey) + "]@" + crypto.base64(signStr);
    } else {
      var key := crypto.md5(RC4Salt + r.cuId + randomKey);
      var encoded := crypto.rc4(key, randomKey);
      if encoded.None? {
        return Some(TokenRc4);
      }
      var token := crypto.base64(encoded.value);
      signStr := "[" + token + "]@" + crypto.base64(signStr);
    }
    var signHash := crypto.md5(signStr);
    if signHash != r.sign {
      return Some(SignErr);
    }
    err := None;
  }

  // ---------------------------------------------------------------------------------------------
  // The token and the clock.

  /** Go's 64-bit `a - b`, wrapping around. */
  function Sub64(a: int64, b: int64): (r: int64)
    ensures -0x8000_0000_0000_0000 <= a - b < 0x8000_0000_0000_0000 ==> r == a - b
    ensures (r - (a - b)) % 0x1_0000_0000_0000_0000 == 0
  {
    Signed((a - b) % 0x1_0000_0000_0000_0000, 0x1_0000_0000_0000_0000)
  }

  /** The decoded reply of the token server. */
  datatype TokenReply = TokenReply(errNo: int64, errStr: string, randomKey: string, expireTime: int64)

  /**
   * getRandomToken: a failed call or an undecodable reply (None) is to be ignored; a non-zero
   * errNo is a token failure.
   */
  function GetRandomToken(reply: Option<TokenReply>): (r: Result<(string, int64), AntiSpamError>)
    ensures reply.None? <==> r == Failure(Ignore)
    ensures reply.Some? && reply.value.errNo != 0 <==> r == Failure(GetToken)
    ensures r.Success? ==> reply.Some? && r.value == (reply.value.randomKey, reply.value.expireTime)
  {
    match reply
    case None => Failure(Ignore)
    case Some(t) => if t.errNo != 0 then Failure(GetToken) else Success((t.randomKey, t.expireTime))
  }

  /** getRandomKey: a token that expires in less than 10 seconds is refused. */
  function GetRandomKey(reply: Option<TokenReply>, now: int64): (r: Result<string, AntiSpamError>)
    ensures GetRandomToken(reply).Failure? ==> r == Failure(GetRandomToken(reply).error)
    ensures GetRandomToken(reply).Success? ==>
      (r == Failure(TokenNearlyExpired) <==> Sub64(GetRandomToken(reply).value.1, now) < 10) &&
      (r.Success? ==> r.value == GetRandomToken(reply).value.0)
    ensures r.Failure? ==> r.error in {Ignore, GetToken, TokenNearlyExpired}
  {
    match GetRandomToken(reply)
    case Failure(e) => Failure(e)
    case Success((key, expire)) => if Sub64(expire, now) < 10 then Failure(TokenNearlyExpired) else Success(key)
  }

  /** strconv.Atoi on a 64-bit platform: an optionally signed decimal that fits in 64 bits. */
  function Atoi(s: string): (r: Option<int64>)
    ensures r.Some? <==> IsNumber(s) && -0x8000_0000_0000_0000 <= NumberValue(s) < 0x8000_0000_0000_0000
    ensures r.Some? ==> r.value == NumberValue(s)
  {
    if IsNumber(s) && -0x8000_0000_0000_0000 <= NumberValue(s) < 0x8000_0000_0000_0000
    then Some(NumberValue(s) as int64) else None
  }

  /** Atoi reads back every 64-bit number strconv.Itoa writes. */
  lemma AtoiFormatInt(n: int64)
    ensures Atoi(FormatInt(n)) == Some(n)
  {
    NumberFormatInt(n);
  }

  /** timeControl as written: the difference `now - t` wraps around at 64 bits. */
  function TimeControlAsWritten(conf: Config, clientTime: string, now: int64): (r: Option<AntiSpamError>)
    ensures conf.timeSwitch == 0 ==> r == None
    ensures conf.timeSwitch != 0 && Atoi(clientTime).None? ==> r == Some(ClientTimeFormat)
    ensures conf.timeSwitch != 0 && Atoi(clientTime).Some? ==>
      (r == Some(ClientTimeTooOld) <==> Sub64(now, Atoi(clientTime).value) > conf.maxTime) &&
      (r == None || r == Some(ClientTimeTooOld))
  {
    if conf.timeSwitch == 0 then None
    else match Atoi(clientTime)
      case None => Some(ClientTimeFormat)
      case Some(t) => if Sub64(now, t) > conf.maxTime then Some(ClientTimeTooOld) else None
  }

  /** timeControl with the age `now - t` taken exactly: a client time further back than maxTime is too old. */
  function TimeControl(conf: Config, clientTime: string, now: int64): (r: Option<AntiSpamError>)
    ensures conf.timeSwitch == 0 ==> r == None
    ensures conf.timeSwitch != 0 && Atoi(clientTime).None? ==> r == Some(ClientTimeFormat)
    ensures conf.timeSwitch != 0 && Atoi(clientTime).Some? ==>
      (r == Some(ClientTimeTooOld) <==> now - Atoi(clientTime).value > conf.maxTime) &&
      (r == None || r == Some(ClientTimeTooOld))
  {
    if conf.timeSwitch == 0 then None
    else match Atoi(clientTime)
      case None => Some(ClientTimeFormat)
      case Some(t) => if now - t > conf.maxTime then Some(ClientTimeTooOld) else None
  }

  /** Whenever the subtraction does not wrap, the two readings agree. */
  lemma TimeControlAgrees(conf: Config, clientTime: string, now: int64)
    requires Atoi(clientTime).Some? ==> -0x8000_0000_0000_0000 <= now - Atoi(clientTime).value < 0x8000_0000_0000_0000
    ensures TimeControlAsWritten(conf, clientTime, now) == TimeControl(conf, clientTime, now)
  {
  }

  /**
   * A client time that reads as the most negative 64-bit number (as "-9223372036854775808", which
   * AtoiFormatInt shows it does) wraps the age around to a negative number and passes.
   */
  lemma TimeControlWrapsAround(clientTime: string)
    requires Atoi(clientTime) == Some(-0x8000_0000_0000_0000)
    ensures TimeControlAsWritten(Config(1, 300, map[]), clientTime, 1700000000) == None
    ensures TimeControl(Config(1, 300, map[]), clientTime, 1700000000) == Some(ClientTimeTooOld)
  {
    assert Sub64(1700000000, -0x8000_0000_0000_0000) == 1700000000 - 0x8000_0000_0000_0000;
  }

  // ---------------------------------------------------------------------------------------------
  // The whole check.

  /** What AppCheck (and SdkCheck, which is the same) returns. */
  ghost function CheckOutcome(form: Option<Form>, path: string, reply: Option<TokenReply>, tokenNow: int64,
                              clientNow: int64, conf: Config, crypto: Crypto): (e: Option<AntiSpamError>)
    ensures RequestOf(form, path).Failure? ==> e == Some(RequestOf(form, path).error)
    ensures RequestOf(form, path).Success? && reply.None? ==> e == None
    ensures e == None ==>
      (RequestOf(form, path).Success? &&
       (reply.None? ||
        (GetRandomKey(reply, tokenNow).Success? && GetRandomKey(reply, tokenNow).value != "" &&
         SignOutcome(RequestOf(form, path).value, GetRandomKey(reply, tokenNow).value, conf, crypto) == None &&
         TimeControlAsWritten(conf, RequestOf(form, path).value.clientTime, clientNow) == None)))
    ensures RequestOf(form, path).Success? && GetRandomKey(reply, tokenNow) == Success("") ==> e == Some(EmptyToken)
  {
    match RequestOf(form, path)
    case Failure(e) => Some(e)
    case Success(r) =>
      match GetRandomKey(reply, tokenNow)
      case Failure(e) => if e == Ignore then None else Some(e)
      case Success(key) =>
        if key == "" then Some(EmptyToken)
        else match SignOutcome(r, key, conf, crypto)
          case Some(e) => Some(e)
          case None => TimeControlAsWritten(conf, r.clientTime, clientNow)
  }

  /**
   * When the age of the client time does not wrap, a request the whole check lets through with a
   * token reply carries a client time no further back than maxTime.
   */
  lemma PassedRequestIsRecent(form: Option<Form>, path: string, reply: Option<TokenReply>, tokenNow: int64,
                              clientNow: int64, conf: Config, crypto: Crypto)
    requires reply.Some? && conf.timeSwitch != 0
    requires RequestOf(form, path).Success?
    requires var t := Atoi(RequestOf(form, path).value.clientTime);
             t.Some? ==> -0x8000_0000_0000_0000 <= clientNow - t.value < 0x8000_0000_0000_0000
    requires CheckOutcome(form, path, reply, tokenNow, clientNow, conf, crypto) == None
    ensures Atoi(RequestOf(form, path).value.clientTime).Some?
    ensures clientNow - Atoi(RequestOf(form, path).value.clientTime).value <= conf.maxTime
  {
    TimeControlAgrees(conf, RequestOf(form, path).value.clientTime, clientNow);
  }

  /** AppCheck: parameters, token, signature, then client time (its age wrapping at 64 bits, as written); an ignorable token failure lets the request through. */
  method AppCheck(form: Option<Form>, path: string, reply: Option<TokenReply>, tokenNow: int64,
                  clientNow: int64, conf: Config, crypto: Crypto) returns (err: Option<AntiSpamError>)
    ensures err == CheckOutcome(form, path, reply, tokenNow, clientNow, conf, crypto)
  {
    var r := InitRequestParam(form, path);
    if r.Failure? {
      return Some(r.error);
    }
    var randomKey := GetRandomKey(reply, tokenNow);
    if randomKey == Failure(Ignore) {
      return None;
    }
    if randomKey.Failure? {
      return Some(randomKey.error);
    }
    if randomKey.value == "" {
      return Some(EmptyToken);
    }
    err := SignVerify(r.value, randomKey.value, conf, crypto);
    if err.Some? {
      return;
    }
    err := TimeControlAsWritten(conf, r.value.clientTime, clientNow);
  }
}
