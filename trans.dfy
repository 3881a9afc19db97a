/**
 * The request-context helpers of the utils package: where the caller URI of a request is read
 * from, the pressure-test predicates on its comma fields, and the transport headers passed on.
 * A gin context is modelled by the parts these helpers read: the request's header and query
 * values, and the context's own key-value store.
 */
module Trans {
  import opened Wrappers
  import opened Bytes
  import opened Text

  const HttpXBDCallerURI: string := "X_BD_CALLER_URI"
  const HttpXBDCallerURIV2: string := "HTTP_X_BD_CALLER_URI"
  const HttpUrlPressureCallerKey: string := "_caller_uri"
  const ZYBTransportHeader: string := "X-Zyb-Ctx-"
  const NavigatorOCSURI: string := "/qa/test"

  /** A request: its header (which may be nil) and its query values. */
  datatype Request = Request(header: Option<map<string, seq<string>>>, query: map<string, seq<string>>)

  /** A value of the context's store, by the types the helpers ask for. */
  datatype Value = Str(s: string) | StrMap(m: map<string, string>) | OtherValue

  /** A gin context: its request (which may be nil) and its key-value store. */
  datatype Context = Context(request: Option<Request>, keys: map<string, Value>)

  /** The bytes textproto accepts in a header name; a name with any other byte is left as it is. */
  predicate HeaderByte(c: char) {
    ('a' <= c <= 'z') || ('A' <= c <= 'Z') || ('0' <= c <= '9') || c == '!' || c == '#' || c == '$' || c == '%' || c == '&' || c == '\'' ||
    c == '*' || c == '+' || c == '-' || c == '.' || c == '^' || c == '_' || c == '`' || c == '|' || c == '~'
  }

  function UpperChar(c: char): (r: char)
    ensures 'a' <= c <= 'z' ==> r as int == c as int - 32
    ensures !('a' <= c <= 'z') ==> r == c
  {
    if 'a' <= c <= 'z' then (c as int - 32) as char else c
  }

  /** The character at i of the canonical name: upper case at the start and after a '-', lower case elsewhere. */
  function CanonicalAt(s: string, i: nat): char
    requires i < |s|
  {
    if i == 0 || s[i - 1] == '-' then UpperChar(s[i]) else LowerChar(s[i])
  }

  /**
   * textproto.CanonicalMIMEHeaderKey: the first letter and every letter after a '-' upper case,
   * all other letters lower case; a name with a byte outside the token set is not touched.
   */
  function Canonical(s: string): (r: string)
    ensures |r| == |s|
    ensures !(forall i :: 0 <= i < |s| ==> HeaderByte(s[i])) ==> r == s
  {
    if forall i :: 0 <= i < |s| ==> HeaderByte(s[i]) then seq(|s|, i requires 0 <= i < |s| => CanonicalAt(s, i)) else s
  }

  /** Lower-casing a name of token bytes first does not change its canonical form. */
  lemma CanonicalIgnoresCase(s: string)
    requires forall i :: 0 <= i < |s| ==> HeaderByte(s[i])
    ensures Canonical(ToLower(s)) == Canonical(s)
  {
    var l := ToLower(s);
    forall i | 0 <= i < |s| ensures HeaderByte(l[i]) {
      assert l[i] == LowerChar(s[i]);
    }
    var cl := seq(|l|, i requires 0 <= i < |l| => CanonicalAt(l, i));
    var cs := seq(|s|, i requires 0 <= i < |s| => CanonicalAt(s, i));
    assert Canonical(l) == cl;
    assert Canonical(s) == cs;
    forall i | 0 <= i < |s| ensures cl[i] == cs[i] {
      assert l[i] == LowerChar(s[i]);
      CaseOfLower(s[i]);
      if i > 0 {
        assert l[i - 1] == LowerChar(s[i - 1]);
        CaseOfLower(s[i - 1]);
      }
    }
  }

  /** Lower-casing first changes neither case mapping, and keeps '-' apart from every other character. */
  lemma CaseOfLower(c: char)
    ensures UpperChar(LowerChar(c)) == UpperChar(c) && LowerChar(LowerChar(c)) == LowerChar(c)
    ensures LowerChar(c) == '-' <==> c == '-'
  {
  }

  /** The first of a list of values, "" when there is none: Header.Get and Values.Get. */
  function First(values: map<string, seq<string>>, key: string): string {
    if key in values && |values[key]| > 0 then values[key][0] else ""
  }

  /** ctx.GetHeader: the header looked up under the canonical form of the name; a nil header holds nothing. */
  function GetHeader(r: Request, name: string): (v: string)
    ensures r.header.None? ==> v == ""
    ensures v != "" ==> Canonical(name) in r.header.value && v in r.header.value[Canonical(name)]
  {
    if r.header.Some? then First(r.header.value, Canonical(name)) else ""
  }

  /** ctx.GetString: the stored value when it is a string, "" otherwise. */
  function GetString(ctx: Context, key: string): string {
    if key in ctx.keys && ctx.keys[key].Str? then ctx.keys[key].s else ""
  }

  /** The four places GetCallerURI looks, in its order; the request's three are "" without a request. */
  function CallerSources(ctx: Context): (s: seq<string>)
    ensures |s| == 4
  {
    if ctx.request.Some? then
      [GetHeader(ctx.request.value, HttpXBDCallerURI), GetHeader(ctx.request.value, HttpXBDCallerURIV2),
       First(ctx.request.value.query, HttpUrlPressureCallerKey), GetString(ctx, HttpUrlPressureCallerKey)]
    else
      ["", "", "", GetString(ctx, HttpUrlPressureCallerKey)]
  }

  /** GetCallerURI: the two headers, then the query parameter, then the context value; "" for a nil context. */
  function GetCallerURI(ctx: Option<Context>): (uri: string)
    ensures ctx.None? ==> uri == ""
    ensures ctx.Some? && ctx.value.request.None? ==> uri == GetString(ctx.value, HttpUrlPressureCallerKey)
    ensures uri != "" && ctx.Some? && ctx.value.request.Some? ==>
            uri in [GetHeader(ctx.value.request.value, HttpXBDCallerURI), GetHeader(ctx.value.request.value, HttpXBDCallerURIV2),
                    First(ctx.value.request.value.query, HttpUrlPressureCallerKey), GetString(ctx.value, HttpUrlPressureCallerKey)]
  {
    if ctx.None? then ""
    else
      var c := ctx.value;
      var fromRequest :=
        if c.request.None? then ""
        else
          var h1 := GetHeader(c.request.value, HttpXBDCallerURI);
          var h2 := if h1 == "" then GetHeader(c.request.value, HttpXBDCallerURIV2) else h1;
          if h2 == "" then First(c.request.value.query, HttpUrlPressureCallerKey) else h2;
      if fromRequest == "" then GetString(c, HttpUrlPressureCallerKey) else fromRequest
  }

  /**
   * The caller URI is the first non-empty source in the order header, second header, query,
   * context value; it is "" exactly when all four are empty or the context is nil.
   */
  lemma CallerURIPrecedence(ctx: Context)
    ensures var s := CallerSources(ctx); var uri := GetCallerURI(Some(ctx));
      (uri == "" <==> forall i :: 0 <= i < 4 ==> s[i] == "") &&
      (forall i :: 0 <= i < 4 && s[i] != "" && (forall j :: 0 <= j < i ==> s[j] == "") ==> uri == s[i])
  {
    var s := CallerSources(ctx);
    var uri := GetCallerURI(Some(ctx));
    if s[0] != "" {
      assert uri == s[0];
    } else if s[1] != "" {
      assert uri == s[1];
    } else if s[2] != "" {
      assert uri == s[2];
    } else {
      assert uri == s[3];
    }
  }

  /** A nil context has no caller URI. */
  lemma NilContextNoCaller()
    ensures GetCallerURI(None) == ""
  {
  }

  /** GetPressureFlag: the caller URI, and mark 1 when it is non-empty and contains "/qa/test". */
  function GetPressureFlag(ctx: Option<Context>): (r: (string, int))
    ensures r.0 == GetCallerURI(ctx)
    ensures r.1 == 0 || r.1 == 1
    ensures r.1 == 1 <==> Contains(r.0, NavigatorOCSURI)
  {
    var callerURI := GetCallerURI(ctx);
    assert callerURI == "" ==> !Contains(callerURI, NavigatorOCSURI);
    (callerURI, if callerURI != "" && Contains(callerURI, NavigatorOCSURI) then 1 else 0)
  }

  /** The comma fields of the caller URI. */
  function Fields(ctx: Option<Context>): seq<string> {
    Split(GetCallerURI(ctx), ',')
  }

  /** IsNavigatorPressure: at least three fields, the second "/qa/test" and the third "1". */
  predicate IsNavigatorPressure(ctx: Option<Context>): (b: bool)
    ensures b ==> GetCallerURI(ctx) != "" && IsQATestPressure(ctx)
  {
    var arr := Fields(ctx);
    assert |arr| >= 3 && arr[1] == "/qa/test" ==> IsQATestPressure(ctx);
    |arr| >= 3 && arr[1] == "/qa/test" && arr[2] == "1"
  }

  /** IsQATestPressure: at least two fields, the second "/qa/test". */
  predicate IsQATestPressure(ctx: Option<Context>): (b: bool)
    ensures b ==> GetCallerURI(ctx) != "" && ',' in GetCallerURI(ctx)
  {
    var arr := Fields(ctx);
    assert ',' !in GetCallerURI(ctx) ==> |arr| == 1 by {
      if ',' !in GetCallerURI(ctx) {
        SplitWithoutSeparator(GetCallerURI(ctx), ',');
      }
    }
    |arr| >= 2 && arr[1] == NavigatorOCSURI
  }

  /** Full-link pressure traffic is QA test traffic. */
  lemma NavigatorIsQATest(ctx: Option<Context>)
    ensures IsNavigatorPressure(ctx) ==> IsQATestPressure(ctx)
  {
  }

  /** QA test traffic carries the older pressure mark. */
  lemma QATestIsMarked(ctx: Option<Context>)
    ensures IsQATestPressure(ctx) ==> GetPressureFlag(ctx).1 == 1
  {
    if IsQATestPressure(ctx) {
      var uri := GetCallerURI(ctx);
      var arr := Split(uri, ',');
      JoinSplit(uri, ',');
      JoinStartsWithFirst(arr[1..], [',']);
      assert Join(arr, [',']) == arr[0] + [','] + Join(arr[1..], [',']);
      assert OccursAt(uri, NavigatorOCSURI, |arr[0]| + 1);
      ContainsAt(uri, NavigatorOCSURI);
    }
  }

  /** A join begins with its first part. */
  lemma JoinStartsWithFirst<T>(parts: seq<seq<T>>, sep: seq<T>)
    requires |parts| >= 1
    ensures parts[0] <= Join(parts, sep)
  {
  }

  /** A caller URI whose fields are given: its fields are read back as they were joined. */
  lemma FieldsOfJoin(ctx: Option<Context>, fields: seq<string>)
    requires |fields| >= 1 && forall i :: 0 <= i < |fields| ==> ',' !in fields[i]
    requires GetCallerURI(ctx) == Join(fields, [','])
    ensures Fields(ctx) == fields
  {
    SplitJoin(fields, ',');
  }

  /** A concrete full-link pressure URI. */
  lemma NavigatorExample(ctx: Option<Context>)
    requires GetCallerURI(ctx) == "svc,/qa/test,1"
    ensures IsNavigatorPressure(ctx)
  {
    FieldsOfJoin(ctx, ["svc", "/qa/test", "1"]);
    assert Join(["svc", "/qa/test", "1"], [',']) == "svc,/qa/test,1";
  }

  /**
   * The value strconv.Atoi returns, its error dropped: 0 for anything but an optional sign and
   * decimal digits; out of range, the int64 nearest to the number.
   */
  function AtoiValue(s: string): (r: int64)
    ensures !IsNumber(s) ==> r == 0
    ensures IsNumber(s) && -Two63 <= NumberValue(s) < Two63 ==> r == NumberValue(s)
  {
    if !IsNumber(s) then 0
    else
      var v := NumberValue(s);
      if v < -Two63 then -Two63 else if v >= Two63 then Two63 - 1 else v
  }

  const Two63: int := 0x8000_0000_0000_0000

  /** Atoi reads back what FormatInt writes, for every int64. */
  lemma AtoiFormatInt(n: int64)
    ensures AtoiValue(FormatInt(n)) == n
  {
    NumberFormatInt(n);
  }

  /** GetPressureTime: field 6 read as a number when there are at least seven fields, 0 otherwise. */
  function GetPressureTime(ctx: Option<Context>): (t: int64)
    ensures |Fields(ctx)| < 7 ==> t == 0
    ensures |Fields(ctx)| >= 7 && !IsNumber(Fields(ctx)[6]) ==> t == 0
  {
    var arr := Fields(ctx);
    if |arr| >= 7 then AtoiValue(arr[6]) else 0
  }

  /** The pressure time written as field 6 is the one read. */
  lemma PressureTimeReads(ctx: Option<Context>, fields: seq<string>, t: int64)
    requires |fields| >= 7 && forall i :: 0 <= i < |fields| ==> ',' !in fields[i]
    requires fields[6] == FormatInt(t)
    requires GetCallerURI(ctx) == Join(fields, [','])
    ensures GetPressureTime(ctx) == t
  {
    FieldsOfJoin(ctx, fields);
    AtoiFormatInt(t);
  }

  /** A header name passed on: longer than ten characters and starting with "X-Zyb-Ctx-". */
  predicate IsTransportKey(k: string) {
    |k| > 10 && k[0..10] == ZYBTransportHeader
  }

  /** The transport headers of a header: each transport name with a value, mapped to its first value. */
  function TransportOf(h: map<string, seq<string>>): (t: map<string, string>)
    ensures forall k :: k in t <==> k in h && IsTransportKey(k) && |h[k]| > 0
    ensures forall k :: k in t ==> t[k] == h[k][0]
  {
    map k | k in h && IsTransportKey(k) && |h[k]| > 0 :: h[k][0]
  }

  /** The map ctx.GetStringMapString returns: the stored value when it is a string map, nil otherwise. */
  function GetStringMapString(ctx: Context, key: string): Option<map<string, string>> {
    if key in ctx.keys && ctx.keys[key].StrMap? then Some(ctx.keys[key].m) else None
  }

  /**
   * GetTransportHeader: nil for a nil context; with a request and a header, the transport
   * headers collected in a loop over the header; otherwise the map stored in the context.
   */
  method GetTransportHeader(ctx: Option<Context>) returns (transKey: Option<map<string, string>>)
    ensures ctx.None? ==> transKey.None?
    ensures ctx.Some? && ctx.value.request.Some? && ctx.value.request.value.header.Some? ==>
      transKey == Some(TransportOf(ctx.value.request.value.header.value))
    ensures ctx.Some? && (ctx.value.request.None? || ctx.value.request.value.header.None?) ==>
      transKey == GetStringMapString(ctx.value, ZYBTransportHeader)
  {
    if ctx.None? {
      return None;
    }
    var c := ctx.value;
    if c.request.Some? && c.request.value.header.Some? {
      var h := c.request.value.header.value;
      var m: map<string, string> := map[];
      var remaining := h.Keys;
      while remaining != {}
        invariant remaining <= h.Keys
        invariant m == TransportOf(h - remaining)
        decreases remaining
      {
        var k :| k in remaining;
        ghost var seen := h - remaining;
        if IsTransportKey(k) && |h[k]| > 0 {
          m := m[k := h[k][0]];
        }
        remaining := remaining - {k};
        assert h - remaining == seen[k := h[k]];
      }
      assert h - remaining == h;
      return Some(m);
    }
    return GetStringMapString(c, ZYBTransportHeader);
  }

  /** SetTransportHeader: the header map stored under "X-Zyb-Ctx-". */
  function SetTransportHeader(ctx: Context, header: map<string, string>): (c: Context)
    ensures c.request == ctx.request
  {
    ctx.(keys := ctx.keys[ZYBTransportHeader := StrMap(header)])
  }

  /** Without a request header, the transport headers are the map last stored. */
  lemma TransportRoundTrip(ctx: Context, header: map<string, string>)
    requires ctx.request.None? || ctx.request.value.header.None?
    ensures GetStringMapString(SetTransportHeader(ctx, header), ZYBTransportHeader) == Some(header)
  {
  }
}
