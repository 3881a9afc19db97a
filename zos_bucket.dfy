/**
 * The bucket operations of the object-storage client: the choice between a single and a multipart
 * upload, the splitting of content into parts, object-key construction, the batch URL key list
 * and the empty-name guards. Each HTTP call is an input: it is named by the proxy method, the
 * object key, the extra query text and the body bytes it carries.
 */
module ZosBucket {
  import opened Wrappers
  import opened Bytes
  import opened Text
  import Z = Zos
  import T = Trans

  const MethodUpload: string := "upload"
  const MethodDownload: string := "download"
  const MethodURL: string := "url"

  const HeaderUploadID: string := "X-ZYB-UploadID"
  const HeaderEtag: string := "X-ZYB-Etag"

  /** The lifetime of the URL a multipart upload asks for: 30 minutes, in seconds. */
  const MultipartURLSeconds: int := 1800

  /** One call to the storage proxy: method, object key, the query text after them, and the body. */
  datatype Call = Call(methodName: string, target: string, extra: string, body: seq<byte>)

  /** The storage proxy as the bucket operations see it. */
  type Proxy = Call -> Z.Response

  /**
   * Header.Get: the response header stored under the canonical form of the name, "" when it is
   * absent. The transport stores response headers under their canonical names.
   */
  function Header(res: Z.Response, name: string): string {
    var key := T.Canonical(name);
    if key in res.result.header then res.result.header[key] else ""
  }

  /** Header.Get ignores the case of the name it is given. */
  lemma HeaderIgnoresCase(res: Z.Response, name: string)
    requires forall i :: 0 <= i < |name| ==> T.HeaderByte(name[i])
    ensures Header(res, ToLower(name)) == Header(res, name)
  {
    T.CanonicalIgnoresCase(name);
  }

  /** How content goes up: in one request, or in parts. */
  datatype UploadMode = Simple | Multipart

  /** Content no longer than the bucket's upload chunk goes up in one request. */
  function Mode(b: Z.Bucket, size: nat): (m: UploadMode)
    ensures m == Simple <==> size <= b.conf.uploadChunk
  {
    if size <= b.conf.uploadChunk then Simple else Multipart
  }

  /** The number of parts: one more than the number of whole blocks. */
  function PartCount(total: nat, block: nat): (n: nat)
    requires block > 0
    ensures n >= 1
  {
    total / block + 1
  }

  /** Part i (from 1): the content from (i - 1) blocks in to i blocks in, cut at the end of the content. */
  function Part(content: seq<byte>, block: nat, i: nat): (p: seq<byte>)
    requires block > 0 && i >= 1
    ensures |p| <= block
  {
    content[Min((i - 1) * block, |content|)..Min(i * block, |content|)]
  }

  /** The parts multiUpload sends, in order. */
  function Parts(content: seq<byte>, block: nat): (ps: seq<seq<byte>>)
    requires block > 0
    ensures |ps| == PartCount(|content|, block)
    ensures forall k :: 0 <= k < |ps| ==> ps[k] == Part(content, block, k + 1)
  {
    seq(PartCount(|content|, block), k requires 0 <= k => Part(content, block, k + 1))
  }

  /** The parts laid end to end. */
  function Concat(ps: seq<seq<byte>>): seq<byte>
    decreases |ps|
  {
    if ps == [] then [] else Concat(ps[..|ps| - 1]) + ps[|ps| - 1]
  }

  /** The first k parts laid end to end are the content's first k blocks. */
  lemma {:induction false} PartsPrefix(content: seq<byte>, block: nat, k: nat)
    requires block > 0 && k <= PartCount(|content|, block)
    ensures Concat(Parts(content, block)[..k]) == content[..Min(k * block, |content|)]
    decreases k
  {
    var ps := Parts(content, block);
    if k > 0 {
      assert ps[..k][..k - 1] == ps[..k - 1];
      PartsPrefix(content, block, k - 1);
      var lo, hi := Min((k - 1) * block, |content|), Min(k * block, |content|);
      PartBounds(block, k, |content|);
      assert Concat(ps[..k]) == content[..lo] + ps[k - 1];
      assert ps[k - 1] == content[lo..hi];
      SliceJoin(content, lo, hi);
    }
  }

  lemma PartBounds(block: nat, k: nat, n: nat)
    requires k >= 1
    ensures 0 <= Min((k - 1) * block, n) <= Min(k * block, n) <= n
  {
    assert (k - 1) * block + block == k * block;
  }

  lemma SliceJoin(s: seq<byte>, lo: nat, hi: nat)
    requires lo <= hi <= |s|
    ensures s[..lo] + s[lo..hi] == s[..hi]
  {
  }

  /** The parts concatenate back to the content. */
  lemma PartsCover(content: seq<byte>, block: nat)
    requires block > 0
    ensures Concat(Parts(content, block)) == content
  {
    var n := PartCount(|content|, block);
    PartsPrefix(content, block, n);
    assert Parts(content, block)[..n] == Parts(content, block);
    DivBound(|content|, block);
  }

  lemma DivBound(total: nat, block: nat)
    requires block > 0
    ensures (total / block + 1) * block > total
    ensures (total / block) * block <= total
    ensures (total / block) * block + total % block == total
  {
  }

  /**
   * Every part but the last is a full block; the last holds the remainder, so content that is an
   * exact multiple of the block ends with an empty part.
   */
  lemma PartSizes(content: seq<byte>, block: nat)
    requires block > 0
    ensures var ps := Parts(content, block);
            (forall k :: 0 <= k < |ps| - 1 ==> |ps[k]| == block) &&
            |ps[|ps| - 1]| == |content| % block &&
            (|content| % block == 0 ==> ps[|ps| - 1] == [])
  {
    var ps := Parts(content, block);
    var q := |content| / block;
    DivBound(|content|, block);
    forall k | 0 <= k < |ps| - 1 ensures |ps[k]| == block {
      FullPart(content, block, k + 1);
    }
    assert |ps| - 1 == q;
    assert (q + 1) * block == q * block + block;
  }

  /** A part that ends within the content is a whole block. */
  lemma FullPart(content: seq<byte>, block: nat, i: nat)
    requires block > 0 && 1 <= i <= |content| / block
    ensures |Part(content, block, i)| == block
  {
    DivBound(|content|, block);
    MulMono(i, |content| / block, block);
    assert i * block == (i - 1) * block + block;
  }

  /** Content over the upload chunk of a bucket goes up in at least two parts. */
  lemma MultipartHasTwoParts(b: Z.Bucket, content: seq<byte>)
    requires b.conf.uploadChunk > 0 && Mode(b, |content|) == Multipart
    ensures PartCount(|content|, b.conf.uploadChunk) >= 2
  {
  }

  /** One part record: its number and the etag the proxy returned for it. */
  datatype PartEtag = PartEtag(partNumber: nat, etag: string)

  /** The call uploading part i under the upload id learnt so far. */
  function PartCall(target: string, i: nat, uploadID: string, buf: seq<byte>): Call {
    Call(MethodUpload, target, "&partNumber=" + Decimal(i) + "&uploadID=" + uploadID, buf)
  }

  /** The call completing the upload with the JSON list of part records. */
  function EndCall(target: string, uploadID: string, body: seq<byte>): Call {
    Call(MethodUpload, target, "&chunkFlag=end&uploadID=" + uploadID, body)
  }

  /** Records in front of a later result; a failure stays a failure. */
  function Prepend(es: seq<PartEtag>, r: Result<(seq<PartEtag>, string), string>): Result<(seq<PartEtag>, string), string> {
    if r.Failure? then r else Success((es + r.value.0, r.value.1))
  }

  /**
   * Uploading the parts from index k on: each call carries the upload id the previous one
   * returned; the first failing part ends it with that part's error.
   */
  function UploadFrom(ps: seq<seq<byte>>, k: nat, uploadID: string, target: string, post: Proxy)
    : (r: Result<(seq<PartEtag>, string), string>)
    ensures r.Success? ==> |r.value.0| == |ps| - k || k > |ps|
    decreases |ps| - k
  {
    if k >= |ps| then Success(([], uploadID))
    else
      var res := post(PartCall(target, k + 1, uploadID, ps[k]));
      var e := Z.CheckError(res);
      if e.Some? then Failure(e.value)
      else Prepend([PartEtag(k + 1, Header(res, HeaderEtag))],
                   UploadFrom(ps, k + 1, Header(res, HeaderUploadID), target, post))
  }

  /** The records of a successful upload are numbered 1, 2, ... in order. */
  lemma {:induction false} RecordsNumbered(ps: seq<seq<byte>>, k: nat, uploadID: string, target: string, post: Proxy)
    requires k <= |ps| && UploadFrom(ps, k, uploadID, target, post).Success?
    ensures var es := UploadFrom(ps, k, uploadID, target, post).value.0;
            |es| == |ps| - k && forall j :: 0 <= j < |es| ==> es[j].partNumber == k + j + 1
    decreases |ps| - k
  {
    if k < |ps| {
      var res := post(PartCall(target, k + 1, uploadID, ps[k]));
      RecordsNumbered(ps, k + 1, Header(res, HeaderUploadID), target, post);
    }
  }

  /** The object key GetUrlByFileName asks for: the name under the bucket's directory. */
  function ObjectKey(directory: string, name: string): (key: string)
    ensures directory == "" ==> key == name
    ensures directory != "" ==> key == directory + "/" + name
  {
    if directory != "" then directory + "/" + name else name
  }

  /** GetUrlByFileName: an empty name is refused; otherwise the proxy's reply body is the URL. */
  function GetUrlByFileName(b: Z.Bucket, name: string, seconds: int, post: Proxy): (r: Result<string, string>)
    ensures name == "" ==> r == Failure("invalid name")
    ensures name != "" ==>
      var res := post(Call(MethodURL, ObjectKey(b.conf.directory, name), "", StringBytes("expire=" + FormatInt(seconds))));
      r == (if Z.CheckError(res).Some? then Failure(Z.CheckError(res).value) else Success(BytesString(res.result.response)))
  {
    if name == "" then Failure("invalid name")
    else
      var res := post(Call(MethodURL, ObjectKey(b.conf.directory, name), "", StringBytes("expire=" + FormatInt(seconds))));
      var e := Z.CheckError(res);
      if e.Some? then Failure(e.value) else Success(BytesString(res.result.response))
  }

  /** multiUpload as written: the parts, the completing call, then the URL of the object under the directory. */
  function MultiUploadOf(b: Z.Bucket, target: string, content: seq<byte>, post: Proxy,
                         encodeParts: seq<PartEtag> -> seq<byte>): Result<string, string>
    requires b.conf.uploadChunk > 0
  {
    var up := UploadFrom(Parts(content, b.conf.uploadChunk), 0, "", target, post);
    if up.Failure? then Failure(up.error)
    else
      var fin := post(EndCall(target, up.value.1, encodeParts(up.value.0)));
      var e := Z.CheckError(fin);
      if e.Some? then Failure(e.value)
      else GetUrlByFileName(b, target, MultipartURLSeconds, post)
  }

  /** multiUpload: the parts loop, then the completing call and the URL lookup. */
  method MultiUpload(b: Z.Bucket, target: string, content: seq<byte>, post: Proxy,
                     encodeParts: seq<PartEtag> -> seq<byte>) returns (r: Result<string, string>)
    requires b.conf.uploadChunk > 0
    ensures r == MultiUploadOf(b, target, content, post, encodeParts)
  {
    var up := UploadParts(target, content, b.conf.uploadChunk, post);
    if up.Failure? {
      return Failure(up.error);
    }
    var (opts, uploadID) := up.value;
    var fin := post(EndCall(target, uploadID, encodeParts(opts)));
    var e := Z.CheckError(fin);
    if e.Some? {
      return Failure(e.value);
    }
    r := GetUrlByFileName(b, target, MultipartURLSeconds, post);
  }

  /** The parts loop of multiUpload: content consumed a block at a time, one record per part. */
  method UploadParts(target: string, content: seq<byte>, blockSize: nat, post: Proxy)
    returns (up: Result<(seq<PartEtag>, string), string>)
    requires blockSize > 0
    ensures up == UploadFrom(Parts(content, blockSize), 0, "", target, post)
  {
    var totalSize := |content|;
    var parts := totalSize / blockSize + 1;
    ghost var ps := Parts(content, blockSize);
    var opts: seq<PartEtag> := [];
    var uploadID := "";
    var rest := content;
    var i := 1;
    ghost var off := 0;
    PrependNothing(UploadFrom(ps, 0, "", target, post));
    while i <= parts
      invariant 1 <= i <= parts + 1
      invariant off == Min((i - 1) * blockSize, totalSize) && rest == content[off..]
      invariant UploadFrom(ps, 0, "", target, post) == Prepend(opts, UploadFrom(ps, i - 1, uploadID, target, post))
    {
      var pos := blockSize;
      if |rest| < blockSize {
        pos := |rest|;
      }
      PartStep(content, blockSize, i, off, pos);
      var buf := rest[..pos];
      rest := rest[pos..];
      off := off + pos;
      assert buf == ps[i - 1];
      var res := post(PartCall(target, i, uploadID, buf));
      var e := Z.CheckError(res);
      if e.Some? {
        UploadStep(ps, i - 1, uploadID, target, post);
        return Failure(e.value);
      }
      var etag := Header(res, HeaderEtag);
      var nextID := Header(res, HeaderUploadID);
      PartRecorded(ps, i, opts, uploadID, target, post, res);
      uploadID := nextID;
      opts := opts + [PartEtag(i, etag)];
      i := i + 1;
    }
    assert opts + [] == opts;
    up := Success((opts, uploadID));
  }

  /** One block taken off the front of what is left is the next part, and leaves the rest after it. */
  lemma PartStep(content: seq<byte>, block: nat, i: nat, off: nat, pos: nat)
    requires block > 0 && i >= 1
    requires off == Min((i - 1) * block, |content|)
    requires pos == Min(block, |content| - off)
    ensures off + pos == Min(i * block, |content|)
    ensures content[off..][..pos] == Part(content, block, i)
    ensures content[off..][pos..] == content[off + pos..]
  {
    assert (i - 1) * block + block == i * block;
  }

  /** Uploading from part k: the call for part k + 1, then the rest under the upload id it returned. */
  lemma UploadStep(ps: seq<seq<byte>>, k: nat, uploadID: string, target: string, post: Proxy)
    requires k < |ps|
    ensures var res := post(PartCall(target, k + 1, uploadID, ps[k]));
            UploadFrom(ps, k, uploadID, target, post) ==
              if Z.CheckError(res).Some? then Failure(Z.CheckError(res).value)
              else Prepend([PartEtag(k + 1, Header(res, HeaderEtag))],
                           UploadFrom(ps, k + 1, Header(res, HeaderUploadID), target, post))
  {
  }

  /** A part that went up: its record joins the others and its upload id is carried to the next part. */
  lemma PartRecorded(ps: seq<seq<byte>>, i: nat, opts: seq<PartEtag>, uploadID: string, target: string,
                     post: Proxy, res: Z.Response)
    requires 1 <= i <= |ps| && res == post(PartCall(target, i, uploadID, ps[i - 1])) && Z.CheckError(res).None?
    requires UploadFrom(ps, 0, "", target, post) == Prepend(opts, UploadFrom(ps, i - 1, uploadID, target, post))
    ensures UploadFrom(ps, 0, "", target, post)
         == Prepend(opts + [PartEtag(i, Header(res, HeaderEtag))], UploadFrom(ps, i, Header(res, HeaderUploadID), target, post))
  {
    UploadStep(ps, i - 1, uploadID, target, post);
    PrependTwice(opts, [PartEtag(i, Header(res, HeaderEtag))], UploadFrom(ps, i, Header(res, HeaderUploadID), target, post));
  }

  lemma PrependNothing(r: Result<(seq<PartEtag>, string), string>)
    ensures Prepend([], r) == r
  {
    if r.Success? {
      assert [] + r.value.0 == r.value.0;
    }
  }

  lemma PrependTwice(a: seq<PartEtag>, b: seq<PartEtag>, r: Result<(seq<PartEtag>, string), string>)
    ensures Prepend(a, Prepend(b, r)) == Prepend(a + b, r)
  {
    if r.Success? {
      assert a + (b + r.value.0) == (a + b) + r.value.0;
    }
  }

  /**
   * As written, a multipart upload into a bucket with a directory asks for the URL of the object
   * under the directory twice: the key already carries the directory, and GetUrlByFileName adds it again.
   */
  lemma MultipartURLDoublesDirectory(directory: string, name: string)
    requires directory != ""
    ensures ObjectKey(directory, ObjectKey(directory, name)) == directory + "/" + directory + "/" + name
    ensures ObjectKey(directory, ObjectKey(directory, name)) != ObjectKey(directory, name)
  {
    assert |ObjectKey(directory, ObjectKey(directory, name))| > |ObjectKey(directory, name)|;
  }

  /** The URL of an object given by its full key. */
  function UrlOfKey(key: string, seconds: int, post: Proxy): (r: Result<string, string>)
    ensures var res := post(Call(MethodURL, key, "", StringBytes("expire=" + FormatInt(seconds))));
            r.Success? <==> Z.CheckError(res).None?
  {
    var res := post(Call(MethodURL, key, "", StringBytes("expire=" + FormatInt(seconds))));
    var e := Z.CheckError(res);
    if e.Some? then Failure(e.value) else Success(BytesString(res.result.response))
  }

  /** multiUpload with the URL asked for the object just uploaded. */
  function MultiUploadChecked(b: Z.Bucket, target: string, content: seq<byte>, post: Proxy,
                              encodeParts: seq<PartEtag> -> seq<byte>): (r: Result<string, string>)
    requires b.conf.uploadChunk > 0
    ensures b.conf.directory == "" && target != "" ==> r == MultiUploadOf(b, target, content, post, encodeParts)
  {
    var up := UploadFrom(Parts(content, b.conf.uploadChunk), 0, "", target, post);
    if up.Failure? then Failure(up.error)
    else
      var fin := post(EndCall(target, up.value.1, encodeParts(up.value.0)));
      var e := Z.CheckError(fin);
      if e.Some? then Failure(e.value)
      else UrlOfKey(target, MultipartURLSeconds, post)
  }

  /** The corrected upload's URL request names the object the parts were uploaded to. */
  lemma CheckedURLNamesObject(b: Z.Bucket, target: string, content: seq<byte>, post: Proxy,
                              encodeParts: seq<PartEtag> -> seq<byte>)
    requires b.conf.uploadChunk > 0
    requires UploadFrom(Parts(content, b.conf.uploadChunk), 0, "", target, post).Success?
    ensures var up := UploadFrom(Parts(content, b.conf.uploadChunk), 0, "", target, post).value;
            Z.CheckError(post(EndCall(target, up.1, encodeParts(up.0)))).None? ==>
              MultiUploadChecked(b, target, content, post, encodeParts) == UrlOfKey(target, MultipartURLSeconds, post)
  {
  }

  /**
   * The finding on multiUpload itself: with a directory set, once the parts and the completing call
   * for the object directory/name succeed, multiUpload as written asks for the URL of
   * directory/directory/name, while the corrected upload asks for the object's own key.
   */
  lemma MultiUploadAsksDoubledKey(b: Z.Bucket, name: string, content: seq<byte>, post: Proxy,
                                  encodeParts: seq<PartEtag> -> seq<byte>)
    requires b.conf.uploadChunk > 0 && b.conf.directory != ""
    requires var target := ObjectKey(b.conf.directory, name);
             var up := UploadFrom(Parts(content, b.conf.uploadChunk), 0, "", target, post);
             up.Success? && Z.CheckError(post(EndCall(target, up.value.1, encodeParts(up.value.0)))).None?
    ensures var target := ObjectKey(b.conf.directory, name);
            target == b.conf.directory + "/" + name &&
            MultiUploadOf(b, target, content, post, encodeParts) ==
              UrlOfKey(b.conf.directory + "/" + b.conf.directory + "/" + name, MultipartURLSeconds, post) &&
            MultiUploadChecked(b, target, content, post, encodeParts) == UrlOfKey(target, MultipartURLSeconds, post) &&
            b.conf.directory + "/" + b.conf.directory + "/" + name != target
  {
    MultipartURLDoublesDirectory(b.conf.directory, name);
  }

  /** simpleUpload: one call with the whole content; the reply body is the URL. */
  function SimpleUpload(target: string, content: seq<byte>, post: Proxy): (r: Result<string, string>)
    ensures r.Success? <==> Z.CheckError(post(Call(MethodUpload, target, "", content))).None?
  {
    var res := post(Call(MethodUpload, target, "", content));
    var e := Z.CheckError(res);
    if e.Some? then Failure(e.value) else Success(BytesString(res.result.response))
  }

  /**
   * genObjectKey4FileContentUpload: empty content is refused; without a type or version the type
   * is jpg; without a name the key is the file prefix and the content's MD5; then the extension;
   * then the directory.
   */
  function GenObjectKey(b: Z.Bucket, fileName: string, fileType: string, content: string, version: string,
                        md5: string -> string): (r: Result<string, string>)
    ensures content == "" <==> r == Failure("content is empty")
    ensures r.Success? ==>
      var ext := if fileType == "" && version == "" then "jpg" else fileType;
      var base := if fileName == "" then b.conf.filePrefix + md5(content) else fileName;
      r.value == ObjectKey(b.conf.directory, if ext != "" then base + "." + ext else base)
  {
    if content == "" then Failure("content is empty")
    else
      var ext := if fileType == "" && version == "" then "jpg" else fileType;
      var key := if fileName == "" then b.conf.filePrefix + md5(content) else fileName;
      var key := if ext != "" then key + "." + ext else key;
      Success(if b.conf.directory != "" then b.conf.directory + "/" + key else key)
  }

  /** UploadFileContent passes no version, so every key it builds ends in an extension, jpg by default. */
  lemma ContentKeysHaveExtension(b: Z.Bucket, fileName: string, fileType: string, content: string, md5: string -> string)
    requires content != ""
    ensures var ext := if fileType == "" then "jpg" else fileType;
            var key := GenObjectKey(b, fileName, fileType, content, "", md5).value;
            |key| > |ext| && key[|key| - |ext| - 1..] == "." + ext
  {
    var ext := if fileType == "" then "jpg" else fileType;
    var base := if fileName == "" then b.conf.filePrefix + md5(content) else fileName;
    var key := GenObjectKey(b, fileName, fileType, content, "", md5).value;
    assert key == ObjectKey(b.conf.directory, base + "." + ext);
    if b.conf.directory != "" {
      assert key == (b.conf.directory + "/" + base) + ("." + ext);
    } else {
      assert key == base + ("." + ext);
    }
  }

  /**
   * UploadFileContent: the key, then a single or a multipart upload by the content's length. The
   * multipart branch is multiUpload as written, so its URL is asked for the key under the
   * directory a second time.
   */
  function UploadFileContent(b: Z.Bucket, content: string, fileName: string, fileType: string,
                             md5: string -> string, post: Proxy, encodeParts: seq<PartEtag> -> seq<byte>)
    : (r: Result<string, string>)
    requires b.conf.uploadChunk > 0
    ensures content == "" ==> r == Failure("content is empty")
    ensures content != "" && Mode(b, |content|) == Simple ==>
      r == SimpleUpload(GenObjectKey(b, fileName, fileType, content, "", md5).value, StringBytes(content), post)
    ensures content != "" && Mode(b, |content|) == Multipart ==>
      r == MultiUploadOf(b, GenObjectKey(b, fileName, fileType, content, "", md5).value, StringBytes(content), post, encodeParts)
  {
    var key := GenObjectKey(b, fileName, fileType, content, "", md5);
    if key.Failure? then Failure(key.error)
    else if |content| <= b.conf.uploadChunk then SimpleUpload(key.value, StringBytes(content), post)
    else MultiUploadOf(b, key.value, StringBytes(content), post, encodeParts)
  }

  /** UploadFileContent with the corrected multipart upload, whose URL names the object just uploaded. */
  function UploadFileContentChecked(b: Z.Bucket, content: string, fileName: string, fileType: string,
                                    md5: string -> string, post: Proxy, encodeParts: seq<PartEtag> -> seq<byte>)
    : (r: Result<string, string>)
    requires b.conf.uploadChunk > 0
    ensures content == "" ==> r == Failure("content is empty")
    ensures content != "" && Mode(b, |content|) == Simple ==>
      r == UploadFileContent(b, content, fileName, fileType, md5, post, encodeParts)
    ensures content != "" && Mode(b, |content|) == Multipart ==>
      r == MultiUploadChecked(b, GenObjectKey(b, fileName, fileType, content, "", md5).value, StringBytes(content), post, encodeParts)
  {
    var key := GenObjectKey(b, fileName, fileType, content, "", md5);
    if key.Failure? then Failure(key.error)
    else if |content| <= b.conf.uploadChunk then SimpleUpload(key.value, StringBytes(content), post)
    else MultiUploadChecked(b, key.value, StringBytes(content), post, encodeParts)
  }

  /** Without a directory the corrected upload and the upload as written give the same answer. */
  lemma {:induction false} CheckedContentAgreesWithoutDirectory(b: Z.Bucket, content: string, fileName: string, fileType: string,
                                                               md5: string -> string, post: Proxy,
                                                               encodeParts: seq<PartEtag> -> seq<byte>)
    requires b.conf.uploadChunk > 0 && b.conf.directory == ""
    ensures UploadFileContentChecked(b, content, fileName, fileType, md5, post, encodeParts)
         == UploadFileContent(b, content, fileName, fileType, md5, post, encodeParts)
  {
    if content != "" && Mode(b, |content|) == Multipart {
      ContentKeysHaveExtension(b, fileName, fileType, content, md5);
    }
  }

  /** UploadContent: a declared size above 5 GiB is refused before anything is read. */
  function UploadContent(fileSize: int, read: Result<seq<byte>, string>, objectKey: string, post: Proxy)
    : (r: Result<string, string>)
    ensures fileSize > Z.MaxUnSliceFileSize ==> r == Failure("upload file too large")
    ensures fileSize <= Z.MaxUnSliceFileSize && read.Failure? ==> r == Failure(read.error)
    ensures fileSize <= Z.MaxUnSliceFileSize && read.Success? ==> r == SimpleUpload(objectKey, read.value, post)
  {
    if fileSize > Z.MaxUnSliceFileSize then Failure("upload file too large")
    else if read.Failure? then Failure(read.error)
    else SimpleUpload(objectKey, read.value, post)
  }

  /** The guard trusts the declared size: content of any length declared as 0 goes up in one request. */
  lemma SizeGuardTrustsCaller(content: seq<byte>, objectKey: string, post: Proxy)
    ensures UploadContent(0, Success(content), objectKey, post) == SimpleUpload(objectKey, content, post)
  {
  }

  /** DownloadContent: an empty name is refused; otherwise the reply body is the content. */
  function DownloadContent(b: Z.Bucket, srcFileName: string, post: Proxy): (r: Result<seq<byte>, string>)
    ensures srcFileName == "" ==> r == Failure("fileName is empty")
    ensures srcFileName != "" ==>
      var res := post(Call(MethodDownload, ObjectKey(b.conf.directory, srcFileName), "", []));
      r == (if Z.CheckError(res).Some? then Failure(Z.CheckError(res).value) else Success(res.result.response))
  {
    if srcFileName == "" then Failure("fileName is empty")
    else
      var res := post(Call(MethodDownload, ObjectKey(b.conf.directory, srcFileName), "", []));
      var e := Z.CheckError(res);
      if e.Some? then Failure(e.value) else Success(res.result.response)
  }

  /** Download2Local: an empty name is refused; otherwise the downloaded content is written to the file. */
  function Download2Local(b: Z.Bucket, srcFileName: string, dstFileName: string, post: Proxy,
                          write: (string, seq<byte>) -> Option<string>): (err: Option<string>)
    ensures srcFileName == "" ==> err == Some("fileName is empty")
    ensures DownloadContent(b, srcFileName, post).Failure? ==> err == Some(DownloadContent(b, srcFileName, post).error)
    ensures DownloadContent(b, srcFileName, post).Success? ==>
      err == write(dstFileName, DownloadContent(b, srcFileName, post).value)
  {
    var content := DownloadContent(b, srcFileName, post);
    if content.Failure? then Some(content.error) else write(dstFileName, content.value)
  }

  /** The keys GetUrlByFileNames asks for: the non-empty names, each under the directory, in order. */
  function KeyList(directory: string, names: seq<string>): (keys: seq<string>)
    ensures |keys| <= |names|
    ensures forall k :: 0 <= k < |keys| ==> keys[k] != ""
    decreases |names|
  {
    if names == [] then []
    else
      var name := names[|names| - 1];
      KeyList(directory, names[..|names| - 1]) + (if name == "" then [] else [ObjectKey(directory, name)])
  }

  /** GetUrlByFileNames' key loop: the keys joined with commas. */
  method JoinObjectKeys(directory: string, names: seq<string>) returns (objectKeys: string)
    ensures objectKeys == Join(KeyList(directory, names), ",")
  {
    objectKeys := "";
    var i := 0;
    while i < |names|
      invariant 0 <= i <= |names|
      invariant objectKeys == Join(KeyList(directory, names[..i]), ",")
      invariant objectKeys == "" <==> KeyList(directory, names[..i]) == []
    {
      var name := names[i];
      KeyListStep(directory, names, i);
      if name != "" {
        var objectKey := name;
        if directory != "" {
          objectKey := directory + "/" + name;
        }
        if objectKeys != "" {
          objectKeys := objectKeys + "," + objectKey;
        } else {
          objectKeys := objectKeys + objectKey;
        }
      }
      i := i + 1;
    }
    assert names[..i] == names;
  }

  /** One more name: its key, when it has one, joins the list after a comma, or alone when the list was empty. */
  lemma KeyListStep(directory: string, names: seq<string>, i: nat)
    requires i < |names|
    ensures var keys := KeyList(directory, names[..i]);
            var next := Join(KeyList(directory, names[..i + 1]), ",");
            if names[i] == "" then KeyList(directory, names[..i + 1]) == keys
            else KeyList(directory, names[..i + 1]) != [] &&
                 next == (if keys == [] then ObjectKey(directory, names[i])
                          else Join(keys, ",") + "," + ObjectKey(directory, names[i]))
  {
    assert names[..i + 1][..i] == names[..i];
    var keys := KeyList(directory, names[..i]);
    var name := names[i];
    if name != "" {
      if keys != [] {
        JoinAppend(keys, ObjectKey(directory, name), ",");
      } else {
        assert keys + [ObjectKey(directory, name)] == [ObjectKey(directory, name)];
      }
    } else {
      assert keys + [] == keys;
    }
  }

  /** A single name is asked for under the same key as GetUrlByFileName would use. */
  lemma SingleNameSameKey(directory: string, name: string)
    requires name != ""
    ensures Join(KeyList(directory, [name]), ",") == ObjectKey(directory, name)
  {
    assert [name][..0] == [];
  }

  /** Names and directory without commas: the proxy can split the joined list back into the keys. */
  lemma KeysSplitBack(directory: string, names: seq<string>)
    requires ',' !in directory && forall k :: 0 <= k < |names| ==> ',' !in names[k]
    requires KeyList(directory, names) != []
    ensures Split(Join(KeyList(directory, names), ","), ',') == KeyList(directory, names)
  {
    KeysWithoutComma(directory, names);
    SplitJoin(KeyList(directory, names), ',');
  }

  lemma {:induction false} KeysWithoutComma(directory: string, names: seq<string>)
    requires ',' !in directory && forall k :: 0 <= k < |names| ==> ',' !in names[k]
    ensures forall k :: 0 <= k < |KeyList(directory, names)| ==> ',' !in KeyList(directory, names)[k]
    decreases |names|
  {
    if names != [] {
      var init := names[..|names| - 1];
      assert forall k :: 0 <= k < |init| ==> init[k] == names[k];
      KeysWithoutComma(directory, init);
      var name := names[|names| - 1];
      if name != "" && directory != "" {
        assert ObjectKey(directory, name) == directory + "/" + name;
        assert forall c :: c in directory + "/" + name ==> c in directory || c == '/' || c in name;
      }
    }
  }

  /** GetUrlByFileNames: one batch URL call for the joined keys; the JSON reply decoded into a name map. */
  method GetUrlByFileNames(b: Z.Bucket, names: seq<string>, seconds: int, post: Proxy,
                           decode: seq<byte> -> Result<map<string, string>, string>)
    returns (r: Result<map<string, string>, string>)
    ensures var res := post(Call(MethodURL, Join(KeyList(b.conf.directory, names), ","), "",
                                 StringBytes("batch=1&expire=" + FormatInt(seconds))));
            r == (if Z.CheckError(res).Some? then Failure(Z.CheckError(res).value) else decode(res.result.response))
  {
    var objectKeys := JoinObjectKeys(b.conf.directory, names);
    var res := post(Call(MethodURL, objectKeys, "", StringBytes("batch=1&expire=" + FormatInt(seconds))));
    var e := Z.CheckError(res);
    if e.Some? {
      return Failure(e.value);
    }
    r := decode(res.result.response);
  }
}
