/**
 * The S3 filesystem adapter: the Drupal-specific overrides of the generic
 * AWS S3 Flysystem adapter. The object store is the set of keys present in
 * the adapter's bucket; the parent adapter's helpers and the MIME/size
 * library calls are function-valued parameters whose internals are not
 * modelled.
 */
module S3Adapter {
  import opened Wrappers
  import opened PhpArrays

  /** An S3 client handle; only its identity matters here. */
  datatype Client = Client(handle: nat)

  /** The state the parent adapter keeps after construction. */
  datatype Adapter = Adapter(
    client: Client,
    bucket: string,
    options: PhpArray,
    /** The parent's key derivation from a filesystem path (not modelled). */
    applyPathPrefix: string -> string)

  /** PHP refuses to write an array offset into this scalar. */
  datatype ConstructError = OffsetWriteOnScalar(held: Value)

  /** The options nested under `@http`, or `None` when it is not an array. */
  function HttpOptions(options: PhpArray): Option<PhpArray> {
    match Read(options, "@http")
    case Arr(h) => Some(h)
    case _ => None
  }

  /** `isset($options['@http']['stream'])`. */
  predicate StreamOptionSet(options: PhpArray) {
    HttpOptions(options).Some? && IsSet(HttpOptions(options).value, "stream")
  }

  /** Values PHP silently turns into an array when an offset is written into them. */
  predicate Autovivifies(v: Value) {
    v == Null || v == Bool(false)
  }

  /** Looks up `$options['@http'][$k]`. */
  function HttpGet(options: PhpArray, k: string): Option<Value> {
    match HttpOptions(options)
    case Some(h) => Get(h, k)
    case None => None
  }

  /**
   * The constructor: `@http.stream` is set to FALSE when it is not set, and
   * then the parent constructor stores the adapter's state. The parent turns
   * `prefix` into the path prefix that `applyPathPrefix` stands for, and
   * `streamReads` only affects reads, so neither is kept here.
   */
  function New(client: Client, bucket: string, prefix: string, options: PhpArray,
               streamReads: bool, applyPathPrefix: string -> string)
    : (r: Result<Adapter, ConstructError>)
    ensures StreamOptionSet(options) ==> r.Success? && r.value.options == options
    ensures r.Failure? <==>
      !StreamOptionSet(options) && !Autovivifies(Read(options, "@http")) && !Read(options, "@http").Arr?
    ensures r.Success? && !StreamOptionSet(options) ==>
      HttpGet(r.value.options, "stream") == Some(Bool(false))
    ensures r.Success? ==> StreamOptionSet(r.value.options)
    ensures r.Success? ==> forall k :: k != "@http" ==> Get(r.value.options, k) == Get(options, k)
    ensures r.Success? ==> forall k :: k != "stream" ==> HttpGet(r.value.options, k) == HttpGet(options, k)
    ensures r.Success? && Get(options, "@http").Some? ==> Keys(r.value.options) == Keys(options)
    ensures r.Success? && DistinctKeys(options) ==> DistinctKeys(r.value.options)
    ensures r.Success? ==>
      && r.value.client == client && r.value.bucket == bucket
      && r.value.applyPathPrefix == applyPathPrefix
  {
    if StreamOptionSet(options) then
      Success(Adapter(client, bucket, options, applyPathPrefix))
    else
      var held := Read(options, "@http");
      if held.Arr? then
        var opts := Put(options, "@http", Arr(Put(held.entries, "stream", Bool(false))));
        PutKeepsDistinct(options, "@http", Arr(Put(held.entries, "stream", Bool(false))));
        PutKeepsKeys(options, "@http", Arr(Put(held.entries, "stream", Bool(false))));
        Success(Adapter(client, bucket, opts, applyPathPrefix))
      else if Autovivifies(held) then
        var opts := Put(options, "@http", Arr([Entry("stream", Bool(false))]));
        PutKeepsDistinct(options, "@http", Arr([Entry("stream", Bool(false))]));
        PutKeepsKeys(options, "@http", Arr([Entry("stream", Bool(false))]));
        Success(Adapter(client, bucket, opts, applyPathPrefix))
      else
        Failure(OffsetWriteOnScalar(held))
  }

  /** Constructing again from an adapter's own options changes nothing. */
  lemma StreamDefaultIdempotent(a: Adapter, prefix: string, streamReads: bool)
    requires StreamOptionSet(a.options)
    ensures New(a.client, a.bucket, prefix, a.options, streamReads, a.applyPathPrefix)
            == Success(a)
  {
  }

  // ---------------------------------------------------------------- has()

  /** A request `has` issues to the object store. */
  datatype Probe =
    | ObjectExists(bucket: string, key: string, options: Option<PhpArray>)
    | DirectoryExists(location: string)

  /** The answer of `has`, with the requests it issued in order. */
  datatype Answer = Answer(found: bool, probes: seq<Probe>)

  /**
   * `has`: the exact key, then the key with a trailing slash (a directory
   * marker), then the parent's directory-by-listing check, stopping at the
   * first hit. `store` is the set of keys in the adapter's bucket.
   */
  function HasProbed(a: Adapter, store: set<string>,
                     doesDirectoryExist: (set<string>, string) -> bool, path: string)
    : (r: Answer)
    ensures var loc := a.applyPathPrefix(path);
      && (r.found <==> loc in store || loc + "/" in store || doesDirectoryExist(store, loc))
      && 1 <= |r.probes| <= 3
      && r.probes[0] == ObjectExists(a.bucket, loc, Some(a.options))
      && (|r.probes| == 1 <==> loc in store)
      && (|r.probes| >= 2 ==> r.probes[1] == ObjectExists(a.bucket, loc + "/", None))
      && (|r.probes| == 3 <==> loc !in store && loc + "/" !in store)
      && (|r.probes| == 3 ==> r.probes[2] == DirectoryExists(loc) && r.found == doesDirectoryExist(store, loc))
  {
    var loc := a.applyPathPrefix(path);
    var exact := ObjectExists(a.bucket, loc, Some(a.options));
    if loc in store then Answer(true, [exact])
    else
      var marker := ObjectExists(a.bucket, loc + "/", None);
      if loc + "/" in store then Answer(true, [exact, marker])
      else Answer(doesDirectoryExist(store, loc), [exact, marker, DirectoryExists(loc)])
  }

  /** `has($path)`. */
  function Has(a: Adapter, store: set<string>,
               doesDirectoryExist: (set<string>, string) -> bool, path: string): bool
  {
    HasProbed(a, store, doesDirectoryExist, path).found
  }

  /** The parent's directory check only gains answers as keys are added. */
  ghost predicate MonotoneInStore(doesDirectoryExist: (set<string>, string) -> bool) {
    forall s: set<string>, t: set<string>, loc: string ::
      s <= t && doesDirectoryExist(s, loc) ==> doesDirectoryExist(t, loc)
  }

  /** Adding keys to the store never turns a positive `has` into a negative one. */
  lemma HasMonotone(a: Adapter, s: set<string>, t: set<string>,
                    doesDirectoryExist: (set<string>, string) -> bool, path: string)
    requires s <= t
    requires MonotoneInStore(doesDirectoryExist)
    ensures Has(a, s, doesDirectoryExist, path) ==> Has(a, t, doesDirectoryExist, path)
  {
  }

  // -------------------------------------------------------- getMetadata()

  const VisibilityPublic: string := "public"

  /** The record `getMetadata` synthesises for a path with no object behind it. */
  predicate IsDirectoryMetadata(m: PhpArray, path: string, requestTime: int) {
    && Keys(m) == ["type", "path", "timestamp", "visibility"]
    && Read(m, "type") == Str("dir")
    && Read(m, "path") == Str(path)
    && Read(m, "timestamp") == Int(requestTime)
    && Read(m, "visibility") == Str(VisibilityPublic)
  }

  /**
   * `getMetadata`: the parent's lookup result (`None` for its FALSE) passes
   * through unchanged, and a miss becomes directory metadata stamped with the
   * request time.
   */
  function GetMetadata(parent: Option<PhpArray>, path: string, requestTime: int): (r: PhpArray)
    ensures parent.Some? ==> r == parent.value
    ensures parent.None? ==> IsDirectoryMetadata(r, path, requestTime) && DistinctKeys(r)
  {
    match parent
    case Some(m) => m
    case None =>
      var m := [ Entry("type", Str("dir")), Entry("path", Str(path)),
                 Entry("timestamp", Int(requestTime)), Entry("visibility", Str(VisibilityPublic)) ];
      assert Keys(m[3..]) == ["visibility"];
      assert Keys(m[2..]) == ["timestamp", "visibility"];
      assert Keys(m[1..]) == ["path", "timestamp", "visibility"];
      assert DistinctKeys(m[3..]) && DistinctKeys(m[2..]) && DistinctKeys(m[1..]);
      m
  }

  // ------------------------------------------------------------- upload()

  /** What is being uploaded: the contents as a string, or a stream resource. */
  datatype Body = Contents(data: string) | Stream(resource: nat)

  /** The opaque library calls `upload` relies on. */
  datatype MimeLibrary = MimeLibrary(
    /** `Util::guessMimeType($path, $content)` */
    guessMimeType: (string, string) -> string,
    /** `MimeType::detectByFilename($path)` */
    detectByFilename: string -> string,
    /** `Util::contentSize($content)` */
    contentSize: string -> int,
    /** `Util::getStreamSize($resource)`; `None` is its NULL */
    getStreamSize: nat -> Option<int>)

  /** The one `S3Client::upload` call issued. */
  datatype PutCall = PutCall(bucket: string, key: string, body: Body, acl: Value, params: PhpArray)

  datatype UploadOutcome = UploadOutcome(put: PutCall, response: PhpArray)

  const DefaultAcl: string := "private"

  /** The ContentType `upload` infers for a body. */
  function InferredContentType(path: string, body: Body, lib: MimeLibrary): Value {
    match body
    case Contents(data) => Str(lib.guessMimeType(path, data))
    case Stream(_) => Str(lib.detectByFilename(path))
  }

  /** The ContentLength `upload` computes for a body. */
  function InferredContentLength(body: Body, lib: MimeLibrary): Value {
    match body
    case Contents(data) => Int(lib.contentSize(data))
    case Stream(res) =>
      match lib.getStreamSize(res)
      case Some(n) => Int(n)
      case None => Null
  }

  /** Fills in ContentType and ContentLength where the options leave them unset. */
  function ResolveOptions(options: PhpArray, path: string, body: Body, lib: MimeLibrary)
    : (r: PhpArray)
    ensures IsSet(options, "ContentType") ==> Get(r, "ContentType") == Get(options, "ContentType")
    ensures !IsSet(options, "ContentType") ==>
      Get(r, "ContentType") == Some(InferredContentType(path, body, lib))
    ensures IsSet(options, "ContentLength") ==> Get(r, "ContentLength") == Get(options, "ContentLength")
    ensures !IsSet(options, "ContentLength") ==>
      Get(r, "ContentLength") == Some(InferredContentLength(body, lib))
    ensures forall k :: k != "ContentType" && k != "ContentLength" ==> Get(r, k) == Get(options, k)
    ensures DistinctKeys(options) ==> DistinctKeys(r)
  {
    PutKeepsDistinct(options, "ContentType", InferredContentType(path, body, lib));
    var typed :=
      if IsSet(options, "ContentType") then options
      else Put(options, "ContentType", InferredContentType(path, body, lib));
    PutKeepsDistinct(typed, "ContentLength", InferredContentLength(body, lib));
    if IsSet(typed, "ContentLength") then typed
    else Put(typed, "ContentLength", InferredContentLength(body, lib))
  }

  /**
   * `upload($path, $body, $config)`, with `options` the result of the
   * parent's `getOptionsFromConfig($config)` and `normalizeResponse` the
   * parent's response normaliser.
   */
  function Upload(a: Adapter, path: string, body: Body, options: PhpArray, lib: MimeLibrary,
                  normalizeResponse: (PhpArray, string) -> PhpArray)
    : (r: UploadOutcome)
    ensures r.put.bucket == a.bucket
    ensures r.put.key == a.applyPathPrefix(path)
    ensures r.put.body == body
    ensures r.put.acl == if IsSet(options, "ACL") then Read(options, "ACL") else Str(DefaultAcl)
    ensures IsSet(options, "ContentType") ==> Get(r.put.params, "ContentType") == Get(options, "ContentType")
    ensures !IsSet(options, "ContentType") && body.Contents? ==>
      Get(r.put.params, "ContentType") == Some(Str(lib.guessMimeType(path, body.data)))
    ensures !IsSet(options, "ContentType") && body.Stream? ==>
      Get(r.put.params, "ContentType") == Some(Str(lib.detectByFilename(path)))
    ensures IsSet(options, "ContentLength") ==> Get(r.put.params, "ContentLength") == Get(options, "ContentLength")
    ensures !IsSet(options, "ContentLength") && body.Contents? ==>
      Get(r.put.params, "ContentLength") == Some(Int(lib.contentSize(body.data)))
    ensures !IsSet(options, "ContentLength") && body.Stream? ==>
      Get(r.put.params, "ContentLength") ==
        Some(if lib.getStreamSize(body.resource).Some? then Int(lib.getStreamSize(body.resource).value) else Null)
    ensures forall k :: k != "ContentType" && k != "ContentLength" ==> Get(r.put.params, k) == Get(options, k)
    ensures r.response == normalizeResponse(r.put.params, r.put.key)
  {
    var key := a.applyPathPrefix(path);
    var acl := if IsSet(options, "ACL") then Read(options, "ACL") else Str(DefaultAcl);
    var params := ResolveOptions(options, path, body, lib);
    UploadOutcome(PutCall(a.bucket, key, body, acl, params), normalizeResponse(params, key))
  }

  /** The store after a successful put: the key now exists. */
  function AfterPut(store: set<string>, put: PutCall): (s: set<string>)
    ensures put.key in s && store <= s
  {
    store + {put.key}
  }

  /** After a successful upload of a path, `has` reports the path as present. */
  lemma UploadThenHas(a: Adapter, store: set<string>, path: string, body: Body,
                      options: PhpArray, lib: MimeLibrary,
                      normalizeResponse: (PhpArray, string) -> PhpArray,
                      doesDirectoryExist: (set<string>, string) -> bool)
    ensures var put := Upload(a, path, body, options, lib, normalizeResponse).put;
            Has(a, AfterPut(store, put), doesDirectoryExist, path)
            && HasProbed(a, AfterPut(store, put), doesDirectoryExist, path).probes
               == [ObjectExists(a.bucket, a.applyPathPrefix(path), Some(a.options))]
  {
  }

  /**
   * Uploading again with the options a previous upload resolved sends the
   * same options: explicit values are never recomputed.
   */
  lemma {:induction false} ResolveOptionsIdempotent(options: PhpArray, path: string, body: Body,
                                                     lib: MimeLibrary)
    ensures var once := ResolveOptions(options, path, body, lib);
            ResolveOptions(once, path, body, lib) == once
  {
    var once := ResolveOptions(options, path, body, lib);
    assert IsSet(once, "ContentType");
    if !IsSet(once, "ContentLength") {
      PutSameValue(once, "ContentLength", InferredContentLength(body, lib));
    }
  }
}
