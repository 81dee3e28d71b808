/**
 * The CORS direct-upload controller: signing a browser upload straight to
 * the bucket, and registering the file once the browser reports it done.
 * The host's naming policy, stream-wrapper helpers, file storage and the
 * SDK's POST-policy signer are function-valued parameters.
 */
module CorsUpload {
  import opened Wrappers
  import opened PhpArrays
  import opened S3Adapter

  /**
   * Host services the controller consults (not modelled). `getScheme` and
   * `baseName` receive the posted value itself, whatever its PHP type.
   */
  datatype Host = Host(
    /** `StreamWrapperManager::getScheme($uri)` */
    schemeOf: Value -> string,
    /** `StreamWrapperManager::getTarget($uri)` */
    targetOf: string -> string,
    /** `FileSystemInterface::getDestinationFilename($destination, FileSystemInterface::EXISTS_RENAME)` */
    renamedDestination: string -> string,
    /** `FileSystemInterface::baseName($uri)` */
    baseName: Value -> string)

  /** One condition of the POST policy. */
  datatype Constraint =
    | Match(field: string, value: Value)
    | StartsWith(field: string, prefix: Value)

  /** The arguments handed to `new PostObjectV4(...)`. */
  datatype PolicyRequest = PolicyRequest(
    client: Client, bucket: string, fields: PhpArray,
    constraints: seq<Constraint>, expiration: string)

  /** What the signer produces: the form's attributes and hidden inputs. */
  datatype FormParts = FormParts(attributes: PhpArray, inputs: PhpArray)

  /** The JSON body of the sign response: exactly these four members. */
  datatype SignResponse = SignResponse(
    attributes: PhpArray, inputs: PhpArray, options: seq<Constraint>, url: string)

  datatype Signed = Signed(policy: PolicyRequest, response: SignResponse)

  /** The destination's scheme does not name an S3 file system. */
  datatype SignError = NotAnS3Scheme(scheme: string)

  /** The fixed policy lifetime. */
  const Expiration: string := "+5 hours"

  /** `$post['destination'] . '/' . $post['filename']`. */
  function RequestedPath(post: PhpArray): string {
    ToPhpString(Read(post, "destination")) + "/" + ToPhpString(Read(post, "filename"))
  }

  /** The scheme of the posted destination. */
  function SchemeOf(post: PhpArray, host: Host): string {
    host.schemeOf(Read(post, "destination"))
  }

  /** The collision-free destination URI the host's rename policy assigns. */
  function ResolvedDestination(post: PhpArray, host: Host): string {
    host.renamedDestination(RequestedPath(post))
  }

  /**
   * The object store's reading of one policy condition against the posted
   * form fields (`$name` names a field). The store is outside this model: this
   * is an assumed evaluator that only credits string values, so a condition
   * carrying NULL or any other non-string value is never counted as met.
   */
  predicate Satisfies(fields: PhpArray, c: Constraint) {
    match c
    case Match(f, v) => v.Str? && Read(fields, f) == v
    case StartsWith(f, p) =>
      && |f| > 0 && f[0] == '$'
      && p.Str? && Read(fields, f[1..]).Str?
      && p.s <= Read(fields, f[1..]).s
  }

  /**
   * `signRequest`: resolve a collision-free destination, derive the object
   * key from it, constrain the upload to that key, the posted ACL and the
   * posted content type, and sign the remaining posted fields.
   */
  function SignRequest(post: PhpArray, host: Host, adapters: map<string, Adapter>,
                       signer: PolicyRequest -> FormParts)
    : (r: Result<Signed, SignError>)
    ensures r.Failure? <==> SchemeOf(post, host) !in adapters
    ensures r.Success? ==>
      var a := adapters[SchemeOf(post, host)];
      var dest := ResolvedDestination(post, host);
      var key := a.applyPathPrefix(host.targetOf(dest));
      var p := r.value.policy;
      && p.client == a.client
      && p.bucket == a.bucket
      && p.constraints == [ Match("acl", Read(post, "acl")),
                            Match("bucket", Str(a.bucket)),
                            StartsWith("$key", Str(key)),
                            StartsWith("$Content-Type", Read(post, "Content-Type")) ]
      && Get(p.fields, "key") == Some(Str(key))
      && p.expiration == Expiration
      && r.value.response.url == dest
      && r.value.response.options == p.constraints
      && FormParts(r.value.response.attributes, r.value.response.inputs) == signer(p)
    ensures r.Success? ==>
      var fields := r.value.policy.fields;
      && Get(fields, "destination") == None
      && Get(fields, "filename") == None
      && (forall k :: k != "key" && k != "destination" && k != "filename" ==>
            Get(fields, k) == Get(post, k))
  {
    var scheme := SchemeOf(post, host);
    if scheme !in adapters then Failure(NotAnS3Scheme(scheme))
    else
      var a := adapters[scheme];
      var dest := ResolvedDestination(post, host);
      var key := a.applyPathPrefix(host.targetOf(dest));
      var withKey := Put(post, "key", Str(key));
      var constraints := [ Match("acl", Read(withKey, "acl")),
                           Match("bucket", Str(a.bucket)),
                           StartsWith("$key", Read(withKey, "key")),
                           StartsWith("$Content-Type", Read(withKey, "Content-Type")) ];
      var fields := Unset(Unset(withKey, "destination"), "filename");
      var policy := PolicyRequest(a.client, a.bucket, fields, constraints, Expiration);
      var form := signer(policy);
      Success(Signed(policy, SignResponse(form.attributes, form.inputs, constraints, dest)))
  }

  /**
   * The fields handed to the signer meet the assumed evaluator's key
   * condition, and its ACL and content-type conditions whenever those were
   * posted as strings (the bucket condition is met by the form's target, not
   * a field).
   */
  lemma SignedFieldsSatisfyPolicy(post: PhpArray, host: Host, adapters: map<string, Adapter>,
                                  signer: PolicyRequest -> FormParts)
    requires SchemeOf(post, host) in adapters
    ensures var p := SignRequest(post, host, adapters, signer).value.policy;
            && Satisfies(p.fields, p.constraints[2])
            && (Read(post, "acl").Str? ==> Satisfies(p.fields, p.constraints[0]))
            && (Read(post, "Content-Type").Str? ==> Satisfies(p.fields, p.constraints[3]))
  {
    var p := SignRequest(post, host, adapters, signer).value.policy;
    var key := adapters[SchemeOf(post, host)].applyPathPrefix(host.targetOf(ResolvedDestination(post, host)));
    assert p.constraints[0] == Match("acl", Read(post, "acl"));
    assert p.constraints[2] == StartsWith("$key", Str(key));
    assert p.constraints[3] == StartsWith("$Content-Type", Read(post, "Content-Type"));
    assert Get(p.fields, "acl") == Get(post, "acl");
    assert Get(p.fields, "key") == Some(Str(key));
    assert Get(p.fields, "Content-Type") == Get(post, "Content-Type");
    assert "$key"[1..] == "key";
    assert "$Content-Type"[1..] == "Content-Type";
  }

  /** A well-formed post yields well-formed signed fields. */
  lemma SignedFieldsWellFormed(post: PhpArray, host: Host, adapters: map<string, Adapter>,
                               signer: PolicyRequest -> FormParts)
    requires SchemeOf(post, host) in adapters
    requires DistinctKeys(post)
    ensures DistinctKeys(SignRequest(post, host, adapters, signer).value.policy.fields)
  {
    var a := adapters[SchemeOf(post, host)];
    var key := a.applyPathPrefix(host.targetOf(ResolvedDestination(post, host)));
    var withKey := Put(post, "key", Str(key));
    PutKeepsDistinct(post, "key", Str(key));
    UnsetKeepsDistinct(withKey, "destination");
    UnsetKeepsDistinct(Unset(withKey, "destination"), "filename");
  }

  /**
   * The key condition is a prefix match: a form whose key extends the signed
   * key by any suffix still meets it.
   */
  lemma KeyConstraintAdmitsExtensions(post: PhpArray, host: Host, adapters: map<string, Adapter>,
                                      signer: PolicyRequest -> FormParts,
                                      form: PhpArray, suffix: string)
    requires SchemeOf(post, host) in adapters
    ensures var p := SignRequest(post, host, adapters, signer).value.policy;
            var forged := Put(form, "key", Str(Read(p.fields, "key").s + suffix));
            Satisfies(forged, p.constraints[2])
  {
    assert "$key"[1..] == "key";
  }

  /** The key the policy binds is the prefixed target of the URL handed back. */
  lemma SignedKeyMatchesUrl(post: PhpArray, host: Host, adapters: map<string, Adapter>,
                            signer: PolicyRequest -> FormParts)
    requires SchemeOf(post, host) in adapters
    ensures var s := SignRequest(post, host, adapters, signer).value;
            var a := adapters[SchemeOf(post, host)];
            s.response.options[2] == StartsWith("$key", Str(a.applyPathPrefix(host.targetOf(s.response.url))))
  {
  }

  /**
   * With no posted Content-Type the content-type condition carries NULL, not
   * a string; how the store treats such a condition is not modelled.
   */
  lemma MissingContentTypeGivesNullCondition(post: PhpArray, host: Host,
                                             adapters: map<string, Adapter>,
                                             signer: PolicyRequest -> FormParts)
    requires SchemeOf(post, host) in adapters
    requires Get(post, "Content-Type") == None
    ensures SignRequest(post, host, adapters, signer).value.policy.constraints[3]
            == StartsWith("$Content-Type", Null)
  {
  }

  // ----------------------------------------------------------- saveFile()

  /** The values handed to `File::create`. */
  datatype FileRecord = FileRecord(uri: Value, filesize: Value, filename: string,
                                   filemime: Value, uid: int)

  /** The created record and the `fid` returned to the browser. */
  datatype Saved = Saved(record: FileRecord, fid: Value)

  /**
   * `saveFile`: builds the file record from the posted values without
   * checking any of them, owned by `actor`; `save` is the host's storage,
   * which assigns the identifier.
   */
  function SaveFile(post: PhpArray, host: Host, actor: int, save: FileRecord -> Value)
    : (r: Saved)
    ensures r.record.uri == Read(post, "url")
    ensures r.record.filesize == Read(post, "filesize")
    ensures r.record.filemime == Read(post, "filemime")
    ensures r.record.filename == host.baseName(Read(post, "url"))
    ensures r.record.uid == actor
    ensures r.fid == save(r.record)
  {
    var url := Read(post, "url");
    var record := FileRecord(url, Read(post, "filesize"), host.baseName(url),
                             Read(post, "filemime"), actor);
    Saved(record, save(record))
  }

  /** `saveFile` reads nothing from the post but `url`, `filesize` and `filemime`. */
  lemma SaveFileReadsOnlyItsFields(p1: PhpArray, p2: PhpArray, host: Host, actor: int,
                                   save: FileRecord -> Value)
    requires Read(p1, "url") == Read(p2, "url")
    requires Read(p1, "filesize") == Read(p2, "filesize")
    requires Read(p1, "filemime") == Read(p2, "filemime")
    ensures SaveFile(p1, host, actor, save) == SaveFile(p2, host, actor, save)
  {
  }

  /**
   * Posting back (with whatever other fields) the URL a signing returned registers a record whose URI is
   * that URL, named after its base name.
   */
  lemma SignThenSave(post: PhpArray, host: Host, adapters: map<string, Adapter>,
                     signer: PolicyRequest -> FormParts, done: PhpArray, actor: int,
                     save: FileRecord -> Value)
    requires SchemeOf(post, host) in adapters
    ensures var url := SignRequest(post, host, adapters, signer).value.response.url;
            var rec := SaveFile(Put(done, "url", Str(url)), host, actor, save).record;
            rec.uri == Str(ResolvedDestination(post, host))
            && rec.filename == host.baseName(Str(ResolvedDestination(post, host)))
  {
  }
}
