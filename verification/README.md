# flysystem_s3 core, modelled in Dafny

This project models two pieces of decision logic from the Drupal `flysystem_s3` module:

* **The S3 filesystem adapter.** It holds the Drupal overrides of the generic AWS S3 Flysystem adapter. They are:
  * constructor defaulting of the `@http.stream` option;
  * the three-tier `has` existence check;
  * the directory fallback of `getMetadata`;
  * the option resolution of `upload`: ACL, ContentType and ContentLength.
* **The CORS direct-upload controller.** `signRequest` builds the POST policy and the form fields for a browser upload straight into the bucket. `saveFile` registers the uploaded file as a host file record.

The object store is the set of keys in the adapter's bucket. Several collaborators are function-valued parameters whose internals are not modelled:
* the parent adapter's helpers: `applyPathPrefix`, `doesDirectoryExist`, `normalizeResponse`, the parent `getMetadata` result, and `getOptionsFromConfig`, whose result is passed in;
* the MIME and size library calls;
* the host's stream-wrapper and naming services;
* file storage;
* the SDK's `PostObjectV4` signer.

The request time and the current user are explicit parameters.

PHP arrays are ordered: assignment keeps an existing key's position and appends a new key. They are modelled in `PhpArrays` as ordered entry lists. `PhpArrays` also covers:
* `Put` for `$a[$k] = $v`;
* `Unset` for `unset`;
* `Read`, where a missing key reads as NULL;
* `IsSet`, which is false for NULL.

The adapter's options, the posted form fields and the metadata records all use this type. So contracts such as "every other option is unchanged" and "only `destination` and `filename` are removed" are statements about the same operations PHP performs.

Modules:
* `Wrappers`: `Option` and `Result`.
* `PhpArrays`: ordered PHP arrays and string conversion.
* `S3Adapter`: `src/Flysystem/Adapter/S3Adapter.php`.
* `CorsUpload`: `src/Controller/S3CorsUploadAjaxController.php`.

Behaviour of the code that a reader might not expect:
* With no posted `Content-Type`, the content-type condition of the policy carries PHP's NULL rather than a string. What the store does with such a condition is not modelled (`CorsUpload.MissingContentTypeGivesNullCondition`).
* The key condition is `starts-with`, not exact equality. A form whose key extends the signed key still satisfies it (`CorsUpload.KeyConstraintAdmitsExtensions`).
* `saveFile` verifies nothing about the uploaded object. It copies the posted values (`CorsUpload.SaveFileReadsOnlyItsFields`).
* The third tier of `has` is the parent's `doesDirectoryExist`. The model keeps it abstract and does not restate it as a listing.

## Model

| member | source | states |
|---|---|---|
| PhpArrays.Put | src/Flysystem/Adapter/S3Adapter.php:25 | PHP array assignment: the key then maps to the value and every other key keeps its value. |
| PhpArrays.PutKeepsKeys | src/Flysystem/Adapter/S3Adapter.php:25 | Assigning a present key keeps the keys and their order. |
| PhpArrays.PutAppends | src/Flysystem/Adapter/S3Adapter.php:25 | Assigning an absent key appends exactly one entry at the end. |
| PhpArrays.PutKeepsDistinct | src/Flysystem/Adapter/S3Adapter.php:25 | Assignment keeps a well-formed array's keys distinct. |
| PhpArrays.PutReplacesInPlace | src/Flysystem/Adapter/S3Adapter.php:75 | In a well-formed array, assigning a present key rewrites exactly that one slot. |
| PhpArrays.PutSameValue | src/Flysystem/Adapter/S3Adapter.php:83 | Assigning a key the value it already holds leaves the array unchanged. |
| PhpArrays.Unset | src/Controller/S3CorsUploadAjaxController.php:88-89 | `unset` removes the key, leaves every other key's value as it was, and is a no-op for an absent key. |
| PhpArrays.UnsetKeepsDistinct | src/Controller/S3CorsUploadAjaxController.php:88-89 | `unset` keeps a well-formed array's keys distinct. |
| PhpArrays.UnsetRemovesOneEntry | src/Controller/S3CorsUploadAjaxController.php:88-89 | In a well-formed array, `unset` removes exactly the one entry at the key's position and keeps the others in order. |
| PhpArrays.Read | src/Controller/S3CorsUploadAjaxController.php:75-84 | Reading a missing key yields NULL. Reading a present key yields the value stored under it. |
| PhpArrays.IsSet | src/Flysystem/Adapter/S3Adapter.php:71-82 | `isset` holds exactly when the key is present and its value is not NULL. This decides every defaulting branch, here and at line 24. |
| PhpArrays.ToPhpString | src/Controller/S3CorsUploadAjaxController.php:75 | The `.` conversion: NULL and FALSE give "", TRUE gives "1", a string is itself, an array gives "Array", and an integer gives its decimal rendering. |
| PhpArrays.IntToString | src/Controller/S3CorsUploadAjaxController.php:75 | An integer's rendering is PHP's canonical decimal form. It contains only digits after an optional leading `-`, has no leading zero unless the number is 0, and reads back as the integer. |
| PhpArrays.DigitsRoundTrip | src/Controller/S3CorsUploadAjaxController.php:75 | Reading back the decimal digits of a natural number gives the number. |
| PhpArrays.Get | src/Flysystem/Adapter/S3Adapter.php:71 | A lookup finds a value exactly when the key is present, and that value is stored in an entry under the key. |
| PhpArrays.GetAt | src/Flysystem/Adapter/S3Adapter.php:71 | In a well-formed array, a lookup returns the value at the key's position. |
| S3Adapter.New | src/Flysystem/Adapter/S3Adapter.php:20-29 | If `@http.stream` is set, the options are kept as given. Otherwise it becomes FALSE, and every other top-level option and every other `@http` option is unchanged. The constructor fails only when `@http` holds a scalar PHP cannot write an offset into. The client, bucket and path prefixing are kept. |
| S3Adapter.StreamDefaultIdempotent | src/Flysystem/Adapter/S3Adapter.php:24-26 | Constructing again from the options an adapter already holds yields the same adapter. |
| S3Adapter.HasProbed | src/Flysystem/Adapter/S3Adapter.php:34-45 | `has` is true exactly when the prefixed key exists, the key plus `/` exists, or the directory check holds. The checks run in that order and stop at the first hit. The first check passes the adapter options and the marker check does not. |
| S3Adapter.HasMonotone | src/Flysystem/Adapter/S3Adapter.php:34-45 | If the directory check is monotone, adding keys to the store never turns a true `has` into false. |
| S3Adapter.GetMetadata | src/Flysystem/Adapter/S3Adapter.php:50-63 | A record from the parent lookup is returned unchanged. A FALSE lookup becomes exactly `{type: dir, path, timestamp: request time, visibility: public}`, in that key order, and never fails. |
| S3Adapter.ResolveOptions | src/Flysystem/Adapter/S3Adapter.php:73-84 | A set ContentType or ContentLength is never overwritten. An unset one is inferred from the body: a string body uses the guesser or `contentSize`, a stream uses the file name or stream size. All other options are unchanged. |
| S3Adapter.Upload | src/Flysystem/Adapter/S3Adapter.php:68-89 | One put is issued with the adapter's bucket, the prefixed key and the same body. The ACL is the option ACL, or `private` when unset. The params are the resolved options. The result is the normalised response for those options and that key. |
| S3Adapter.UploadThenHas | src/Flysystem/Adapter/S3Adapter.php:34-38 | After a successful upload of a path, `has` for that path is true, answered by the first existence check alone. |
| S3Adapter.ResolveOptionsIdempotent | src/Flysystem/Adapter/S3Adapter.php:73-84 | Resolving options that were already resolved changes nothing. |
| CorsUpload.SignRequest | src/Controller/S3CorsUploadAjaxController.php:66-102 | The destination is the host's rename-on-conflict resolution of `destination/filename`. The signed key is the prefixed target of that destination. The constraints are exactly `[acl, bucket, starts-with $key, starts-with $Content-Type]`. The signed fields are the posted fields minus `destination` and `filename`, plus `key`, with every other field unchanged. The expiration is always `+5 hours`. The response echoes the constraints and the resolved destination. An unknown scheme fails. |
| CorsUpload.SignedFieldsSatisfyPolicy | src/Controller/S3CorsUploadAjaxController.php:78-89 | The fields handed to the signer always meet the policy's key condition. They meet the ACL and content-type conditions whenever those values were posted as strings. |
| CorsUpload.SignedFieldsWellFormed | src/Controller/S3CorsUploadAjaxController.php:78-89 | A post with distinct field names yields signed fields with distinct names. |
| CorsUpload.KeyConstraintAdmitsExtensions | src/Controller/S3CorsUploadAjaxController.php:83 | The key condition is a prefix match, so any key extending the signed key also meets it. |
| CorsUpload.SignedKeyMatchesUrl | src/Controller/S3CorsUploadAjaxController.php:75-99 | The key bound by the policy is the prefixed target of the `url` returned, not of the raw posted destination. |
| CorsUpload.MissingContentTypeGivesNullCondition | src/Controller/S3CorsUploadAjaxController.php:84 | Without a posted Content-Type, the content-type condition carries NULL, not a string. What the store does with it is not modelled. |
| CorsUpload.SaveFile | src/Controller/S3CorsUploadAjaxController.php:115-128 | The record copies `uri`, `filesize` and `filemime` from the post unchecked. Its filename is the base name of the URL and its owner is the current actor. The returned `fid` is the identifier storage assigns. |
| CorsUpload.SaveFileReadsOnlyItsFields | src/Controller/S3CorsUploadAjaxController.php:118-124 | Two posts that agree on `url`, `filesize` and `filemime` produce the same record and identifier, whatever else they carry. |
| CorsUpload.SignThenSave | src/Controller/S3CorsUploadAjaxController.php:99-124 | Posting back the URL a signing returned registers a record whose URI is that resolved destination and whose filename is its base name, whatever other fields the post carries. |

## Left out

- The parent adapter's helpers are abstract parameters: `applyPathPrefix`, `doesDirectoryExist`, `getOptionsFromConfig`, `normalizeResponse` and the parent `getMetadata`. Their code is not part of this model.
- The MIME guessers, `Util::contentSize` and `Util::getStreamSize` are opaque library calls and stay uninterpreted.
- Exceptions thrown by the S3 SDK are not modelled. This covers `doesObjectExist`, `upload` and the parent `getMetadata` on errors other than not-found. The model describes the path on which those calls return.
- `PostObjectV4` policy signing and form generation are cryptographic SDK code. They are an uninterpreted function of the policy request.
- The host collaborators are abstract functions:
  - `getScheme`, `getTarget`, `getDestinationFilename`, `baseName`;
  - `File::create`/`save`;
  - the Flysystem factory, modelled as a map from scheme to S3 adapter.
- CorsUpload.SignRequest: the host collaborators `getScheme`, `getTarget` and `getDestinationFilename` are total functions here, so every post with a known scheme is signed. Their exceptions are not modelled, such as `getDestinationFilename` rejecting a name. `getScheme` receives the posted value itself, so an array-valued `destination` reaches it unconverted. What PHP 8 does with such a value, a TypeError inside the host, is not modelled.
- CorsUpload.SaveFile: `baseName` is a total function of the posted `url` value itself. The TypeError PHP 8 raises there for an array-valued `url` is not modelled, and neither are storage failures in `save`.
- `\Drupal::time()` and `\Drupal::currentUser()` are explicit parameters.
- SignRequest: a scheme with no S3 adapter is a single failure. PHP reaches that failure through a missing-plugin adapter that has no `getClient`.
- S3Adapter.New: the `prefix` and `streamReads` arguments are not kept. The parent adapter turns the prefix into the key derivation that `applyPathPrefix` stands for, and `streamReads` only affects reads.
- CorsUpload.Satisfies: the object store's evaluation of policy conditions is not part of this model. `Satisfies` is an assumed evaluator that credits an exact match or a string prefix for string values only, and counts no condition carrying NULL or another non-string value as met.
- S3Adapter.New: besides NULL, only FALSE is treated as autovivifying to an array. Every other scalar under `@http` is a failure, as PHP raises an error there.
- PHP integer keys and numeric-string key conversion are not modelled. Every array key is a string.
- The S3 plugin class is not part of this model: external URLs, configuration merge and `ensure`. Neither are HTTP/JSON handling, the `create` factories or the module install test.
- The JSON encoding of responses is not modelled. The response is a datatype whose four fields are exactly the four JSON members.
