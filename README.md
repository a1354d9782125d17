# Presigned-upload handler, modelled in Dafny

This project models the request handler behind `POST /uploaded`. The
handler gives a browser a presigned S3 PUT URL for a new object. It checks
that the bucket and region are configured, then reads the JSON body and
takes its `filename`. It turns that name into a safe basename
(`sanitizeFilename`) and builds the object key
`<prefix><user id>-<uuid>-<safe name>`. Finally it returns the URL, signed
for one hour and for that key alone, together with the key.

Files:

- `wrappers.dfy` holds `Option`, used for unset environment variables and absent bodies.
- `js_text.dfy` holds JavaScript strings as sequences of UTF-16 code units,
  plus the character classes the regular expressions use. Without the `u` flag, both
  regular expressions, `slice` and the 200 limit count code units, so a
  character outside the Basic Multilingual Plane counts as two.
- `sanitize.dfy` holds `sanitizeFilename` and its properties.
- `presign.dfy` holds the handler, its error taxonomy and the key properties.

The handler's collaborators are parameters:

- `parse` stands for `JSON.parse`, with `SyntaxError` where it throws.
- `uuid` is the value returned by `crypto.randomUUID()`.
- `sign` stands for `getSignedUrl`, applied to the bucket, region, key and expiry.
- `Environment` holds `BUCKET_NAME`, `REGION` and `KEY_PREFIX`. `None` means the variable is unset.

Behaviour the model follows from the code:

- `^.*[/\\]` strips a path only up to the last `/` or `\` before the first
  line terminator (LF, CR, U+2028, U+2029), because `.` does not match those.
  So `a/b<LF>c/d` sanitizes to `b_c_d`.
- The `upload` fallback replaces an empty basename before character
  replacement. Replacement is one-for-one, so the result is never empty.
  Applying the fallback after replacement and slicing would give the same
  result (`FallbackOrderIrrelevant`).
- `KEY_PREFIX` is read with `??` and is not part of the configuration check.
  An empty prefix is kept. Only an unset prefix gives the default.
- A body that parses to `null` makes `body.filename` throw a `TypeError`.
  The handler does not catch it, so the model returns `ThrowsTypeError` and no status code.
  A failure inside `getSignedUrl` is not caught either. `sign` is a total function here.
  So not every failure becomes a 400 or 500 response.

## Model

| member | source | states |
|---|---|---|
| Sanitize.PathEnd | lambda/presign/index.ts:20 | the text `^.*[/\\]` removes is the longest prefix that ends in `/` or `\` and contains no line terminator, or nothing when no prefix qualifies |
| JsText.IsSafe | lambda/presign/index.ts:21 | the class `[\w.\-]` without the `u` flag: ASCII letters, digits, `_`, `.` and `-`; a safe unit is never a separator or a line terminator |
| Sanitize.StripLeadingPath | lambda/presign/index.ts:20 | `replace(/^.*[/\\]/, '')` leaves a suffix of the name; what it removed is a leading path or nothing, and no longer prefix is one |
| Sanitize.StripStopsAtLineTerminator | lambda/presign/index.ts:20 | the strip never removes a line terminator or anything after it |
| Sanitize.NoSeparatorNoPath | lambda/presign/index.ts:20 | a name without `/` or `\` keeps all of its text |
| Sanitize.Basename | lambda/presign/index.ts:20 | the basename, with the `upload` fallback, is never empty |
| Sanitize.SafeUnit | lambda/presign/index.ts:21 | a unit in `[A-Za-z0-9_.-]` is kept and every other unit becomes `_` |
| Sanitize.ReplaceUnsafe | lambda/presign/index.ts:21 | replacement keeps the length, replaces each unit at its own position, makes every unit safe and leaves an all-safe string unchanged |
| Sanitize.SliceTo | lambda/presign/index.ts:21 | `slice(0, n)` gives a prefix of length `min(n, length)` |
| Sanitize.SanitizeFilename | lambda/presign/index.ts:16-22 | the result is non-empty, has length `min(200, length of basename)`, contains only `[A-Za-z0-9_.-]` and so no `/` or `\` |
| Sanitize.FallbackOrderIrrelevant | lambda/presign/index.ts:20-21 | falling back to `upload` after replacement and slicing gives the same result as falling back before them |
| Sanitize.SanitizeEmpty | lambda/presign/index.ts:20 | the empty name becomes `upload` |
| Sanitize.SanitizeAt | lambda/presign/index.ts:20-21 | each kept unit is the replacement of the basename's unit at the same position |
| Sanitize.SafeNameUnchanged | lambda/presign/index.ts:19-22 | a non-empty, all-safe name of at most 200 units comes back unchanged |
| Sanitize.SanitizeIdempotent | lambda/presign/index.ts:19-22 | sanitizing twice equals sanitizing once |
| Sanitize.SanitizeLastSegment | lambda/presign/index.ts:20 | with no line terminator before the last separator, only the text after that separator matters |
| Sanitize.SanitizeTrailingSeparator | lambda/presign/index.ts:20 | a name ending in a separator, with no line terminator before it, becomes `upload` |
| Sanitize.TraversalExample | lambda/presign/index.ts:16-21 | `../../etc/passwd` becomes `passwd` |
| Sanitize.LineBreakExample | lambda/presign/index.ts:20-21 | `a/b<LF>c/d` becomes `b_c_d` |
| Sanitize.AstralExample | lambda/presign/index.ts:21 | a character outside the BMP becomes two underscores |
| Sanitize.FallbackExamples | lambda/presign/index.ts:20 | an empty name and `reports/` both become `upload` |
| Sanitize.IntegrationNameExample | tests/integration/api-tests.ts:12 | `integration-test.pdf` is kept as is |
| Presign.KeyPrefix | lambda/presign/index.ts:57 | only an unset `KEY_PREFIX` falls back to the default prefix; a set one, even empty, is used |
| Presign.IsTruthy | lambda/presign/index.ts:29 | a string value is truthy exactly when it is defined and not empty |
| Presign.Configured | lambda/presign/index.ts:27-29 | the configuration check passes exactly when both `BUCKET_NAME` and `REGION` are set and non-empty; `KEY_PREFIX` plays no part |
| Presign.ReadBody | lambda/presign/index.ts:39 | an absent or empty body reads as `{}`; any other body is handed to `JSON.parse`; so a syntax error needs a non-empty body |
| Presign.ReadFilename | lambda/presign/index.ts:48 | `body.filename` throws exactly on `null`, is defined exactly on an object with that member, and then is that member's value |
| Presign.ObjectKey | lambda/presign/index.ts:59 | the key has the expected length, starts with the prefix and ends with the sanitized name |
| Presign.Handle | lambda/presign/index.ts:24-70 | missing bucket or region gives 500 whatever the body; then malformed JSON gives 400 `Invalid JSON body`; a `null` body throws; any other body without a non-empty string `filename` gives 400 with the missing-filename message; a named file gives 200 with the composed key and a URL signed for that key, with expiry 3600 |
| Presign.EmptyBodyIsMissingFilename | lambda/presign/index.ts:39-55 | an absent or empty body yields the missing-filename 400, not the invalid-JSON 400 |
| Presign.SucceedsExactlyWhenNamed | lambda/presign/index.ts:29-69 | status 200 holds exactly when the configuration is present and the body names a non-empty string file |
| Presign.ObjectKeyStaysUnderPrefix | lambda/presign/index.ts:58-59 | with a UUID token and a sanitized name, the key after the prefix holds only `[A-Za-z0-9_.-]`, so no separator |
| Presign.SuccessKeyShape | lambda/presign/index.ts:57-69 | on success the URL is signed for the returned key; the key starts with the prefix and ends with the sanitized name; with a UUID token nothing after the prefix is a separator |
| Presign.ObjectKeyInjective | lambda/presign/index.ts:59 | for a fixed prefix and name, equal keys mean equal UUIDs |
| Presign.DistinctUuidsDistinctKeys | lambda/presign/index.ts:59 | two requests that are configured and name a file, differing only in the UUID, both get 200 and different keys |
| Presign.IntegrationRejections | tests/integration/api-tests.ts:32-70 | `{}` and `{"filename":""}` give the missing-filename 400; `not json` gives the invalid-JSON 400 |
| Presign.IntegrationSuccess | tests/integration/api-tests.ts:7-29 | with the key prefix `uploads/userdata/pdftestresults/` (as deployed, or by default), `integration-test.pdf` gives 200 with a key under `uploads/userdata/pdftestresults/` that ends in that name |

## Left out

- `crypto.randomUUID()`: its randomness is not modelled. The UUID is a parameter, and key uniqueness is stated for differing UUIDs.
- `getSignedUrl` and `S3Client`: the signing algorithm is a foreign library, and `sign` is an arbitrary total function. Its failures, which the handler does not catch, are not modelled.
- `JSON.parse` grammar: `parse` is a parameter. `JNumber` carries no value, because the handler never inspects a number.
- `JSON.stringify` of the response body and the constant CORS header map: the model returns the body as a datatype and has no headers.
- The integration harness (`tests/integration/*.ts`), including the paginated cleanup in `cleanup.ts`: these are network calls against a live deployment. The round trip and the cleanup are not part of this model.
- The CDK stacks under `lib/` and `bin/app.ts`: these are declarative resource wiring with no logic.
