/**
 * The presign request handler: checks its configuration, reads the JSON
 * body, takes the `filename` field, composes the object key and returns a
 * presigned PUT URL for exactly that key.
 *
 * Its collaborators are parameters: `parse` stands for `JSON.parse`
 * (returning `SyntaxError` where that throws), `uuid` for the value of
 * `crypto.randomUUID()`, and `sign` for `getSignedUrl` over a PUT request.
 */
module Presign {
  import opened Wrappers
  import opened JsText
  import opened Sanitize

  const DefaultKeyPrefix: JsString := Ascii("uploads/userdata/pdftestresults/")
  /** Every upload is attributed to this one identity until authentication exists. */
  const HardcodedUserId: JsString := Ascii("00000000-0000-0000-0000-000000000001")
  /** Lifetime of a presigned URL, in seconds. */
  const ExpiresInSeconds: nat := 3600

  const ConfigErrorMessage: JsString := Ascii("Server configuration error")
  const InvalidJsonMessage: JsString := Ascii("Invalid JSON body")
  const MissingFilenameMessage: JsString := Ascii("Missing or invalid \"filename\" in body")
  const FilenameProperty: JsString := Ascii("filename")

  /** The environment variables the handler reads; `None` is an unset variable. */
  datatype Environment = Environment(
    bucketName: Option<JsString>,
    region: Option<JsString>,
    keyPrefix: Option<JsString>)

  /** A value produced by `JSON.parse`. The handler never inspects a number, so `JNumber` carries none. */
  datatype Json =
    | JNull
    | JBool(b: bool)
    | JNumber
    | JString(s: JsString)
    | JArray(items: seq<Json>)
    | JObject(members: map<JsString, Json>)

  /** `JSON.parse(text)`: a value, or the `SyntaxError` it throws. */
  datatype ParseResult = SyntaxError | Parsed(value: Json)

  /** What the property read `body.filename` yields. */
  datatype PropertyRead = ReadThrows | Undefined | Defined(value: Json)

  /** The `PutObjectCommand` and expiry handed to the presigner. */
  datatype PutObjectRequest = PutObjectRequest(bucket: JsString, region: JsString, key: JsString, expiresIn: nat)

  /** The JSON object returned as the response body. */
  datatype ResponseBody = ErrorBody(error: JsString) | UrlAndKey(url: JsString, key: JsString)

  /** A returned response, or the `TypeError` that escapes the handler. */
  datatype Outcome = Response(statusCode: int, body: ResponseBody) | ThrowsTypeError

  /** A string value is truthy when it is defined and not empty: `undefined` and `''` are falsy. */
  predicate IsTruthy(v: Option<JsString>)
    ensures IsTruthy(v) <==> v != None && v != Some([])
  {
    v.Some? && v.value != []
  }

  /** The negation of `!bucketName || !region`; `KEY_PREFIX` plays no part. */
  predicate Configured(env: Environment)
    ensures Configured(env) <==>
      env.bucketName !in {None, Some([])} && env.region !in {None, Some([])}
  {
    IsTruthy(env.bucketName) && IsTruthy(env.region)
  }

  /** `process.env.KEY_PREFIX ?? DEFAULT_KEY_PREFIX`: only an unset variable falls back. */
  function KeyPrefix(env: Environment): (p: JsString)
    ensures env.keyPrefix.None? ==> p == DefaultKeyPrefix
    ensures env.keyPrefix.Some? ==> p == env.keyPrefix.value
  {
    env.keyPrefix.GetOr(DefaultKeyPrefix)
  }

  /** `event.body ? JSON.parse(event.body) : {}`: an absent or empty body reads as `{}`. */
  function ReadBody(eventBody: Option<JsString>, parse: JsString -> ParseResult): (r: ParseResult)
    ensures eventBody in {None, Some([])} ==> r == Parsed(JObject(map[]))
    ensures eventBody !in {None, Some([])} ==> r == parse(eventBody.value)
    ensures r.SyntaxError? ==> eventBody.Some? && eventBody.value != []
  {
    if IsTruthy(eventBody) then parse(eventBody.value) else Parsed(JObject(map[]))
  }

  /** `body.filename`: throws on `null`; only an object can carry the property. */
  function ReadFilename(body: Json): (r: PropertyRead)
    ensures r.ReadThrows? <==> body.JNull?
    ensures r.Defined? <==> body.JObject? && FilenameProperty in body.members
    ensures r.Defined? ==> r.value == body.members[FilenameProperty]
  {
    match body
    case JNull => ReadThrows
    case JObject(members) =>
      if FilenameProperty in members then Defined(members[FilenameProperty]) else Undefined
    case _ => Undefined
  }

  /** `${keyPrefix}${HARDCODED_USER_ID}-${uuid}-${safeName}`. */
  function ObjectKey(prefix: JsString, uuid: JsString, safeName: JsString): (key: JsString)
    ensures |key| == |prefix| + |HardcodedUserId| + |uuid| + |safeName| + 2
    ensures prefix <= key
    ensures EndsWith(key, safeName)
  {
    prefix + HardcodedUserId + [Hyphen] + uuid + [Hyphen] + safeName
  }

  // Classes of request, stated directly on the raw inputs.

  /** A non-empty body that `JSON.parse` rejects. */
  predicate IsMalformed(eventBody: Option<JsString>, parse: JsString -> ParseResult) {
    IsTruthy(eventBody) && parse(eventBody.value).SyntaxError?
  }

  /** A non-empty body that parses to `null`. */
  predicate IsNull(eventBody: Option<JsString>, parse: JsString -> ParseResult) {
    IsTruthy(eventBody) && parse(eventBody.value) == Parsed(JNull)
  }

  /** A body that parses to an object whose `filename` is the non-empty string `name`. */
  predicate NamesFile(eventBody: Option<JsString>, parse: JsString -> ParseResult, name: JsString) {
    && IsTruthy(eventBody)
    && parse(eventBody.value).Parsed?
    && parse(eventBody.value).value.JObject?
    && FilenameProperty in parse(eventBody.value).value.members
    && parse(eventBody.value).value.members[FilenameProperty] == JString(name)
    && name != []
  }

  /** The handler, from configuration to response, in the order of its checks. */
  function Handle(
    env: Environment,
    eventBody: Option<JsString>,
    parse: JsString -> ParseResult,
    uuid: JsString,
    sign: PutObjectRequest -> JsString): (o: Outcome)
    // 1. configuration first, whatever the request
    ensures !Configured(env) ==> o == Response(500, ErrorBody(ConfigErrorMessage))
    // 2. then the JSON syntax
    ensures Configured(env) && IsMalformed(eventBody, parse) ==>
      o == Response(400, ErrorBody(InvalidJsonMessage))
    // a `null` body is not caught
    ensures Configured(env) && IsNull(eventBody, parse) ==> o == ThrowsTypeError
    // 3. anything else without a usable filename
    ensures (&& Configured(env)
             && !IsMalformed(eventBody, parse)
             && !IsNull(eventBody, parse)
             && forall name :: !NamesFile(eventBody, parse, name))
      ==> o == Response(400, ErrorBody(MissingFilenameMessage))
    // success: a URL signed for exactly the composed key, and that key
    ensures forall name | Configured(env) && NamesFile(eventBody, parse, name) ::
      var key := ObjectKey(KeyPrefix(env), uuid, SanitizeFilename(name));
      o == Response(200, UrlAndKey(
        sign(PutObjectRequest(env.bucketName.value, env.region.value, key, ExpiresInSeconds)), key))
  {
    if !Configured(env) then Response(500, ErrorBody(ConfigErrorMessage))
    else
      match ReadBody(eventBody, parse)
      case SyntaxError => Response(400, ErrorBody(InvalidJsonMessage))
      case Parsed(body) =>
        match ReadFilename(body)
        case ReadThrows => ThrowsTypeError
        case Undefined => Response(400, ErrorBody(MissingFilenameMessage))
        case Defined(filename) =>
          if !filename.JString? || filename.s == [] then
            Response(400, ErrorBody(MissingFilenameMessage))
          else
            assert NamesFile(eventBody, parse, filename.s);
            var key := ObjectKey(KeyPrefix(env), uuid, SanitizeFilename(filename.s));
            var url := sign(PutObjectRequest(env.bucketName.value, env.region.value, key, ExpiresInSeconds));
            Response(200, UrlAndKey(url, key))
  }

  /** An absent or empty body is read as `{}`: a missing filename, not invalid JSON. */
  lemma EmptyBodyIsMissingFilename(
    env: Environment, eventBody: Option<JsString>, parse: JsString -> ParseResult,
    uuid: JsString, sign: PutObjectRequest -> JsString)
    requires Configured(env)
    requires eventBody == None || eventBody == Some([])
    ensures Handle(env, eventBody, parse, uuid, sign) == Response(400, ErrorBody(MissingFilenameMessage))
  {
  }

  /** The shape of `crypto.randomUUID()`: 36 lower-case hex digits and hyphens, hyphens at 8, 13, 18 and 23. */
  predicate IsUuid(u: JsString) {
    && |u| == 36
    && forall i | 0 <= i < 36 ::
         if i == 8 || i == 13 || i == 18 || i == 23 then u[i] == Hyphen
         else (0x30 <= u[i] <= 0x39 || 0x61 <= u[i] <= 0x66)
  }

  /** With a UUID token and a sanitized name, everything after the prefix is safe text without separators. */
  lemma {:induction false} ObjectKeyStaysUnderPrefix(prefix: JsString, uuid: JsString, safeName: JsString)
    requires IsUuid(uuid) && AllSafe(safeName)
    ensures AllSafe(ObjectKey(prefix, uuid, safeName)[|prefix|..])
    ensures NoSeparator(ObjectKey(prefix, uuid, safeName)[|prefix|..])
  {
    var rest := HardcodedUserId + [Hyphen] + uuid + [Hyphen] + safeName;
    assert ObjectKey(prefix, uuid, safeName) == prefix + rest;
    assert ObjectKey(prefix, uuid, safeName)[|prefix|..] == rest;
    assert AllSafe(HardcodedUserId);
    assert AllSafe(uuid);
    assert AllSafe(rest);
    SafeIsPlain(rest);
  }

  /**
   * A successful response carries the key it signed; the key starts with
   * the prefix and ends with the sanitized name, and with a UUID token
   * nothing after the prefix is a path separator, so the object stays
   * directly under the prefix.
   */
  lemma {:induction false} SuccessKeyShape(
    env: Environment, eventBody: Option<JsString>, parse: JsString -> ParseResult,
    uuid: JsString, sign: PutObjectRequest -> JsString, name: JsString)
    requires Configured(env) && NamesFile(eventBody, parse, name)
    ensures var o := Handle(env, eventBody, parse, uuid, sign);
      && o.Response? && o.statusCode == 200 && o.body.UrlAndKey?
      && o.body.url == sign(PutObjectRequest(env.bucketName.value, env.region.value, o.body.key, ExpiresInSeconds))
      && KeyPrefix(env) <= o.body.key
      && EndsWith(o.body.key, SanitizeFilename(name))
      && (IsUuid(uuid) ==> AllSafe(o.body.key[|KeyPrefix(env)|..]) && NoSeparator(o.body.key[|KeyPrefix(env)|..]))
  {
    var prefix, safeName := KeyPrefix(env), SanitizeFilename(name);
    var key := ObjectKey(prefix, uuid, safeName);
    assert Handle(env, eventBody, parse, uuid, sign).body.key == key;
    if IsUuid(uuid) {
      ObjectKeyStaysUnderPrefix(prefix, uuid, safeName);
    }
  }

  /** Keys that agree on prefix and sanitized name differ whenever their UUIDs differ. */
  lemma {:induction false} ObjectKeyInjective(prefix: JsString, u1: JsString, u2: JsString, name: JsString)
    requires ObjectKey(prefix, u1, name) == ObjectKey(prefix, u2, name)
    ensures u1 == u2
  {
    var k := ObjectKey(prefix, u1, name);
    var start := |prefix| + |HardcodedUserId| + 1;
    assert |u1| == |u2|;
    assert k[start..start + |u1|] == u1;
    assert ObjectKey(prefix, u2, name)[start..start + |u2|] == u2;
  }

  /**
   * Two successful requests (configured, with a body naming a file) that
   * differ only in the generated UUID get different keys.
   */
  lemma DistinctUuidsDistinctKeys(
    env: Environment, eventBody: Option<JsString>, parse: JsString -> ParseResult,
    u1: JsString, u2: JsString, sign: PutObjectRequest -> JsString, name: JsString)
    requires u1 != u2
    requires Configured(env) && NamesFile(eventBody, parse, name)
    ensures var o1, o2 := Handle(env, eventBody, parse, u1, sign), Handle(env, eventBody, parse, u2, sign);
      && o1.Response? && o1.statusCode == 200 && o1.body.UrlAndKey?
      && o2.Response? && o2.statusCode == 200 && o2.body.UrlAndKey?
      && o1.body.key != o2.body.key
  {
    var prefix, safeName := KeyPrefix(env), SanitizeFilename(name);
    if ObjectKey(prefix, u1, safeName) == ObjectKey(prefix, u2, safeName) {
      ObjectKeyInjective(prefix, u1, u2, safeName);
    }
  }

  /** The handler answers 200 exactly when it is configured and the body names a file. */
  lemma SucceedsExactlyWhenNamed(
    env: Environment, eventBody: Option<JsString>, parse: JsString -> ParseResult,
    uuid: JsString, sign: PutObjectRequest -> JsString)
    ensures var o := Handle(env, eventBody, parse, uuid, sign);
      (o.Response? && o.statusCode == 200) <==> (Configured(env) && exists name :: NamesFile(eventBody, parse, name))
  {
  }

  /**
   * The three rejected requests of the integration test. The bodies are
   * whatever non-empty texts `JSON.parse` reads as `{}` and as
   * `{"filename":""}`, and one it rejects (the test sends `not json`).
   */
  lemma IntegrationRejections(
    env: Environment, parse: JsString -> ParseResult, uuid: JsString, sign: PutObjectRequest -> JsString,
    noName: JsString, emptyName: JsString, notJson: JsString)
    requires Configured(env)
    requires noName != [] && parse(noName) == Parsed(JObject(map[]))
    requires emptyName != [] && parse(emptyName) == Parsed(JObject(map[FilenameProperty := JString([])]))
    requires notJson != [] && parse(notJson) == SyntaxError
    ensures Handle(env, Some(noName), parse, uuid, sign) == Response(400, ErrorBody(MissingFilenameMessage))
    ensures Handle(env, Some(emptyName), parse, uuid, sign) == Response(400, ErrorBody(MissingFilenameMessage))
    ensures Handle(env, Some(notJson), parse, uuid, sign) == Response(400, ErrorBody(InvalidJsonMessage))
  {
  }

  /**
   * The successful request of the integration test, against a deployment
   * whose key prefix is `uploads/userdata/pdftestresults/` (set explicitly or
   * by default): the body parses to
   * `{"filename":"integration-test.pdf"}`, and the answer is 200 with a key
   * under that prefix, ending in the unchanged name.
   */
  lemma IntegrationSuccess(
    env: Environment, body: JsString, parse: JsString -> ParseResult,
    uuid: JsString, sign: PutObjectRequest -> JsString, name: JsString)
    requires Configured(env) && KeyPrefix(env) == DefaultKeyPrefix
    requires name == Ascii("integration-test.pdf")
    requires body != [] && parse(body) == Parsed(JObject(map[FilenameProperty := JString(name)]))
    ensures var o := Handle(env, Some(body), parse, uuid, sign);
      && o.Response? && o.statusCode == 200 && o.body.UrlAndKey?
      && DefaultKeyPrefix <= o.body.key
      && EndsWith(o.body.key, name)
  {
    IntegrationNameExample(name);
    assert NamesFile(Some(body), parse, name);
    SuccessKeyShape(env, Some(body), parse, uuid, sign, name);
  }
}
