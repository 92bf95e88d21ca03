/**
  The boundary that joins the JSON projection of an Artifact with the raw bytes
  of its content. SHA-256 and the UTF-8 decoder are parameters: any function
  from bytes to digests, and any decoder that replaces ill-formed sequences.
 */
module ArtifactBoundary {
  import opened Wrappers
  import opened Utf8
  import opened ArtifactFields

  type Digest = seq<Byte> -> Text
  type Decoder = seq<Byte> -> seq<Scalar>

  ghost predicate Replacing(decode: Decoder) {
    forall bytes :: Decodes(bytes, decode(bytes))
  }

  const MIME_KEYS := ["content_type", "mime_type"]
  const ENCODING_KEYS := ["content_encoding", "encoding"]
  const SIZE_KEYS := ["byte_size", "content_bytes"]

  /** What one record says about a content. */
  datatype Metadata = Metadata(mimeType: Text, encoding: Encoding, byteSize: nat, contentHash: Text)

  const SCOPE_CODE := "workspace_artifact_content_scope_invalid"
  const TRANSPORT_CODE := "workspace_artifact_content_transport_invalid"
  const CONTENT_CODE := "workspace_artifact_content_metadata_invalid"
  const ARTIFACT_CODE := "workspace_artifact_metadata_invalid"
  const REVISION_CODE := "workspace_artifact_revision_metadata_invalid"

  // ----- the checks --------------------------------------------------------

  predicate FieldIs(fields: Fields, key: string, expected: Option<Text>) {
    expected.None? || Field(fields, key) in {Undefined, Str(expected.value)}
  }

  predicate InScope(fields: Fields, scope: Scope) {
    && FieldIs(fields, "workspace_id", scope.workspaceId) && FieldIs(fields, "workspaceId", scope.workspaceId)
    && FieldIs(fields, "room_id", Some(scope.roomId)) && FieldIs(fields, "roomId", Some(scope.roomId))
  }

  /** The revision the response is about, if it names one. */
  function CheckRevision(response: Fields, revision: Option<Fields>, current: Option<Text>, scope: Scope): Result<()> {
    if revision.Some? then
      var id :- OpaqueId(Field(revision.value, "id"), "workspace_artifact_revision_response_invalid");
      var _ :- Need(Wanted(scope).None? || id == Wanted(scope).value, SCOPE_CODE);
      var _ :- Need(Wanted(scope).Some? || current.None? || id == current.value, SCOPE_CODE);
      Need(Field(response, "revision_id") in {Undefined, Str(id)}, SCOPE_CODE)
    else
      var named := Field(response, "revision_id");
      Need(Wanted(scope).None? && (named.Undefined? || (current.Some? && named == Str(current.value))), SCOPE_CODE)
  }

  /** An empty revision id counts as none. */
  function Wanted(scope: Scope): Option<Text> {
    if scope.revisionId == Some([]) then None else scope.revisionId
  }

  function CheckIdentity(response: Fields, artifact: Fields, metadata: Fields, revision: Option<Fields>, scope: Scope): Result<()> {
    var _ :- Need(InScope(response, scope) && InScope(artifact, scope), SCOPE_CODE);
    var _ :- Need(revision.None? || InScope(revision.value, scope), SCOPE_CODE);
    var _ :- Need(Field(artifact, "id") == Str(scope.artifactId)
                  && Field(response, "artifact_id") in {Undefined, Str(scope.artifactId)}, SCOPE_CODE);
    var _ :- Need(revision.None? || Field(revision.value, "artifact_id") == Str(scope.artifactId), SCOPE_CODE);
    var current :- OptionalOpaqueId(Field(metadata, "current_revision_id"), ARTIFACT_CODE);
    CheckRevision(response, revision, current, scope)
  }

  function ArtifactMetadata(fields: Fields): Result<Metadata> {
    var mimeType :- Declared(fields, MIME_KEYS, MimeType, ARTIFACT_CODE);
    var encoding :- Declared(fields, ENCODING_KEYS, EncodingOf, ARTIFACT_CODE);
    var byteSize :- Declared(fields, SIZE_KEYS, ByteSize, ARTIFACT_CODE);
    var contentHash :- Declared(fields, ["content_hash"], ContentHash, ARTIFACT_CODE);
    Ok(Metadata(mimeType, encoding, byteSize, contentHash))
  }

  function RevisionMetadata(fields: Fields): Result<Metadata> {
    var mimeType :- Declared(fields, ["mime_type"], MimeType, REVISION_CODE);
    var encoding :- Declared(fields, ["encoding"], EncodingOf, REVISION_CODE);
    var byteSize :- Declared(fields, SIZE_KEYS, ByteSize, REVISION_CODE);
    var contentHash :- Declared(fields, ["content_hash"], ContentHash, REVISION_CODE);
    Ok(Metadata(mimeType, encoding, byteSize, contentHash))
  }

  /** The metadata the raw content has to meet. */
  function ExpectedMetadata(response: Fields, metadata: Fields, revision: Option<Fields>, scope: Scope): Result<Metadata> {
    var mimeType :- MimeType(Field(response, "mime_type"), CONTENT_CODE);
    var encoding :- EncodingOf(Field(response, "encoding"), CONTENT_CODE);
    var _ :- Need(Field(response, "content").Str?, CONTENT_CODE);
    var fromArtifact :- ArtifactMetadata(metadata);
    if revision.Some? then
      var fromRevision :- RevisionMetadata(revision.value);
      var _ :- Need(mimeType == fromRevision.mimeType && encoding == fromRevision.encoding, CONTENT_CODE);
      var _ :- Need(Wanted(scope).Some? || fromArtifact == fromRevision, ARTIFACT_CODE);
      Ok(fromRevision)
    else
      var _ :- Need(mimeType == fromArtifact.mimeType && encoding == fromArtifact.encoding, CONTENT_CODE);
      Ok(fromArtifact)
  }

  predicate IsPrefix(prefix: Text, t: Text) { |prefix| <= |t| && t[..|prefix|] == prefix }

  /** Images and PDF documents are binary, and say so. */
  function CheckKind(kind: Value, m: Metadata): Result<()> {
    var image, pdf := kind == Str(Ascii("image")), kind == Str(Ascii("pdf"));
    var _ :- Need((image || pdf) ==> m.encoding.Binary?, "workspace_artifact_content_encoding_mismatch");
    var _ :- Need(image ==> IsPrefix(Ascii("image/"), m.mimeType), "workspace_artifact_content_mime_mismatch");
    Need(pdf ==> m.mimeType == Ascii("application/pdf"), "workspace_artifact_content_mime_mismatch")
  }

  function CheckContent(bytes: seq<Byte>, m: Metadata, content: Text, decode: Decoder): Result<()> {
    if m.encoding.Binary? then
      var _ :- Need(bytes != [], "workspace_artifact_binary_content_empty");
      Need(content == [], "workspace_artifact_binary_content_text")
    else
      var decoded := decode(bytes);
      var _ :- Need(Encode(decoded) == bytes, "workspace_artifact_content_utf8_invalid");
      Need(UnitsOf(decoded) == content, "workspace_artifact_content_text_mismatch")
  }

  function CheckRaw(raw: Fields, m: Metadata, content: Text, kind: Value, h: Digest, decode: Decoder): Result<seq<Byte>> {
    var bytes :- Bytes(Field(raw, "bytes"), TRANSPORT_CODE);
    var headers :- AsRecord(Field(raw, "headers"), TRANSPORT_CODE);
    var mimeType :- HeaderMimeType(Field(headers, "contentType"), TRANSPORT_CODE);
    var encoding :- EncodingOf(Field(headers, "contentEncoding"), TRANSPORT_CODE);
    var byteSize :- HeaderByteSize(Field(headers, "contentLength"));
    var _ :- Need(mimeType == m.mimeType, "workspace_artifact_content_mime_mismatch");
    var _ :- Need(encoding == m.encoding, "workspace_artifact_content_encoding_mismatch");
    var _ :- Need(byteSize == |bytes| && m.byteSize == |bytes|, "workspace_artifact_content_size_mismatch");
    var _ :- Need(m.contentHash == h(bytes), "workspace_artifact_content_hash_mismatch");
    var _ :- CheckKind(kind, m);
    var _ :- CheckContent(bytes, m, content, decode);
    Ok(bytes)
  }

  /** A field that need not be given, but means `x` if it is. */
  function CheckOptional<T(==)>(v: Value, norm: (Value, string) -> Result<T>, x: T, mismatch: string): Result<()> {
    if v.Undefined? then Ok(())
    else
      var given :- norm(v, CONTENT_CODE);
      Need(given == x, mismatch)
  }

  /** What the response itself declares about the bytes, where it does. */
  function CheckDeclared(response: Fields, bytes: seq<Byte>, h: Digest): Result<()> {
    var _ :- CheckOptional(Field(response, "content_bytes"), Bytes, bytes, "workspace_artifact_content_metadata_mismatch");
    var _ :- CheckOptional<nat>(Field(response, "byte_size"), ByteSize, |bytes|, "workspace_artifact_content_size_mismatch");
    CheckOptional(Field(response, "content_hash"), ContentHash, h(bytes), "workspace_artifact_content_hash_mismatch")
  }

  function Verify(responseValue: Value, rawValue: Value, scope: Scope, h: Digest, decode: Decoder): Result<Fields> {
    var response :- AsRecord(responseValue, "workspace_artifact_response_invalid");
    var raw :- AsRecord(rawValue, TRANSPORT_CODE);
    var artifact :- AsRecord(Field(response, "artifact"), "workspace_artifact_response_invalid");
    var metadata :- AsRecord(Field(artifact, "metadata"), ARTIFACT_CODE);
    var revision :- OptionalRecord(Field(response, "revision"));
    VerifyRecords(response, raw, artifact, metadata, revision, scope, h, decode)
  }

  function VerifyRecords(response: Fields, raw: Fields, artifact: Fields, metadata: Fields, revision: Option<Fields>,
                         scope: Scope, h: Digest, decode: Decoder): Result<Fields>
  {
    var _ :- CheckIdentity(response, artifact, metadata, revision, scope);
    var m :- ExpectedMetadata(response, metadata, revision, scope);
    var bytes :- CheckRaw(raw, m, Field(response, "content").text, Field(artifact, "kind"), h, decode);
    var _ :- CheckDeclared(response, bytes, h);
    Ok(response["content_bytes" := BytesValue(bytes)])
  }

  function OptionalRecord(v: Value): Result<Option<Fields>> {
    if v.Undefined? then Ok(None)
    else
      var fields :- AsRecord(v, "workspace_artifact_revision_response_invalid");
      Ok(Some(fields))
  }

  // ----- what acceptance means ---------------------------------------------

  /** The content an honest response is about. */
  datatype Content = Content(bytes: seq<Byte>, mimeType: Text, encoding: Encoding)

  function MetadataOf(c: Content, h: Digest): Metadata {
    Metadata(c.mimeType, c.encoding, |c.bytes|, h(c.bytes))
  }

  /** Text that encodes to exactly the bytes; or bytes that are not empty, without any text. */
  ghost predicate TextFits(c: Content, text: Text) {
    match c.encoding
    case Binary => c.bytes != [] && text == []
    case Utf8Text => exists decoded :: Encode(decoded) == c.bytes && UnitsOf(decoded) == text
  }

  predicate KindFits(kind: Value, c: Content) {
    && (kind == Str(Ascii("image")) ==> c.encoding.Binary? && Ascii("image/") <= c.mimeType)
    && (kind == Str(Ascii("pdf")) ==> c.encoding.Binary? && c.mimeType == Ascii("application/pdf"))
  }

  /** The record gives type, encoding, size and hash, each under one name at least, and under all of them alike. */
  predicate Describes(fields: Fields, mimeKeys: seq<string>, encodingKeys: seq<string>, m: Metadata) {
    && Tells(fields, mimeKeys, SpellsMimeType, m.mimeType)
    && Tells(fields, encodingKeys, SpellsEncoding, m.encoding)
    && Tells(fields, ["byte_size", "content_bytes"], SpellsSize, m.byteSize)
    && Tells(fields, ["content_hash"], SpellsHash, m.contentHash)
  }

  predicate ArtifactDescribes(fields: Fields, m: Metadata) {
    Describes(fields, ["content_type", "mime_type"], ["content_encoding", "encoding"], m)
  }

  predicate RevisionDescribes(fields: Fields, m: Metadata) {
    Describes(fields, ["mime_type"], ["encoding"], m)
  }

  /** The raw response carries the content and its headers say so. */
  predicate Carries(raw: Fields, c: Content) {
    && SpellsBytes(Field(raw, "bytes"), c.bytes) && Field(raw, "headers").Record?
    && var headers := Field(raw, "headers").fields;
    && SpellsHeaderMime(Field(headers, "contentType"), c.mimeType)
    && SpellsEncoding(Field(headers, "contentEncoding"), c.encoding)
    && SpellsHeaderSize(Field(headers, "contentLength"), |c.bytes|)
  }

  /** Where the response declares bytes, size or hash, they are those of the content. */
  predicate DeclaresOnly(response: Fields, c: Content, h: Digest) {
    var bytes, size, hash := Field(response, "content_bytes"), Field(response, "byte_size"), Field(response, "content_hash");
    && (bytes.Undefined? || SpellsBytes(bytes, c.bytes))
    && (size.Undefined? || SpellsSize(size, |c.bytes|))
    && (hash.Undefined? || SpellsHash(hash, h(c.bytes)))
  }

  /** Under none of these keys does the record name anything else. */
  predicate NamesOnly(fields: Fields, keys: seq<string>, id: Text) {
    forall i | 0 <= i < |keys| :: Field(fields, keys[i]).Undefined? || Field(fields, keys[i]) == Str(id)
  }

  predicate NamesPlace(fields: Fields, scope: Scope) {
    && (scope.workspaceId.Some? ==> NamesOnly(fields, ["workspace_id", "workspaceId"], scope.workspaceId.value))
    && NamesOnly(fields, ["room_id", "roomId"], scope.roomId)
  }

  /** A revision is asked for; an empty id asks for none. */
  predicate AsksForRevision(scope: Scope) { scope.revisionId.Some? && scope.revisionId.value != [] }

  /**
    All records speak of the Workspace, Room and Artifact asked for and of one
    revision `id`: the one asked for, or else the current one if the Artifact
    has one.
   */
  predicate SpeaksOf(response: Fields, artifact: Fields, metadata: Fields, revision: Option<Fields>, scope: Scope, id: Option<Text>) {
    var current := Field(metadata, "current_revision_id");
    && NamesPlace(response, scope) && NamesPlace(artifact, scope) && (revision.Some? ==> NamesPlace(revision.value, scope))
    && Field(artifact, "id") == Str(scope.artifactId) && NamesOnly(response, ["artifact_id"], scope.artifactId)
    && (revision.Some? ==> id.Some? && Field(revision.value, "artifact_id") == Str(scope.artifactId)
                           && Field(revision.value, "id") == Str(id.value) && IsIdText(id.value))
    && (current.Undefined? || (current.Str? && IsIdText(current.text)))
    && (Field(response, "revision_id").Undefined? || (id.Some? && Field(response, "revision_id") == Str(id.value)))
    && (if AsksForRevision(scope) then revision.Some? && id == scope.revisionId
        else if current.Str? then id == Some(current.text)
        else revision.None? ==> id.None?)
  }

  ghost predicate SpeakOfOne(response: Fields, artifact: Fields, metadata: Fields, revision: Option<Fields>, scope: Scope) {
    exists id: Option<Text> :: SpeaksOf(response, artifact, metadata, revision, scope, id)
  }

  function GivenRecord(v: Value): Option<Fields> {
    if v.Record? then Some(v.fields) else None
  }

  /** Both responses are in scope, and everything they say about the content is true of it. */
  ghost predicate Honest(response: Fields, raw: Fields, scope: Scope, c: Content, h: Digest) {
    && Field(response, "artifact").Record?
    && var artifact := Field(response, "artifact").fields;
    && Field(artifact, "metadata").Record?
    && var metadata := Field(artifact, "metadata").fields;
    && var revision := Field(response, "revision");
    && (revision.Undefined? || revision.Record?)
    && HonestRecords(response, raw, artifact, metadata, GivenRecord(revision), scope, c, h)
  }

  ghost predicate HonestRecords(response: Fields, raw: Fields, artifact: Fields, metadata: Fields, revision: Option<Fields>,
                                scope: Scope, c: Content, h: Digest)
  {
    && Carries(raw, c) && DeclaresOnly(response, c, h)
    && SpellsMimeType(Field(response, "mime_type"), c.mimeType)
    && SpellsEncoding(Field(response, "encoding"), c.encoding)
    && Field(response, "content").Str? && TextFits(c, Field(response, "content").text)
    && KindFits(Field(artifact, "kind"), c)
    && SpeakOfOne(response, artifact, metadata, revision, scope)
    && (revision.Some? ==> RevisionDescribes(revision.value, MetadataOf(c, h)))
    && (if revision.Some? && AsksForRevision(scope) then exists m: Metadata :: ArtifactDescribes(metadata, m)
        else ArtifactDescribes(metadata, MetadataOf(c, h)))
  }

  // ----- exactness ---------------------------------------------------------

  lemma PlaceIsExact(fields: Fields, scope: Scope)
    ensures InScope(fields, scope) <==> NamesPlace(fields, scope)
  {
    var rooms, workspaces := ["room_id", "roomId"], ["workspace_id", "workspaceId"];
    assert rooms[0] == "room_id" && rooms[1] == "roomId";
    assert workspaces[0] == "workspace_id" && workspaces[1] == "workspaceId";
  }

  lemma RevisionIsExact(response: Fields, artifact: Fields, metadata: Fields, revision: Option<Fields>, scope: Scope, id: Option<Text>)
    requires SpeaksOf(response, artifact, metadata, revision, scope, id)
    ensures var current := OptionalOpaqueId(Field(metadata, "current_revision_id"), ARTIFACT_CODE);
            current.Ok? && CheckRevision(response, revision, current.value, scope).Ok?
  {
    if revision.Some? { IdIsMeant(id.value); }
    if Field(metadata, "current_revision_id").Str? { IdIsMeant(Field(metadata, "current_revision_id").text); }
  }

  /** The identity checks pass exactly when all records speak of one revision of what was asked for. */
  lemma IdentityIsExact(response: Fields, artifact: Fields, metadata: Fields, revision: Option<Fields>, scope: Scope)
    ensures CheckIdentity(response, artifact, metadata, revision, scope).Ok?
            <==> SpeakOfOne(response, artifact, metadata, revision, scope)
  {
    PlaceIsExact(response, scope);
    PlaceIsExact(artifact, scope);
    if revision.Some? {
      PlaceIsExact(revision.value, scope);
    }
    var keys := ["artifact_id"];
    assert keys[0] == "artifact_id";
    if SpeakOfOne(response, artifact, metadata, revision, scope) {
      var id :| SpeaksOf(response, artifact, metadata, revision, scope, id);
      RevisionIsExact(response, artifact, metadata, revision, scope, id);
    }
    if CheckIdentity(response, artifact, metadata, revision, scope).Ok? {
      CheckedSpeaks(response, artifact, metadata, revision, scope);
    }
  }

  lemma CheckedSpeaks(response: Fields, artifact: Fields, metadata: Fields, revision: Option<Fields>, scope: Scope)
    requires CheckIdentity(response, artifact, metadata, revision, scope).Ok?
    requires NamesPlace(response, scope) && NamesPlace(artifact, scope) && (revision.Some? ==> NamesPlace(revision.value, scope))
    ensures SpeakOfOne(response, artifact, metadata, revision, scope)
  {
    var keys := ["artifact_id"];
    assert keys[0] == "artifact_id";
    var current := OptionalOpaqueId(Field(metadata, "current_revision_id"), ARTIFACT_CODE).value;
    var id := if revision.Some? then Some(Field(revision.value, "id").text) else current;
    if revision.Some? { IdIsMeant(id.value); }
    if current.Some? { IdIsMeant(current.value); }
    assert SpeaksOf(response, artifact, metadata, revision, scope, id);
  }

  lemma MimeIsTold(fields: Fields, keys: seq<string>, code: string, m: Text)
    ensures Declared(fields, keys, MimeType, code) == Ok(m) <==> Tells(fields, keys, SpellsMimeType, m)
  {
    DeclaredMeans(fields, keys, MimeType, code, m);
    forall v ensures MimeType(v, code) == Ok(m) <==> SpellsMimeType(v, m) { MimeTypeIsMeant(v, code, m); }
    SayingIsTelling(fields, keys, MimeType, code, SpellsMimeType, m);
  }

  lemma EncodingIsTold(fields: Fields, keys: seq<string>, code: string, e: Encoding)
    ensures Declared(fields, keys, EncodingOf, code) == Ok(e) <==> Tells(fields, keys, SpellsEncoding, e)
  {
    DeclaredMeans(fields, keys, EncodingOf, code, e);
    forall v ensures EncodingOf(v, code) == Ok(e) <==> SpellsEncoding(v, e) { EncodingIsMeant(v, code, e); }
    SayingIsTelling(fields, keys, EncodingOf, code, SpellsEncoding, e);
  }

  lemma SizeIsTold(fields: Fields, keys: seq<string>, code: string, n: nat)
    ensures Declared(fields, keys, ByteSize, code) == Ok(n) <==> Tells(fields, keys, SpellsSize, n)
  {
    DeclaredMeans(fields, keys, ByteSize, code, n);
    forall v ensures ByteSize(v, code) == Ok(n) <==> SpellsSize(v, n) { SizeIsMeant(v, code, n); }
    SayingIsTelling(fields, keys, ByteSize, code, SpellsSize, n);
  }

  lemma HashIsTold(fields: Fields, keys: seq<string>, code: string, hash: Text)
    ensures Declared(fields, keys, ContentHash, code) == Ok(hash) <==> Tells(fields, keys, SpellsHash, hash)
  {
    DeclaredMeans(fields, keys, ContentHash, code, hash);
    forall v ensures ContentHash(v, code) == Ok(hash) <==> SpellsHash(v, hash) { HashIsMeant(v, code, hash); }
    SayingIsTelling(fields, keys, ContentHash, code, SpellsHash, hash);
  }

  lemma MetadataIsDescribed(fields: Fields, m: Metadata)
    ensures ArtifactMetadata(fields) == Ok(m) <==> ArtifactDescribes(fields, m)
    ensures RevisionMetadata(fields) == Ok(m) <==> RevisionDescribes(fields, m)
  {
    MimeIsTold(fields, ["content_type", "mime_type"], ARTIFACT_CODE, m.mimeType);
    EncodingIsTold(fields, ["content_encoding", "encoding"], ARTIFACT_CODE, m.encoding);
    SizeIsTold(fields, ["byte_size", "content_bytes"], ARTIFACT_CODE, m.byteSize);
    HashIsTold(fields, ["content_hash"], ARTIFACT_CODE, m.contentHash);
    MimeIsTold(fields, ["mime_type"], REVISION_CODE, m.mimeType);
    EncodingIsTold(fields, ["encoding"], REVISION_CODE, m.encoding);
    SizeIsTold(fields, ["byte_size", "content_bytes"], REVISION_CODE, m.byteSize);
    HashIsTold(fields, ["content_hash"], REVISION_CODE, m.contentHash);
  }

  lemma MetadataIsDescribedIfAny(fields: Fields)
    ensures ArtifactMetadata(fields).Ok? <==> exists m: Metadata :: ArtifactDescribes(fields, m)
  {
    if ArtifactMetadata(fields).Ok? {
      MetadataIsDescribed(fields, ArtifactMetadata(fields).value);
    }
    if exists m: Metadata :: ArtifactDescribes(fields, m) {
      var m: Metadata :| ArtifactDescribes(fields, m);
      MetadataIsDescribed(fields, m);
    }
  }

  lemma ContentIsExact(c: Content, m: Metadata, text: Text, decode: Decoder)
    requires Replacing(decode) && m.encoding == c.encoding
    ensures CheckContent(c.bytes, m, text, decode).Ok? <==> TextFits(c, text)
  {
    if c.encoding.Utf8Text? {
      var decoded := decode(c.bytes);
      assert Decodes(c.bytes, decoded);
      RoundTripTestIsExact(c.bytes, decoded);
      if TextFits(c, text) {
        var sent :| Encode(sent) == c.bytes && UnitsOf(sent) == text;
        EncodeIsWellFormed(sent);
        EncodeIsInjective(sent, decoded);
      }
    }
  }

  lemma EncodeIsInjective(a: seq<Scalar>, b: seq<Scalar>)
    requires Encode(a) == Encode(b)
    ensures a == b
  {
    DecodeInvertsEncode(a);
    DecodeInvertsEncode(b);
  }

  lemma OptionalIsExact<T>(v: Value, norm: (Value, string) -> Result<T>, x: T, mismatch: string)
    ensures CheckOptional(v, norm, x, mismatch).Ok? <==> Agrees(v, norm, CONTENT_CODE, x)
  {
  }

  lemma AgreeingIsMeant(v: Value, bytes: seq<Byte>, n: nat, hash: Text)
    ensures Agrees(v, Bytes, CONTENT_CODE, bytes) <==> v.Undefined? || SpellsBytes(v, bytes)
    ensures Agrees(v, ByteSize, CONTENT_CODE, n) <==> v.Undefined? || SpellsSize(v, n)
    ensures Agrees(v, ContentHash, CONTENT_CODE, hash) <==> v.Undefined? || SpellsHash(v, hash)
  {
    BytesAreMeant(v, CONTENT_CODE, bytes);
    SizeIsMeant(v, CONTENT_CODE, n);
    HashIsMeant(v, CONTENT_CODE, hash);
  }

  lemma DeclaredIsExact(response: Fields, c: Content, h: Digest)
    ensures CheckDeclared(response, c.bytes, h).Ok? <==> DeclaresOnly(response, c, h)
  {
    OptionalIsExact(Field(response, "content_bytes"), Bytes, c.bytes, "workspace_artifact_content_metadata_mismatch");
    OptionalIsExact<nat>(Field(response, "byte_size"), ByteSize, |c.bytes|, "workspace_artifact_content_size_mismatch");
    OptionalIsExact(Field(response, "content_hash"), ContentHash, h(c.bytes), "workspace_artifact_content_hash_mismatch");
    AgreeingIsMeant(Field(response, "content_bytes"), c.bytes, |c.bytes|, h(c.bytes));
    AgreeingIsMeant(Field(response, "byte_size"), c.bytes, |c.bytes|, h(c.bytes));
    AgreeingIsMeant(Field(response, "content_hash"), c.bytes, |c.bytes|, h(c.bytes));
  }

  lemma KindIsExact(kind: Value, c: Content, m: Metadata)
    requires m.encoding == c.encoding && m.mimeType == c.mimeType
    ensures CheckKind(kind, m).Ok? <==> KindFits(kind, c)
  {
  }

  lemma RawIsExact(raw: Fields, c: Content, text: Text, kind: Value, h: Digest, decode: Decoder)
    requires Replacing(decode)
    ensures CheckRaw(raw, MetadataOf(c, h), text, kind, h, decode) == Ok(c.bytes)
            <==> Carries(raw, c) && KindFits(kind, c) && TextFits(c, text)
  {
    var m := MetadataOf(c, h);
    BytesAreMeant(Field(raw, "bytes"), TRANSPORT_CODE, c.bytes);
    KindIsExact(kind, c, m);
    ContentIsExact(c, m, text, decode);
    if Bytes(Field(raw, "bytes"), TRANSPORT_CODE) == Ok(c.bytes) && Field(raw, "headers").Record? {
      HeadersUnfold(raw, c, h, text, kind, decode);
      HeadersAreMeant(Field(raw, "headers").fields, c);
    } else {
      assert !Carries(raw, c);
      assert CheckRaw(raw, m, text, kind, h, decode) != Ok(c.bytes) by {
        OtherBytesAreNot(raw, c, m, text, kind, h, decode);
      }
    }
  }

  lemma OtherBytesAreNot(raw: Fields, c: Content, m: Metadata, text: Text, kind: Value, h: Digest, decode: Decoder)
    requires Bytes(Field(raw, "bytes"), TRANSPORT_CODE) != Ok(c.bytes) || !Field(raw, "headers").Record?
    ensures CheckRaw(raw, m, text, kind, h, decode) != Ok(c.bytes)
  {
  }

  lemma HeadersUnfold(raw: Fields, c: Content, h: Digest, text: Text, kind: Value, decode: Decoder)
    requires Bytes(Field(raw, "bytes"), TRANSPORT_CODE) == Ok(c.bytes) && Field(raw, "headers").Record?
    ensures CheckRaw(raw, MetadataOf(c, h), text, kind, h, decode) == Ok(c.bytes)
            <==>
            var headers := Field(raw, "headers").fields;
            && HeaderMimeType(Field(headers, "contentType"), TRANSPORT_CODE) == Ok(c.mimeType)
            && EncodingOf(Field(headers, "contentEncoding"), TRANSPORT_CODE) == Ok(c.encoding)
            && HeaderByteSize(Field(headers, "contentLength")) == Ok(|c.bytes|)
            && CheckKind(kind, MetadataOf(c, h)).Ok?
            && CheckContent(c.bytes, MetadataOf(c, h), text, decode).Ok?
  {
  }

  lemma HeadersAreMeant(headers: Fields, c: Content)
    ensures && HeaderMimeType(Field(headers, "contentType"), TRANSPORT_CODE) == Ok(c.mimeType)
            && EncodingOf(Field(headers, "contentEncoding"), TRANSPORT_CODE) == Ok(c.encoding)
            && HeaderByteSize(Field(headers, "contentLength")) == Ok(|c.bytes|)
            <==>
            && SpellsHeaderMime(Field(headers, "contentType"), c.mimeType)
            && SpellsEncoding(Field(headers, "contentEncoding"), c.encoding)
            && SpellsHeaderSize(Field(headers, "contentLength"), |c.bytes|)
  {
    HeaderMimeIsMeant(Field(headers, "contentType"), TRANSPORT_CODE, c.mimeType);
    EncodingIsMeant(Field(headers, "contentEncoding"), TRANSPORT_CODE, c.encoding);
    HeaderSizeIsMeant(Field(headers, "contentLength"), |c.bytes|);
  }

  // ----- the results -------------------------------------------------------

  lemma ExpectationIsSound(response: Fields, metadata: Fields, revision: Option<Fields>, scope: Scope, m: Metadata)
    ensures ExpectedMetadata(response, metadata, revision, scope) == Ok(m) <==>
            && SpellsMimeType(Field(response, "mime_type"), m.mimeType)
            && SpellsEncoding(Field(response, "encoding"), m.encoding)
            && Field(response, "content").Str?
            && (revision.Some? ==> RevisionDescribes(revision.value, m))
            && (if revision.Some? && AsksForRevision(scope) then exists a: Metadata :: ArtifactDescribes(metadata, a)
                else ArtifactDescribes(metadata, m))
  {
    MimeTypeIsMeant(Field(response, "mime_type"), CONTENT_CODE, m.mimeType);
    EncodingIsMeant(Field(response, "encoding"), CONTENT_CODE, m.encoding);
    MetadataIsDescribed(metadata, m);
    MetadataIsDescribedIfAny(metadata);
    if revision.Some? {
      MetadataIsDescribed(revision.value, m);
    }
    ExpectationUnfolds(response, metadata, revision, scope, m);
  }

  lemma ExpectationUnfolds(response: Fields, metadata: Fields, revision: Option<Fields>, scope: Scope, m: Metadata)
    ensures ExpectedMetadata(response, metadata, revision, scope) == Ok(m) <==>
            && MimeType(Field(response, "mime_type"), CONTENT_CODE) == Ok(m.mimeType)
            && EncodingOf(Field(response, "encoding"), CONTENT_CODE) == Ok(m.encoding)
            && Field(response, "content").Str?
            && (revision.Some? ==> RevisionMetadata(revision.value) == Ok(m))
            && (if revision.Some? && Wanted(scope).Some? then ArtifactMetadata(metadata).Ok?
                else ArtifactMetadata(metadata) == Ok(m))
  {
  }

  /** What an accepted response says about its content is true, and it is in scope. */
  lemma AcceptanceIsSound(response: Fields, raw: Fields, scope: Scope, h: Digest, decode: Decoder) returns (c: Content)
    requires Replacing(decode) && Verify(Record(response), Record(raw), scope, h, decode).Ok?
    ensures Honest(response, raw, scope, c, h)
    ensures Verify(Record(response), Record(raw), scope, h, decode) == Ok(response["content_bytes" := BytesValue(c.bytes)])
  {
    var artifact := Field(response, "artifact").fields;
    var metadata := Field(artifact, "metadata").fields;
    var revision := OptionalRecord(Field(response, "revision")).value;
    c := RecordsAreSound(response, raw, artifact, metadata, revision, scope, h, decode);
  }

  lemma RawMeetsMetadata(raw: Fields, m: Metadata, text: Text, kind: Value, h: Digest, decode: Decoder)
    requires CheckRaw(raw, m, text, kind, h, decode).Ok?
    ensures var bytes := CheckRaw(raw, m, text, kind, h, decode).value;
            m == MetadataOf(Content(bytes, m.mimeType, m.encoding), h)
  {
  }

  lemma RecordsAreSound(response: Fields, raw: Fields, artifact: Fields, metadata: Fields, revision: Option<Fields>,
                        scope: Scope, h: Digest, decode: Decoder) returns (c: Content)
    requires Replacing(decode) && VerifyRecords(response, raw, artifact, metadata, revision, scope, h, decode).Ok?
    ensures HonestRecords(response, raw, artifact, metadata, revision, scope, c, h)
    ensures VerifyRecords(response, raw, artifact, metadata, revision, scope, h, decode)
            == Ok(response["content_bytes" := BytesValue(c.bytes)])
  {
    IdentityIsExact(response, artifact, metadata, revision, scope);
    var m := ExpectedMetadata(response, metadata, revision, scope).value;
    var text, kind := Field(response, "content").text, Field(artifact, "kind");
    var bytes := CheckRaw(raw, m, text, kind, h, decode).value;
    c := Content(bytes, m.mimeType, m.encoding);
    RawMeetsMetadata(raw, m, text, kind, h, decode);
    ExpectationIsSound(response, metadata, revision, scope, m);
    RawIsExact(raw, c, text, kind, h, decode);
    DeclaredIsExact(response, c, h);
  }

  lemma RecordsAreAccepted(response: Fields, raw: Fields, artifact: Fields, metadata: Fields, revision: Option<Fields>,
                           scope: Scope, h: Digest, decode: Decoder, c: Content)
    requires Replacing(decode) && HonestRecords(response, raw, artifact, metadata, revision, scope, c, h)
    ensures VerifyRecords(response, raw, artifact, metadata, revision, scope, h, decode)
            == Ok(response["content_bytes" := BytesValue(c.bytes)])
  {
    IdentityIsExact(response, artifact, metadata, revision, scope);
    ExpectationIsSound(response, metadata, revision, scope, MetadataOf(c, h));
    RawIsExact(raw, c, Field(response, "content").text, Field(artifact, "kind"), h, decode);
    DeclaredIsExact(response, c, h);
  }

  lemma VerifyIsOfRecords(response: Fields, raw: Fields, artifact: Fields, metadata: Fields, revision: Option<Fields>,
                          scope: Scope, h: Digest, decode: Decoder)
    requires Field(response, "artifact") == Record(artifact) && Field(artifact, "metadata") == Record(metadata)
    requires OptionalRecord(Field(response, "revision")) == Ok(revision)
    ensures Verify(Record(response), Record(raw), scope, h, decode)
            == VerifyRecords(response, raw, artifact, metadata, revision, scope, h, decode)
  {
  }

  /** Every honest response is accepted. */
  lemma HonestIsAccepted(response: Fields, raw: Fields, scope: Scope, h: Digest, decode: Decoder, c: Content)
    requires Replacing(decode) && Honest(response, raw, scope, c, h)
    ensures Verify(Record(response), Record(raw), scope, h, decode) == Ok(response["content_bytes" := BytesValue(c.bytes)])
  {
    var artifact := Field(response, "artifact").fields;
    var metadata := Field(artifact, "metadata").fields;
    var revision := GivenRecord(Field(response, "revision"));
    RecordsAreAccepted(response, raw, artifact, metadata, revision, scope, h, decode, c);
    VerifyIsOfRecords(response, raw, artifact, metadata, revision, scope, h, decode);
  }

  lemma OtherFieldsStay(response: Fields, v: Value, key: string)
    requires |key| != |"content_bytes"|
    ensures Field(response["content_bytes" := v], key) == Field(response, key)
  {
  }

  /** Replacing the declared bytes by the verified ones keeps a response honest. */
  lemma OutputIsHonest(response: Fields, raw: Fields, scope: Scope, c: Content, h: Digest)
    requires Honest(response, raw, scope, c, h)
    ensures Honest(response["content_bytes" := BytesValue(c.bytes)], raw, scope, c, h)
  {
    var bytes := BytesValue(c.bytes);
    OtherFieldsStay(response, bytes, "artifact");
    OtherFieldsStay(response, bytes, "revision");
    OtherFieldsStay(response, bytes, "mime_type");
    OtherFieldsStay(response, bytes, "encoding");
    OtherFieldsStay(response, bytes, "content");
    OtherFieldsStay(response, bytes, "byte_size");
    OtherFieldsStay(response, bytes, "content_hash");
    var artifact, revision := Field(response, "artifact").fields, Field(response, "revision");
    IdentityStays(response, bytes, artifact, Field(artifact, "metadata").fields,
                  GivenRecord(revision), scope);
  }

  lemma IdentityStays(response: Fields, v: Value, artifact: Fields, metadata: Fields, revision: Option<Fields>, scope: Scope)
    requires SpeakOfOne(response, artifact, metadata, revision, scope)
    ensures SpeakOfOne(response["content_bytes" := v], artifact, metadata, revision, scope)
  {
    IdentityIsExact(response, artifact, metadata, revision, scope);
    IdentityIsExact(response["content_bytes" := v], artifact, metadata, revision, scope);
    ScopeStays(response, v, scope);
    OtherFieldsStay(response, v, "artifact_id");
    var current := OptionalOpaqueId(Field(metadata, "current_revision_id"), ARTIFACT_CODE);
    if current.Ok? {
      RevisionStays(response, v, revision, current.value, scope);
    }
  }

  lemma RevisionStays(response: Fields, v: Value, revision: Option<Fields>, current: Option<Text>, scope: Scope)
    ensures CheckRevision(response["content_bytes" := v], revision, current, scope)
            == CheckRevision(response, revision, current, scope)
  {
    OtherFieldsStay(response, v, "revision_id");
  }

  lemma ScopeStays(response: Fields, v: Value, scope: Scope)
    ensures InScope(response["content_bytes" := v], scope) <==> InScope(response, scope)
  {
    OtherFieldsStay(response, v, "workspace_id");
    OtherFieldsStay(response, v, "workspaceId");
    OtherFieldsStay(response, v, "room_id");
    OtherFieldsStay(response, v, "roomId");
  }

  lemma ReplacedTwice(response: Fields, v: Value)
    ensures response["content_bytes" := v]["content_bytes" := v] == response["content_bytes" := v]
  {
  }

  lemma HonestOutputIsAccepted(response: Fields, raw: Fields, scope: Scope, h: Digest, decode: Decoder, c: Content)
    requires Replacing(decode) && Honest(response, raw, scope, c, h)
    ensures var out := response["content_bytes" := BytesValue(c.bytes)];
            Verify(Record(out), Record(raw), scope, h, decode) == Ok(out)
  {
    OutputIsHonest(response, raw, scope, c, h);
    var out := response["content_bytes" := BytesValue(c.bytes)];
    HonestIsAccepted(out, raw, scope, h, decode, c);
    ReplacedTwice(response, BytesValue(c.bytes));
  }

  /** Feeding the output back with the same raw response returns it unchanged. */
  lemma OutputIsAcceptedAgain(response: Fields, raw: Fields, scope: Scope, h: Digest, decode: Decoder)
    requires Replacing(decode) && Verify(Record(response), Record(raw), scope, h, decode).Ok?
    ensures var out := Verify(Record(response), Record(raw), scope, h, decode);
            Verify(Record(out.value), Record(raw), scope, h, decode) == out
  {
    var c := AcceptanceIsSound(response, raw, scope, h, decode);
    HonestOutputIsAccepted(response, raw, scope, h, decode, c);
  }

  /** Accepted text content is well-formed UTF-8 for exactly the declared string. */
  lemma AcceptedTextIsExact(response: Fields, raw: Fields, scope: Scope, h: Digest, decode: Decoder) returns (c: Content)
    requires Replacing(decode) && Verify(Record(response), Record(raw), scope, h, decode).Ok?
    requires Field(response, "encoding") == Str(Ascii("utf8"))
    ensures Field(raw, "bytes") == BytesValue(c.bytes) && WellFormed(c.bytes)
    ensures Field(response, "content") == Str(UnitsOf(decode(c.bytes)))
  {
    c := AcceptanceIsSound(response, raw, scope, h, decode);
    assert Decodes(c.bytes, decode(c.bytes));
    var sent :| Encode(sent) == c.bytes && UnitsOf(sent) == Field(response, "content").text;
    EncodeIsWellFormed(sent);
    RoundTripTestIsExact(c.bytes, decode(c.bytes));
    EncodeIsInjective(sent, decode(c.bytes));
  }

  // ----- the byte array ----------------------------------------------------

  /** The index loop that copies a list of numbers into an array of bytes. */
  method ByteArray(v: Value, code: string) returns (r: Result<array<Byte>>)
    ensures Bytes(v, code).Err? ==> r.Err? && r.code == Bytes(v, code).code
    ensures Bytes(v, code).Ok? ==> r.Ok? && fresh(r.value) && r.value[..] == Bytes(v, code).value
  {
    if !v.List? {
      return Err(code);
    }
    if |v.items| > MAX_BYTES {
      return Err("workspace_artifact_content_too_large");
    }
    var output := new Byte[|v.items|];
    var index := 0;
    while index < |v.items|
      invariant 0 <= index <= |v.items|
      invariant forall i | 0 <= i < index :: IsByte(v.items[i]) && output[i] == ByteOf(v.items[i])
    {
      if !IsByte(v.items[index]) {
        return Err(code);
      }
      output[index] := ByteOf(v.items[index]);
      index := index + 1;
    }
    r := Ok(output);
  }
}
