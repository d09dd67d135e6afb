/**
  The blob copy pipeline and what it tells the blob info cache: a source blob is validated against
  its digest while it is decrypted, decompressed, compressed and encrypted on the way to the
  destination, and (digest, digest of the uncompressed content) pairs are recorded.
 */
module BlobPipeline {
  import opened Common

  /** A compression algorithm; zstd:chunked is a variant of zstd. */
  datatype Algorithm = Algorithm(name: string, baseVariantName: string)

  /** Hashing, compression and encryption, as functions. */
  datatype Codecs = Codecs(
    digest: Bytes -> Digest,
    detect: Bytes -> Option<Algorithm>,
    compress: (Algorithm, Bytes) -> Bytes,
    decompress: (Algorithm, Bytes) -> Option<Bytes>,
    encrypt: Bytes -> Bytes,
    decrypt: Bytes -> Option<Bytes>)
  {
    /** The content of a blob as a consumer sees it: decompressed if it is detected as compressed. */
    function Uncompressed(b: Bytes): Option<Bytes> {
      var format := detect(b);
      if format.None? then Some(b) else decompress(format.value, b)
    }

    /** Compressed data is detected as such, and decompressing it gives back the original. */
    ghost predicate RoundTrips() {
      forall a, x :: detect(compress(a, x)).Some? && Uncompressed(compress(a, x)) == Some(x)
    }

    ghost predicate CollisionFree() {
      forall x, y :: digest(x) == digest(y) ==> x == y
    }

    /** u names the uncompressed content of the blob that d names. */
    ghost predicate TruePair(d: Digest, u: Digest) {
      exists b, v :: digest(b) == d && Uncompressed(b) == Some(v) && digest(v) == u
    }
  }

  // ----- The digesting reader -----

  datatype ReadError = NoError | EOF | OtherError

  /** Passes a stream on and compares its digest with the expected one at the end. */
  class DigestingReader {
    const digest: Bytes -> Digest
    const expectedDigest: Digest
    var hashed: Bytes
    var validationFailed: bool
    var validationSucceeded: bool
    ghost var ended: bool

    ghost predicate Valid() reads this {
      && (ended <==> validationFailed || validationSucceeded)
      && (validationSucceeded ==> digest(hashed) == expectedDigest)
      && (validationFailed ==> digest(hashed) != expectedDigest)
    }

    constructor (digest: Bytes -> Digest, expected: Digest)
      ensures Valid() && !ended && hashed == "" && this.digest == digest && expectedDigest == expected
    {
      this.digest, expectedDigest, hashed := digest, expected, "";
      validationFailed, validationSucceeded, ended := false, false, false;
    }

    /** `chunk` and `err` are what the source returned; a source that has ended stays at its end. */
    method Read(chunk: Bytes, err: ReadError) returns (data: Bytes, result: ReadError)
      requires Valid() && (ended ==> chunk == "" && err == EOF)
      modifies this
      ensures Valid() && (ended <==> old(ended) || err == EOF)
      ensures hashed == old(hashed) + chunk
      ensures result == EOF <==> ended && validationSucceeded
      ensures ended && !validationSucceeded ==> validationFailed && result == OtherError && data == ""
      ensures !ended ==> data == chunk && result == err
      ensures result == EOF ==> data == chunk
    {
      assert hashed + "" == hashed;
      hashed := hashed + chunk;
      if err == EOF {
        ended := true;
        if digest(hashed) != expectedDigest {
          validationFailed := true;
          return "", OtherError;
        }
        validationSucceeded := true;
      }
      return chunk, err;
    }
  }

  /** Reads a source to its end through the reader: the consumer sees the end only of what was expected. */
  method Drain(r: DigestingReader, chunks: seq<Bytes>) returns (data: Bytes, result: ReadError)
    requires r.Valid() && !r.ended && r.hashed == ""
    modifies r
    ensures r.Valid()
    ensures r.hashed == Concat(chunks)
    ensures result == EOF <==> r.digest(Concat(chunks)) == r.expectedDigest
    ensures result == EOF <==> r.validationSucceeded
    ensures result == EOF ==> data == Concat(chunks)
  {
    data := "";
    for i := 0 to |chunks|
      invariant r.Valid() && !r.ended
      invariant data == r.hashed == Concat(chunks[..i])
    {
      assert chunks[..i + 1][..i] == chunks[..i];
      var d, e := r.Read(chunks[i], NoError);
      data := data + d;
    }
    assert chunks[..|chunks|] == chunks;
    var _, e := r.Read("", EOF);
    assert r.hashed == Concat(chunks);
    result := e;
  }

  function Concat(chunks: seq<Bytes>): Bytes {
    if chunks == [] then "" else Concat(chunks[..|chunks| - 1]) + chunks[|chunks| - 1]
  }

  // ----- The pipeline steps -----

  datatype Operation =
    | PreserveOpaque | PreserveCompressed | PreserveUncompressed
    | CompressUncompressed | RecompressCompressed | DecompressCompressed

  /** What the copy is configured to do. */
  datatype Setup = Setup(
    codecs: Codecs,
    desired: LayerCompression,           // the destination's DesiredLayerCompression
    format: Option<Algorithm>,           // the compression format asked for
    canModifyManifest: bool,
    decryptConfigured: bool,
    encryptConfigured: bool)

  /** What the manifest says about a source blob. */
  datatype SourceInfo = SourceInfo(
    digest: Digest,
    encryptedType: bool,                 // the media type ends in "+encrypted"
    canChangeCompression: bool,          // CanChangeLayerCompression of the media type
    hasTOC: bool)                        // there is a zstd:chunked TOC annotation

  const ZSTD := Algorithm("zstd", "zstd")
  const ZSTD_CHUNKED := Algorithm("zstd:chunked", "zstd")
  const GZIP := Algorithm("gzip", "gzip")

  /** The format reported by the detection step. */
  function DetectedFormat(c: Codecs, content: Bytes, hasTOC: bool): Option<Algorithm> {
    var f := c.detect(content);
    if f.Some? && f.value.name == "zstd" && hasTOC then Some(ZSTD_CHUNKED) else f
  }

  /** Whether a different compression format than the detected one was asked for. */
  predicate WantsOtherFormat(wanted: Option<Algorithm>, detected: Algorithm) {
    wanted.Some? && wanted.value.name != detected.name && wanted.value.name != detected.baseVariantName
  }

  /** The operation that the compression step performs. */
  function ChooseOperation(s: Setup, info: SourceInfo, canModifyBlob: bool, detected: Option<Algorithm>): Operation {
    if canModifyBlob && info.canChangeCompression && info.encryptedType then PreserveOpaque
    else if canModifyBlob && info.canChangeCompression && s.desired == Compress && detected.None? then CompressUncompressed
    else if canModifyBlob && info.canChangeCompression && s.desired == Compress && detected.Some?
            && WantsOtherFormat(s.format, detected.value) then RecompressCompressed
    else if canModifyBlob && info.canChangeCompression && s.desired == Decompress && detected.Some? then DecompressCompressed
    else if !info.canChangeCompression then PreserveOpaque
    else if detected.Some? then PreserveCompressed
    else PreserveUncompressed
  }

  /** A format was asked for that is neither the format of the content nor the one it is a variant of. */
  predicate AsksForOther(wanted: Option<Algorithm>, format: Algorithm, hasTOC: bool) {
    wanted.Some? &&
    if format.name == "zstd" && hasTOC then wanted.value.name !in {"zstd:chunked", "zstd"}
    else wanted.value.name !in {format.name, format.baseVariantName}
  }

  /**
    What the configuration demands for a blob, by what is detected in it: the operation that is done, and
    what comes out; None if the content can not be decompressed. A blob that may not be modified, or that
    is of a type that is encrypted or that can not be changed, is left as it is.
   */
  predicate AsConfigured(s: Setup, info: SourceInfo, canModifyBlob: bool, before: Bytes, op: Operation, after: Option<Bytes>) {
    var (c, format) := (s.codecs, s.codecs.detect(before));
    if canModifyBlob && info.canChangeCompression && !info.encryptedType && s.desired == Compress && format.None? then
      op == CompressUncompressed
      && after == Some(c.compress(if s.format.Some? then s.format.value else Algorithm("gzip", "gzip"), before))
    else if canModifyBlob && info.canChangeCompression && !info.encryptedType && s.desired == Compress
            && AsksForOther(s.format, format.value, info.hasTOC) then
      op == RecompressCompressed
      && after == if c.Uncompressed(before).Some? then Some(c.compress(s.format.value, c.Uncompressed(before).value)) else None
    else if canModifyBlob && info.canChangeCompression && !info.encryptedType && s.desired == Decompress && format.Some? then
      op == DecompressCompressed && after == c.Uncompressed(before)
    else
      && after == Some(before)
      && op == if !info.canChangeCompression || (canModifyBlob && info.encryptedType) then PreserveOpaque
               else if format.Some? then PreserveCompressed else PreserveUncompressed
  }

  /** The operation that is chosen, and what it makes of the content, are the ones that the configuration demands. */
  lemma ChoiceIsAsConfigured(s: Setup, info: SourceInfo, canModifyBlob: bool, b: Bytes)
    ensures var op := ChooseOperation(s, info, canModifyBlob, DetectedFormat(s.codecs, b, info.hasTOC));
            AsConfigured(s, info, canModifyBlob, b, op, Transform(s, op, b))
  {
  }

  /** A stream under construction: the bytes it will deliver, and their digest if it is known. */
  class SourceStream {
    var content: Bytes
    var digest: Option<Digest>

    constructor (content: Bytes, digest: Digest)
      ensures this.content == content && this.digest == Some(digest)
    {
      this.content, this.digest := content, Some(digest);
    }

    /** Decrypts the stream if it is encrypted and a key is configured. */
    method DecryptionStep(s: Setup, info: SourceInfo) returns (r: Result<bool, Error>)
      modifies this
      ensures r.Ok? && r.value ==>
                s.canModifyManifest && s.codecs.decrypt(old(content)) == Some(content) && digest.None?
      ensures r.Ok? ==> r.value == (info.encryptedType && s.decryptConfigured)
      ensures r.Err? || !r.value ==> content == old(content) && digest == old(digest)
      ensures r.Err? <==> info.encryptedType && s.decryptConfigured && (!s.canModifyManifest || s.codecs.decrypt(old(content)).None?)
      ensures r.Err? ==> r.error == if s.canModifyManifest then DecryptionFailed else CannotModifyManifest
    {
      if !info.encryptedType || !s.decryptConfigured { return Ok(false); }
      if !s.canModifyManifest { return Err(CannotModifyManifest); }
      var plain := s.codecs.decrypt(content);
      if plain.None? { return Err(DecryptionFailed); }
      content, digest := plain.value, None;
      return Ok(true);
    }

    /** Compresses or decompresses the stream, or leaves it alone. */
    method CompressionStep(s: Setup, info: SourceInfo, canModifyBlob: bool, detected: Option<Algorithm>)
      returns (r: Result<Operation, Error>)
      requires detected == DetectedFormat(s.codecs, content, info.hasTOC)
      modifies this
      ensures r.Ok? ==> AsConfigured(s, info, canModifyBlob, old(content), r.value, Some(content))
      ensures r.Err? ==> AsConfigured(s, info, canModifyBlob, old(content), ChooseOperation(s, info, canModifyBlob, detected), None)
      ensures r.Ok? ==> r.value == ChooseOperation(s, info, canModifyBlob, detected)
      ensures r.Ok? ==> Transform(s, r.value, old(content)) == Some(content)
      ensures r.Ok? ==> digest == if IsPreserve(r.value) then old(digest) else None
      ensures r.Err? ==> Transform(s, ChooseOperation(s, info, canModifyBlob, detected), old(content)).None? && r.error == DecompressionFailed
    {
      var op := ChooseOperation(s, info, canModifyBlob, detected);
      ChoiceIsAsConfigured(s, info, canModifyBlob, content);
      match op {
        case CompressUncompressed =>
          content, digest := s.codecs.compress(if s.format.Some? then s.format.value else GZIP, content), None;
        case RecompressCompressed =>
          var plain := s.codecs.Uncompressed(content);
          if plain.None? { return Err(DecompressionFailed); }
          content, digest := s.codecs.compress(s.format.value, plain.value), None;
        case DecompressCompressed =>
          var plain := s.codecs.Uncompressed(content);
          if plain.None? { return Err(DecompressionFailed); }
          content, digest := plain.value, None;
        case _ =>
      }
      return Ok(op);
    }

    /** Encrypts the stream if that was asked for. */
    method EncryptionStep(s: Setup, info: SourceInfo, toEncrypt: bool) returns (r: Result<bool, Error>)
      modifies this
      ensures r.Ok? ==> r.value == (toEncrypt && !info.encryptedType && s.encryptConfigured)
      ensures r.Ok? && r.value ==> content == s.codecs.encrypt(old(content)) && digest.None?
      ensures r.Err? || !r.value ==> content == old(content) && digest == old(digest)
      ensures r.Err? <==> toEncrypt && !info.encryptedType && s.encryptConfigured && !s.canModifyManifest
      ensures r.Err? ==> r.error == CannotModifyManifest
    {
      if !toEncrypt || info.encryptedType || !s.encryptConfigured { return Ok(false); }
      if !s.canModifyManifest { return Err(CannotModifyManifest); }
      content, digest := s.codecs.encrypt(content), None;
      return Ok(true);
    }
  }

  predicate IsPreserve(op: Operation) {
    op.PreserveOpaque? || op.PreserveCompressed? || op.PreserveUncompressed?
  }

  /** What each operation makes of the content; None if the content can not be decompressed. */
  function Transform(s: Setup, op: Operation, b: Bytes): Option<Bytes> {
    match op
    case CompressUncompressed => Some(s.codecs.compress(if s.format.Some? then s.format.value else GZIP, b))
    case RecompressCompressed =>
      var plain := s.codecs.Uncompressed(b);
      if plain.None? || s.format.None? then None else Some(s.codecs.compress(s.format.value, plain.value))
    case DecompressCompressed => s.codecs.Uncompressed(b)
    case _ => Some(b)
  }

  datatype Error =
    | CannotModifyManifest | DecryptionFailed | DecompressionFailed | DecryptAndEncrypt
    | PutFailed | DigestMismatch | SavedWithOtherDigest

  function ErrorOf<T, E>(r: Result<T, E>): Option<E> { if r.Ok? then None else Some(r.error) }

  // ----- The cache -----

  type Pair = (Digest, Digest)

  /** The pairs that recordValidatedDigestData records, if the source was validated. */
  function PairsToRecord(op: Operation, encrypting: bool, decrypting: bool, src: Digest, uploaded: Digest): seq<Pair> {
    if encrypting || decrypting then [] else
      match op
      case CompressUncompressed => [(uploaded, src)]
      case DecompressCompressed => [(src, uploaded)]
      case PreserveUncompressed => [(src, src)]
      case _ => []
  }

  ghost predicate AllTrue(c: Codecs, ps: seq<Pair>) {
    forall i :: 0 <= i < |ps| ==> c.TruePair(ps[i].0, ps[i].1)
  }

  /** Whatever operation is chosen for a blob, the pair recorded for it is true. */
  lemma RecordedPairsAreTrue(s: Setup, info: SourceInfo, canModifyBlob: bool, b: Bytes)
    requires s.codecs.RoundTrips()
    ensures var op := ChooseOperation(s, info, canModifyBlob, DetectedFormat(s.codecs, b, info.hasTOC));
            Transform(s, op, b).Some? ==>
              AllTrue(s.codecs, PairsToRecord(op, false, false, s.codecs.digest(b), s.codecs.digest(Transform(s, op, b).value)))
  {
    var c := s.codecs;
    var op := ChooseOperation(s, info, canModifyBlob, DetectedFormat(c, b, info.hasTOC));
    if Transform(s, op, b).Some? {
      var after := Transform(s, op, b).value;
      match op
      case CompressUncompressed => assert c.Uncompressed(after) == Some(b) && c.TruePair(c.digest(after), c.digest(b));
      case DecompressCompressed => assert c.Uncompressed(b) == Some(after) && c.TruePair(c.digest(b), c.digest(after));
      case PreserveUncompressed => assert c.Uncompressed(b) == Some(b) && c.TruePair(c.digest(b), c.digest(b));
      case _ =>
    }
  }

  /** The blob's uncompressed content is not detected as compressed in turn. */
  ghost predicate SinglyCompressed(c: Codecs, b: Bytes) {
    c.Uncompressed(b).Some? ==> c.Uncompressed(c.Uncompressed(b).value) == c.Uncompressed(b)
  }

  /** The digest does not name anything that is detected as compressed. */
  ghost predicate NamesPlain(c: Codecs, u: Digest) {
    forall v {:trigger c.digest(v)} :: c.digest(v) == u ==> c.Uncompressed(v) == Some(v)
  }

  ghost predicate AllPlain(c: Codecs, ps: seq<Pair>) {
    forall i :: 0 <= i < |ps| ==> NamesPlain(c, ps[i].1)
  }

  /** A copy of a singly compressed blob records plain content as uncompressed, and nothing else. */
  lemma RecordedPairsArePlain(s: Setup, info: SourceInfo, canModifyBlob: bool, b: Bytes)
    requires s.codecs.CollisionFree() && SinglyCompressed(s.codecs, b)
    ensures var op := ChooseOperation(s, info, canModifyBlob, DetectedFormat(s.codecs, b, info.hasTOC));
            Transform(s, op, b).Some? ==>
              AllPlain(s.codecs, PairsToRecord(op, false, false, s.codecs.digest(b), s.codecs.digest(Transform(s, op, b).value)))
  {
  }

  /** What the in-memory cache holds. */
  datatype Contents = Contents(
    uncompressedDigests: map<Digest, Digest>,
    digestsByUncompressed: map<Digest, set<Digest>>)
  {
    function Record(d: Digest, u: Digest): Contents {
      Contents(uncompressedDigests[d := u],
               digestsByUncompressed[u := (if u in digestsByUncompressed then digestsByUncompressed[u] else {}) + {d}])
    }

    function RecordAll(ps: seq<Pair>): Contents
      decreases |ps|
    {
      if ps == [] then this else Record(ps[0].0, ps[0].1).RecordAll(ps[1..])
    }

    /** d is listed among the digests of blobs with this uncompressed digest. */
    predicate Lists(u: Digest, d: Digest) { u in digestsByUncompressed && d in digestsByUncompressed[u] }

    function Lookup(d: Digest): Option<Digest> {
      if d in uncompressedDigests then Some(uncompressedDigests[d])
      else if d in digestsByUncompressed && digestsByUncompressed[d] != {} then Some(d)
      else None
    }

    /** Everything in the cache comes from true pairs. */
    ghost predicate Sound(c: Codecs) {
      && (forall d :: d in uncompressedDigests ==> c.TruePair(d, uncompressedDigests[d]))
      && (forall u, d :: u in digestsByUncompressed && d in digestsByUncompressed[u] ==> c.TruePair(d, u))
    }

    /** Every answer names the uncompressed content of the blob asked about. */
    ghost predicate AnswersTruly(c: Codecs) {
      forall b {:trigger c.digest(b)} :: Lookup(c.digest(b)).Some? ==> IsDiffID(c, b, Lookup(c.digest(b)).value)
    }
  }

  predicate IsDiffID(c: Codecs, b: Bytes, u: Digest) {
    c.Uncompressed(b).Some? && c.digest(c.Uncompressed(b).value) == u
  }

  /** Recording true pairs, from whatever copies and in whatever order, keeps the cache sound. */
  lemma {:induction false} RecordingKeepsSound(c: Codecs, m: Contents, ps: seq<Pair>)
    requires m.Sound(c) && AllTrue(c, ps)
    ensures m.RecordAll(ps).Sound(c)
    decreases |ps|
  {
    if ps != [] {
      assert c.TruePair(ps[0].0, ps[0].1);
      RecordingKeepsSound(c, m.Record(ps[0].0, ps[0].1), ps[1..]);
    }
  }

  /**
    Cache soundness over every run: however the records of any number of copies are interleaved,
    every pair in the cache is true, and with a collision-free digest no record replaces another.
   */
  lemma EveryRunIsSound(c: Codecs, copies: seq<seq<Pair>>, merged: seq<Pair>)
    requires forall i :: 0 <= i < |copies| ==> AllTrue(c, copies[i])
    requires forall j :: 0 <= j < |merged| ==> exists i :: 0 <= i < |copies| && merged[j] in copies[i]
    ensures Contents(map[], map[]).RecordAll(merged).Sound(c)
    ensures c.CollisionFree() ==>
              forall k :: 0 <= k <= |merged| ==>
                Keeps(Contents(map[], map[]).RecordAll(merged[..k]), Contents(map[], map[]).RecordAll(merged))
  {
    var empty := Contents(map[], map[]);
    assert AllTrue(c, merged);
    RecordingKeepsSound(c, empty, merged);
    if c.CollisionFree() {
      forall k | 0 <= k <= |merged|
        ensures Keeps(empty.RecordAll(merged[..k]), empty.RecordAll(merged))
      {
        RecordingKeepsSound(c, empty, merged[..k]);
        RecordAllSplits(empty, merged, k);
        RecordingReplacesNothing(c, empty.RecordAll(merged[..k]), merged[k..]);
      }
    }
  }

  /** What was recorded is still there, unchanged. */
  ghost predicate Keeps(m: Contents, later: Contents) {
    forall d :: d in m.uncompressedDigests ==>
      d in later.uncompressedDigests && later.uncompressedDigests[d] == m.uncompressedDigests[d]
  }

  lemma {:induction false} RecordAllSplits(m: Contents, ps: seq<Pair>, k: nat)
    requires k <= |ps|
    ensures m.RecordAll(ps) == m.RecordAll(ps[..k]).RecordAll(ps[k..])
    decreases |ps|
  {
    if k == 0 {
      assert ps[0..] == ps;
    } else {
      assert ps[..k][1..] == ps[1..][..k - 1] && ps[k..] == ps[1..][k - 1..];
      RecordAllSplits(m.Record(ps[0].0, ps[0].1), ps[1..], k - 1);
    }
  }

  /** With a collision-free digest a record never replaces a different one. */
  lemma {:induction false} RecordingReplacesNothing(c: Codecs, m: Contents, ps: seq<Pair>)
    requires c.CollisionFree() && m.Sound(c) && AllTrue(c, ps)
    ensures Keeps(m, m.RecordAll(ps))
    decreases |ps|
  {
    if ps != [] {
      var (d, u) := ps[0];
      assert c.TruePair(d, u);
      assert d in m.uncompressedDigests ==> c.TruePair(d, m.uncompressedDigests[d]);
      RecordingKeepsSound(c, m, [ps[0]]);
      assert m.RecordAll([ps[0]]) == m.Record(d, u) by {
        assert [ps[0]][1..] == [];
      }
      RecordingReplacesNothing(c, m.Record(d, u), ps[1..]);
    }
  }

  /**
    A digest recorded as uncompressed is answered with itself. That is the truth exactly if no
    recorded uncompressed content, of which nothing else is known, is detected as compressed in turn.
   */
  lemma AnswersTrulyExactlyIf(c: Codecs, m: Contents)
    requires c.CollisionFree() && m.Sound(c)
    ensures m.AnswersTruly(c) <==>
              forall v {:trigger c.digest(v)} ::
                var u := c.digest(v);
                u !in m.uncompressedDigests && u in m.digestsByUncompressed && m.digestsByUncompressed[u] != {} ==>
                  c.Uncompressed(v) == Some(v)
  {
    forall b | Explicit(c, m, b)
      ensures IsDiffID(c, b, m.Lookup(c.digest(b)).value)
    {
      assert c.TruePair(c.digest(b), m.uncompressedDigests[c.digest(b)]);
    }
    if m.AnswersTruly(c) {
      forall v {:trigger c.digest(v)} | var u := c.digest(v);
                   u !in m.uncompressedDigests && u in m.digestsByUncompressed && m.digestsByUncompressed[u] != {}
        ensures c.Uncompressed(v) == Some(v)
      {
        assert m.Lookup(c.digest(v)) == Some(c.digest(v));
        assert IsDiffID(c, v, c.digest(v));
      }
    }
  }

  predicate Explicit(c: Codecs, m: Contents, b: Bytes) { c.digest(b) in m.uncompressedDigests }

  /** Copying a doubly compressed blob to a destination that wants no compression misleads the cache about the inner one. */
  lemma DoublyCompressedBlobMisleads(s: Setup, info: SourceInfo, a: Algorithm, p: Bytes)
    requires s.codecs.CollisionFree() && s.codecs.RoundTrips() && s.codecs.compress(a, p) != p
    requires s.desired == Decompress && info.canChangeCompression && !info.encryptedType
    ensures var c := s.codecs;
            var inner := c.compress(a, p);
            var outer := c.compress(a, inner);
            var op := ChooseOperation(s, info, true, DetectedFormat(c, outer, info.hasTOC));
            Transform(s, op, outer) == Some(inner) &&
              var m := Contents(map[], map[]).RecordAll(PairsToRecord(op, false, false, c.digest(outer), c.digest(inner)));
              m.Sound(c) && m.Lookup(c.digest(inner)) == Some(c.digest(inner)) && !IsDiffID(c, inner, c.digest(inner))
  {
    var c := s.codecs;
    var inner := c.compress(a, p);
    var outer := c.compress(a, inner);
    assert c.Uncompressed(outer) == Some(inner) && c.Uncompressed(inner) == Some(p);
    assert c.TruePair(c.digest(outer), c.digest(inner));
    assert c.digest(inner) != c.digest(outer);
    var ps := [(c.digest(outer), c.digest(inner))];
    RecordingKeepsSound(c, Contents(map[], map[]), ps);
    assert ps[1..] == [];
  }

  /** Everything in the cache is true, and what is recorded as uncompressed is plain. */
  ghost predicate Truthful(c: Codecs, m: Contents) {
    m.Sound(c) && forall u :: u in m.digestsByUncompressed ==> NamesPlain(c, u)
  }

  lemma TruthfulAnswersTruly(c: Codecs, m: Contents)
    requires c.CollisionFree() && Truthful(c, m)
    ensures m.AnswersTruly(c)
  {
    AnswersTrulyExactlyIf(c, m);
  }

  lemma {:induction false} RecordingKeepsTruthful(c: Codecs, m: Contents, ps: seq<Pair>)
    requires Truthful(c, m) && AllTrue(c, ps) && AllPlain(c, ps)
    ensures Truthful(c, m.RecordAll(ps))
    decreases |ps|
  {
    if ps != [] {
      assert c.TruePair(ps[0].0, ps[0].1) && NamesPlain(c, ps[0].1);
      RecordingKeepsTruthful(c, m.Record(ps[0].0, ps[0].1), ps[1..]);
    }
  }

  /**
    Over every run of copies of singly compressed blobs, however their records are interleaved,
    the cache answers truly at every moment.
   */
  lemma EveryRunAnswersTruly(c: Codecs, copies: seq<seq<Pair>>, merged: seq<Pair>, k: nat)
    requires c.CollisionFree() && k <= |merged|
    requires forall i :: 0 <= i < |copies| ==> AllTrue(c, copies[i]) && AllPlain(c, copies[i])
    requires forall j :: 0 <= j < |merged| ==> exists i :: 0 <= i < |copies| && merged[j] in copies[i]
    ensures Contents(map[], map[]).RecordAll(merged[..k]).AnswersTruly(c)
  {
    var empty := Contents(map[], map[]);
    assert AllTrue(c, merged[..k]) && AllPlain(c, merged[..k]);
    RecordingKeepsTruthful(c, empty, merged[..k]);
    TruthfulAnswersTruly(c, empty.RecordAll(merged[..k]));
  }

  function Firsts(ps: seq<Pair>): set<Digest> { set p | p in ps :: p.0 }

  function Seconds(ps: seq<Pair>): set<Digest> { set p | p in ps :: p.1 }

  lemma OneMorePair(ps: seq<Pair>)
    requires ps != []
    ensures Firsts(ps) == {ps[0].0} + Firsts(ps[1..]) && Seconds(ps) == {ps[0].1} + Seconds(ps[1..])
  {
    assert ps == [ps[0]] + ps[1..];
  }

  /** No digest is listed as uncompressed without a blob. */
  ghost predicate NoneEmpty(m: Contents) {
    forall u :: u in m.digestsByUncompressed ==> m.digestsByUncompressed[u] != {}
  }

  /** What the cache knows something about after recording. */
  lemma {:induction false} RecordedKeys(m: Contents, ps: seq<Pair>)
    requires NoneEmpty(m)
    ensures m.RecordAll(ps).uncompressedDigests.Keys == m.uncompressedDigests.Keys + Firsts(ps)
    ensures m.RecordAll(ps).digestsByUncompressed.Keys == m.digestsByUncompressed.Keys + Seconds(ps)
    ensures NoneEmpty(m.RecordAll(ps))
    decreases |ps|
  {
    if ps != [] {
      var n := m.Record(ps[0].0, ps[0].1);
      assert n.uncompressedDigests.Keys == m.uncompressedDigests.Keys + {ps[0].0};
      assert n.digestsByUncompressed.Keys == m.digestsByUncompressed.Keys + {ps[0].1};
      RecordedKeys(n, ps[1..]);
      OneMorePair(ps);
    }
  }

  /** The digests that are recorded for some blob as its uncompressed digest, but not as a blob. */
  ghost predicate OnlyUncompressed(firsts: set<Digest>, seconds: set<Digest>, u: Digest) { u in seconds && u !in firsts }

  lemma ImplicitAnswers(c: Codecs, m: Contents, firsts: set<Digest>, seconds: set<Digest>)
    requires c.CollisionFree() && m.Sound(c) && m.uncompressedDigests.Keys == firsts && m.digestsByUncompressed.Keys == seconds
    requires NoneEmpty(m)
    ensures m.AnswersTruly(c) <==> forall u :: OnlyUncompressed(firsts, seconds, u) ==> NamesPlain(c, u)
  {
    AnswersTrulyExactlyIf(c, m);
    assert forall u :: u in m.uncompressedDigests <==> u in firsts;
    assert forall u :: u in m.digestsByUncompressed <==> u in seconds;
    if forall u :: OnlyUncompressed(firsts, seconds, u) ==> NamesPlain(c, u) {
      forall v {:trigger c.digest(v)} | var u := c.digest(v); u !in m.uncompressedDigests && u in m.digestsByUncompressed
        ensures c.Uncompressed(v) == Some(v)
      {
        assert OnlyUncompressed(firsts, seconds, c.digest(v));
      }
    }
  }

  /**
    After any run the cache answers truly exactly if every digest recorded as uncompressed, and not
    recorded as a blob itself, names content that is not compressed.
   */
  lemma RunAnswersTrulyIff(c: Codecs, ps: seq<Pair>)
    requires c.CollisionFree() && AllTrue(c, ps)
    ensures Contents(map[], map[]).RecordAll(ps).AnswersTruly(c) <==>
              forall u :: OnlyUncompressed(Firsts(ps), Seconds(ps), u) ==> NamesPlain(c, u)
  {
    var empty := Contents(map[], map[]);
    RecordedKeys(empty, ps);
    RecordingKeepsSound(c, empty, ps);
    ImplicitAnswers(c, empty.RecordAll(ps), Firsts(ps), Seconds(ps));
  }

  class BlobInfoCache {
    var contents: Contents

    constructor ()
      ensures contents == Contents(map[], map[])
    {
      contents := Contents(map[], map[]);
    }

    method RecordDigestUncompressedPair(anyDigest: Digest, uncompressed: Digest)
      modifies this
      ensures contents == old(contents).RecordAll([(anyDigest, uncompressed)])
      ensures contents.uncompressedDigests == old(contents).uncompressedDigests[anyDigest := uncompressed]
      ensures forall u, d :: contents.Lists(u, d) <==> old(contents).Lists(u, d) || (u == uncompressed && d == anyDigest)
    {
      contents := contents.Record(anyDigest, uncompressed);
      assert [(anyDigest, uncompressed)][1..] == [];
    }
  }

  // ----- Copying -----

  /** A destination's PutBlob: from the stream and its digest, if known, to the digest it saved the blob with. */
  datatype Destination = Destination(put: (Bytes, Option<Digest>) -> Option<Digest>)
  {
    /** Given no digest, the destination computes the stream's. */
    ghost predicate Honest(c: Codecs) {
      forall b :: put(b, None).Some? ==> put(b, None).value == c.digest(b)
    }
  }

  datatype Copied = Copied(digest: Digest, diffID: Option<Digest>)

  predicate Decrypts(s: Setup, info: SourceInfo) { info.encryptedType && s.decryptConfigured }

  predicate Encrypts(s: Setup, info: SourceInfo, toEncrypt: bool) {
    toEncrypt && !info.encryptedType && s.encryptConfigured
  }

  function DiffID(c: Codecs, b: Bytes): Option<Digest> {
    if c.Uncompressed(b).Some? then Some(c.digest(c.Uncompressed(b).value)) else None
  }

  /** The source after the decryption step. */
  function Decrypted(s: Setup, info: SourceInfo, source: Bytes): Option<Bytes> {
    if Decrypts(s, info) then s.codecs.decrypt(source) else Some(source)
  }

  /** The DiffID of the layer that a source holds. */
  function SourceDiffID(s: Setup, info: SourceInfo, source: Bytes): Option<Digest> {
    var plain := Decrypted(s, info, source);
    if plain.None? then None else DiffID(s.codecs, plain.value)
  }

  /** What the destination receives for a source; None if the pipeline fails. */
  function Delivered(s: Setup, info: SourceInfo, canModifyBlob: bool, toEncrypt: bool, source: Bytes): Option<Bytes> {
    var plain := Decrypted(s, info, source);
    if plain.None? then None else
      var op := ChooseOperation(s, info, canModifyBlob, DetectedFormat(s.codecs, plain.value, info.hasTOC));
      var after := Transform(s, op, plain.value);
      if after.Some? && Encrypts(s, info, toEncrypt) then Some(s.codecs.encrypt(after.value)) else after
  }

  /** The digest is computed from what was delivered, or that is the source itself, under its own digest. */
  predicate StoredAs(s: Setup, info: SourceInfo, canModifyBlob: bool, toEncrypt: bool, source: Bytes, d: Digest) {
    var delivered := Delivered(s, info, canModifyBlob, toEncrypt, source);
    delivered.Some? && (d == s.codecs.digest(delivered.value) || (delivered.value == source && d == info.digest))
  }

  /** The digest that the destination is given: the source's, if that is delivered as it is. */
  function KeptDigest(s: Setup, info: SourceInfo, canModifyBlob: bool, toEncrypt: bool, source: Bytes): Option<Digest> {
    var op := ChooseOperation(s, info, canModifyBlob, DetectedFormat(s.codecs, source, info.hasTOC));
    if Decrypts(s, info) || Encrypts(s, info, toEncrypt) || !IsPreserve(op) then None else Some(info.digest)
  }

  /** Why the pipeline can not be built, if it can not. */
  function BuildError(s: Setup, info: SourceInfo, canModifyBlob: bool, toEncrypt: bool, source: Bytes): Option<Error> {
    if Decrypts(s, info) && !s.canModifyManifest then Some(CannotModifyManifest)
    else if Decrypted(s, info, source).None? then Some(DecryptionFailed)
    else if Delivered(s, info, canModifyBlob, toEncrypt, source).None? then Some(DecompressionFailed)
    else if Decrypts(s, info) && toEncrypt then Some(DecryptAndEncrypt)
    else if Encrypts(s, info, toEncrypt) && !s.canModifyManifest then Some(CannotModifyManifest)
    else None
  }

  /** What the destination says it saved; None if it did not. */
  function Saved(s: Setup, info: SourceInfo, canModifyBlob: bool, toEncrypt: bool, source: Bytes, dest: Destination): Option<Digest> {
    var delivered := Delivered(s, info, canModifyBlob, toEncrypt, source);
    if delivered.None? then None else dest.put(delivered.value, KeptDigest(s, info, canModifyBlob, toEncrypt, source))
  }

  /** Why a blob can not be copied, if it can not: what was read to the end must be right, and saved under the digest given. */
  function CopyError(s: Setup, info: SourceInfo, canModifyBlob: bool, toEncrypt: bool, source: Bytes, readToEnd: bool, dest: Destination): Option<Error> {
    var (saved, kept) := (Saved(s, info, canModifyBlob, toEncrypt, source, dest), KeptDigest(s, info, canModifyBlob, toEncrypt, source));
    if BuildError(s, info, canModifyBlob, toEncrypt, source).Some? then BuildError(s, info, canModifyBlob, toEncrypt, source)
    else if saved.None? then Some(PutFailed)
    else if readToEnd && s.codecs.digest(source) != info.digest then Some(DigestMismatch)
    else if kept.Some? && saved != kept then Some(SavedWithOtherDigest)
    else None
  }

  datatype Steps = Steps(op: Operation, encrypting: bool, decrypting: bool, original: Bytes)

  /** Runs the steps that rewrite the stream. `original` is the blob after decryption. */
  method BuildPipeline(s: Setup, info: SourceInfo, canModifyBlob: bool, toEncrypt: bool, stream: SourceStream)
    returns (r: Result<Steps, Error>)
    requires stream.digest == Some(info.digest)
    modifies stream
    ensures r.Ok? ==> Delivered(s, info, canModifyBlob, toEncrypt, old(stream.content)) == Some(stream.content)
    ensures r.Ok? ==> r.value.encrypting == Encrypts(s, info, toEncrypt) && r.value.decrypting == Decrypts(s, info)
    ensures r.Ok? ==> r.value.op == ChooseOperation(s, info, canModifyBlob, DetectedFormat(s.codecs, r.value.original, info.hasTOC))
    ensures r.Ok? ==> Decrypted(s, info, old(stream.content)) == Some(r.value.original)
    ensures r.Ok? && !r.value.decrypting && !r.value.encrypting ==> Transform(s, r.value.op, r.value.original) == Some(stream.content)
    ensures r.Ok? && stream.digest.Some? ==> stream.digest == Some(info.digest) && stream.content == old(stream.content)
    ensures r.Ok? && !IsPreserve(r.value.op) ==> stream.digest.None?
    ensures r.Ok? ==> stream.digest == KeptDigest(s, info, canModifyBlob, toEncrypt, old(stream.content))
    ensures ErrorOf(r) == BuildError(s, info, canModifyBlob, toEncrypt, old(stream.content))
  {
    var decrypting := stream.DecryptionStep(s, info);
    if decrypting.Err? { return Err(decrypting.error); }
    var original := stream.content;
    var op := stream.CompressionStep(s, info, canModifyBlob, DetectedFormat(s.codecs, original, info.hasTOC));
    if op.Err? { return Err(op.error); }
    if decrypting.value && toEncrypt { return Err(DecryptAndEncrypt); }
    var encrypting := stream.EncryptionStep(s, info, toEncrypt);
    if encrypting.Err? { return Err(encrypting.error); }
    return Ok(Steps(op.value, encrypting.value, decrypting.value, original));
  }

  method RecordValidatedDigestData(op: Operation, encrypting: bool, decrypting: bool, src: Digest, uploaded: Digest,
                                   cache: BlobInfoCache)
    modifies cache
    ensures cache.contents == old(cache.contents).RecordAll(PairsToRecord(op, encrypting, decrypting, src, uploaded))
  {
    if !encrypting && !decrypting {
      match op {
        case CompressUncompressed => cache.RecordDigestUncompressedPair(uploaded, src);
        case DecompressCompressed => cache.RecordDigestUncompressedPair(src, uploaded);
        case PreserveUncompressed => cache.RecordDigestUncompressedPair(src, src);
        case _ =>
      }
    }
  }

  /** The pairs recorded for a validated source are true, and plain if the source is compressed at most once. */
  lemma PairsAreGood(s: Setup, info: SourceInfo, canModifyBlob: bool, source: Bytes, steps: Steps, saved: Digest)
    requires s.codecs.RoundTrips() && s.codecs.digest(source) == info.digest
    requires Decrypted(s, info, source) == Some(steps.original) && steps.decrypting == Decrypts(s, info)
    requires steps.op == ChooseOperation(s, info, canModifyBlob, DetectedFormat(s.codecs, steps.original, info.hasTOC))
    requires !steps.decrypting && !steps.encrypting && !IsPreserve(steps.op) ==>
               var after := Transform(s, steps.op, steps.original);
               after.Some? && saved == s.codecs.digest(after.value)
    ensures var ps := PairsToRecord(steps.op, steps.encrypting, steps.decrypting, info.digest, saved);
            AllTrue(s.codecs, ps) && (s.codecs.CollisionFree() && SinglyCompressed(s.codecs, source) ==> AllPlain(s.codecs, ps))
  {
    if !steps.decrypting && !steps.encrypting {
      RecordedPairsAreTrue(s, info, canModifyBlob, source);
      if s.codecs.CollisionFree() && SinglyCompressed(s.codecs, source) {
        RecordedPairsArePlain(s, info, canModifyBlob, source);
      }
    }
  }

  /**
    Copies one blob. The source delivers `chunks`; `atEnd` says whether the destination's reading
    reached the end of the source, which computing a DiffID always does. A blob that can not be
    decompressed has no DiffID.
   */
  method CopyBlobFromStream(s: Setup, info: SourceInfo, chunks: seq<Bytes>, isConfig: bool, toEncrypt: bool,
                            wantDiffID: bool, dest: Destination, atEnd: bool, cache: BlobInfoCache)
    returns (r: Result<Copied, Error>, ghost recorded: seq<Pair>)
    requires s.codecs.RoundTrips() && dest.Honest(s.codecs)
    modifies cache
    ensures cache.contents == old(cache.contents).RecordAll(recorded) && AllTrue(s.codecs, recorded)
    ensures s.codecs.CollisionFree() && SinglyCompressed(s.codecs, Concat(chunks)) ==> AllPlain(s.codecs, recorded)
    ensures r.Err? || Decrypts(s, info) || Encrypts(s, info, toEncrypt) ==> recorded == []
    ensures r.Ok? ==>
              recorded == if !wantDiffID && !atEnd then [] else
                            PairsToRecord(ChooseOperation(s, info, !isConfig && s.canModifyManifest,
                                                          DetectedFormat(s.codecs, Concat(chunks), info.hasTOC)),
                                          Encrypts(s, info, toEncrypt), Decrypts(s, info), info.digest, r.value.digest)
    ensures r.Ok? && (wantDiffID || atEnd) ==> s.codecs.digest(Concat(chunks)) == info.digest
    ensures r.Ok? ==> StoredAs(s, info, !isConfig && s.canModifyManifest, toEncrypt, Concat(chunks), r.value.digest)
    ensures r.Ok? ==> r.value.diffID == if wantDiffID then SourceDiffID(s, info, Concat(chunks)) else None
    ensures ErrorOf(r) == CopyError(s, info, !isConfig && s.canModifyManifest, toEncrypt, Concat(chunks), wantDiffID || atEnd, dest)
    ensures r.Ok? ==> Some(r.value.digest) == Saved(s, info, !isConfig && s.canModifyManifest, toEncrypt, Concat(chunks), dest)
  {
    var c := s.codecs;
    recorded := [];
    var canModifyBlob := !isConfig && s.canModifyManifest;
    var reader := new DigestingReader(c.digest, info.digest);
    var stream := new SourceStream(Concat(chunks), info.digest);
    var built := BuildPipeline(s, info, canModifyBlob, toEncrypt, stream);
    if built.Err? { return Err(built.error), []; }
    var steps := built.value;
    var saved := dest.put(stream.content, stream.digest);
    if saved.None? { return Err(PutFailed), []; }
    if wantDiffID || atEnd {
      var _, end := Drain(reader, chunks);
      if end != EOF { return Err(DigestMismatch), []; }
    }
    if stream.digest.Some? && saved.value != stream.digest.value { return Err(SavedWithOtherDigest), []; }
    if reader.validationSucceeded {
      RecordValidatedDigestData(steps.op, steps.encrypting, steps.decrypting, info.digest, saved.value, cache);
      recorded := PairsToRecord(steps.op, steps.encrypting, steps.decrypting, info.digest, saved.value);
      PairsAreGood(s, info, canModifyBlob, Concat(chunks), steps, saved.value);
    }
    r := Ok(Copied(saved.value, if wantDiffID then DiffID(c, steps.original) else None));
  }

  /** A DiffID that was computed from a blob makes a true pair with the blob's digest. */
  lemma ComputedPairIsTrue(c: Codecs, b: Bytes, u: Digest)
    requires DiffID(c, b) == Some(u)
    ensures c.TruePair(c.digest(b), u) && IsDiffID(c, b, u)
    ensures c.CollisionFree() && SinglyCompressed(c, b) ==> NamesPlain(c, u)
  {
  }

  /** One more record, of a blob's digest and the DiffID computed from the blob. */
  lemma RecordComputed(c: Codecs, m: Contents, ps: seq<Pair>, b: Bytes, u: Digest)
    requires AllTrue(c, ps) && DiffID(c, b) == Some(u)
    ensures m.RecordAll(ps + [(c.digest(b), u)]) == m.RecordAll(ps).RecordAll([(c.digest(b), u)])
    ensures AllTrue(c, ps + [(c.digest(b), u)])
    ensures AllPlain(c, ps) && c.CollisionFree() && SinglyCompressed(c, b) ==> AllPlain(c, ps + [(c.digest(b), u)])
  {
    ComputedPairIsTrue(c, b, u);
    var all := ps + [(c.digest(b), u)];
    RecordAllSplits(m, all, |ps|);
    assert all[..|ps|] == ps;
  }

  datatype LayerError = CopyFailed(why: Error) | NoDiffID

  /** Why a layer can not be copied from the source, or its DiffID not be computed, if so. */
  function FullCopyError(s: Setup, info: SourceInfo, toEncrypt: bool, source: Bytes, diffIDIsNeeded: bool, dest: Destination, atEnd: bool): Option<LayerError> {
    var why := CopyError(s, info, s.canModifyManifest, toEncrypt, source, diffIDIsNeeded || atEnd, dest);
    if why.Some? then Some(CopyFailed(why.value))
    else if diffIDIsNeeded && SourceDiffID(s, info, source).None? then Some(NoDiffID)
    else None
  }

  /** Copies a layer from the source, and records the DiffID if it had to be computed. */
  method CopyInFull(s: Setup, info: SourceInfo, chunks: seq<Bytes>, toEncrypt: bool, cached: Option<Digest>, diffIDIsNeeded: bool,
                    dest: Destination, atEnd: bool, cache: BlobInfoCache)
    returns (r: Result<Copied, LayerError>, ghost recorded: seq<Pair>)
    requires s.codecs.RoundTrips() && dest.Honest(s.codecs)
    modifies cache
    ensures cache.contents == old(cache.contents).RecordAll(recorded) && AllTrue(s.codecs, recorded)
    ensures s.codecs.CollisionFree() && SinglyCompressed(s.codecs, Concat(chunks)) ==> AllPlain(s.codecs, recorded)
    ensures Decrypts(s, info) || Encrypts(s, info, toEncrypt) ==> recorded == []
    ensures r.Ok? ==> StoredAs(s, info, s.canModifyManifest, toEncrypt, Concat(chunks), r.value.digest)
    ensures r.Ok? && !diffIDIsNeeded ==> r.value.diffID == cached
    ensures r.Ok? && diffIDIsNeeded ==> s.codecs.digest(Concat(chunks)) == info.digest
    ensures r.Ok? && diffIDIsNeeded ==> r.value.diffID.Some? && r.value.diffID == SourceDiffID(s, info, Concat(chunks))
    ensures r.Ok? && diffIDIsNeeded && !toEncrypt && !Decrypts(s, info) ==> (info.digest, r.value.diffID.value) in recorded
    ensures ErrorOf(r) == FullCopyError(s, info, toEncrypt, Concat(chunks), diffIDIsNeeded, dest, atEnd)
    ensures r.Ok? ==> Some(r.value.digest) == Saved(s, info, s.canModifyManifest, toEncrypt, Concat(chunks), dest)
  {
    var copied;
    copied, recorded := CopyBlobFromStream(s, info, chunks, false, toEncrypt, diffIDIsNeeded, dest, atEnd, cache);
    if copied.Err? { return Err(CopyFailed(copied.error)), recorded; }
    if !diffIDIsNeeded { return Ok(Copied(copied.value.digest, cached)), recorded; }
    if copied.value.diffID.None? { return Err(NoDiffID), recorded; }
    if !toEncrypt && !Decrypts(s, info) {
      cache.RecordDigestUncompressedPair(info.digest, copied.value.diffID.value);
      RecordComputed(s.codecs, old(cache.contents), recorded, Concat(chunks), copied.value.diffID.value);
      recorded := recorded + [(info.digest, copied.value.diffID.value)];
    }
    return Ok(copied.value), recorded;
  }

  /** The layer has to be read from the source: to encrypt or decrypt it, or to compute its DiffID. */
  predicate MustBeRead(s: Setup, info: SourceInfo, toEncrypt: bool, diffIDsAreNeeded: bool, cached: Option<Digest>) {
    toEncrypt || (info.encryptedType && s.decryptConfigured) || (diffIDsAreNeeded && cached.None?)
  }

  /** Under which digest the destination has the layer: it was copied if it had to be read, or could not be had otherwise. */
  predicate HeldAs(s: Setup, info: SourceInfo, source: Bytes, toEncrypt: bool, diffIDsAreNeeded: bool,
                   reused: Option<Digest>, partial: Option<Digest>, cached: Option<Digest>, d: Digest) {
    if MustBeRead(s, info, toEncrypt, diffIDsAreNeeded, cached) || (reused.None? && partial.None?)
    then StoredAs(s, info, s.canModifyManifest, toEncrypt, source, d)
    else Some(d) == if reused.Some? then reused else partial
  }

  /** Why a layer can not be reused, pulled partially, or copied, if so. */
  function LayerCopyError(s: Setup, info: SourceInfo, source: Bytes, toEncrypt: bool, diffIDsAreNeeded: bool,
                          reused: Option<Digest>, partial: Option<Digest>, cached: Option<Digest>, dest: Destination, atEnd: bool): Option<LayerError> {
    if !MustBeRead(s, info, toEncrypt, diffIDsAreNeeded, cached) && (reused.Some? || partial.Some?) then None
    else FullCopyError(s, info, toEncrypt, source, diffIDsAreNeeded && cached.None?, dest, atEnd)
  }

  /** What a copy of a layer reports and records, given what the cache said about the layer's DiffID. */
  ghost predicate CopiedRight(s: Setup, info: SourceInfo, source: Bytes, toEncrypt: bool, diffIDsAreNeeded: bool,
                              reused: Option<Digest>, partial: Option<Digest>, cached: Option<Digest>,
                              r: Result<Copied, LayerError>, recorded: seq<Pair>) {
    && AllTrue(s.codecs, recorded)
    && (s.codecs.CollisionFree() && SinglyCompressed(s.codecs, source) ==> AllPlain(s.codecs, recorded))
    && (Decrypts(s, info) || Encrypts(s, info, toEncrypt) ==> recorded == [])
    && (r.Ok? ==>
          && HeldAs(s, info, source, toEncrypt, diffIDsAreNeeded, reused, partial, cached, r.value.digest)
          && (diffIDsAreNeeded && cached.Some? ==> r.value.diffID == cached)
          && (diffIDsAreNeeded && cached.None? ==>
                s.codecs.digest(source) == info.digest && r.value.diffID.Some? && r.value.diffID == SourceDiffID(s, info, source)))
  }

  /**
    Copies one layer: reused at the destination, pulled partially, or copied in full.
    `reused` and `partial` are the digests that the destination reports if it can do either.
   */
  method CopyLayer(s: Setup, info: SourceInfo, chunks: seq<Bytes>, toEncrypt: bool, diffIDsAreNeeded: bool,
                   reused: Option<Digest>, partial: Option<Digest>, dest: Destination, atEnd: bool, cache: BlobInfoCache)
    returns (r: Result<Copied, LayerError>, ghost recorded: seq<Pair>)
    requires s.codecs.RoundTrips() && dest.Honest(s.codecs)
    modifies cache
    ensures cache.contents == old(cache.contents).RecordAll(recorded)
    ensures CopiedRight(s, info, Concat(chunks), toEncrypt, diffIDsAreNeeded, reused, partial,
                        if diffIDsAreNeeded then old(cache.contents).Lookup(info.digest) else None, r, recorded)
    ensures ErrorOf(r) == LayerCopyError(s, info, Concat(chunks), toEncrypt, diffIDsAreNeeded, reused, partial,
                                         if diffIDsAreNeeded then old(cache.contents).Lookup(info.digest) else None, dest, atEnd)
  {
    var cached := if diffIDsAreNeeded then cache.contents.Lookup(info.digest) else None;
    var diffIDIsNeeded := diffIDsAreNeeded && cached.None?;
    var encryptingOrDecrypting := toEncrypt || Decrypts(s, info);
    if !diffIDIsNeeded && !encryptingOrDecrypting {
      if reused.Some? { return Ok(Copied(reused.value, cached)), []; }
      if partial.Some? { return Ok(Copied(partial.value, cached)), []; }
    }
    r, recorded := CopyInFull(s, info, chunks, toEncrypt, cached, diffIDIsNeeded, dest, atEnd, cache);
  }

  /** The DiffID is the one of the layer in the blob that the manifest names. */
  ghost predicate RightDiffID(s: Setup, info: SourceInfo, u: Digest) {
    forall b {:trigger s.codecs.digest(b)} :: s.codecs.digest(b) == info.digest ==> SourceDiffID(s, info, b) == Some(u)
  }

  /** What the cache said about the layer is true, if it said anything. */
  ghost predicate TrueAnswer(c: Codecs, d: Digest, cached: Option<Digest>) {
    cached.Some? ==> forall b {:trigger c.digest(b)} :: c.digest(b) == d ==> IsDiffID(c, b, cached.value)
  }

  /** The DiffID of the layer was taken from the cache, which knows about the blob before decryption. */
  predicate CachedBeforeDecryption(s: Setup, info: SourceInfo, cached: Option<Digest>) {
    Decrypts(s, info) && cached.Some?
  }

  /** On every path the DiffID of a copied layer is right, as long as the cache told the truth about it. */
  lemma CopiedDiffIDIsRight(s: Setup, info: SourceInfo, source: Bytes, toEncrypt: bool, reused: Option<Digest>,
                            partial: Option<Digest>, cached: Option<Digest>, r: Result<Copied, LayerError>, recorded: seq<Pair>)
    requires s.codecs.CollisionFree() && TrueAnswer(s.codecs, info.digest, cached)
    requires CopiedRight(s, info, source, toEncrypt, true, reused, partial, cached, r, recorded) && r.Ok?
    ensures r.value.diffID.Some?
    ensures if CachedBeforeDecryption(s, info, cached) then r.value.diffID == cached else RightDiffID(s, info, r.value.diffID.value)
  {
  }

  /** Decrypting a blob gives other content than the blob has if it is taken as it is. */
  ghost predicate DecryptionChangesContent(c: Codecs) {
    forall b {:trigger c.decrypt(b)} :: c.decrypt(b).Some? ==> c.Uncompressed(c.decrypt(b).value) != c.Uncompressed(b)
  }

  /** And it is right only then: an answer of the cache is never the DiffID of a layer to be decrypted. */
  lemma CopiedDiffIDIsRightIff(s: Setup, info: SourceInfo, source: Bytes, toEncrypt: bool, reused: Option<Digest>,
                               partial: Option<Digest>, cached: Option<Digest>, r: Result<Copied, LayerError>, recorded: seq<Pair>)
    requires s.codecs.CollisionFree() && DecryptionChangesContent(s.codecs) && TrueAnswer(s.codecs, info.digest, cached)
    requires CopiedRight(s, info, source, toEncrypt, true, reused, partial, cached, r, recorded) && r.Ok?
    requires s.codecs.digest(source) == info.digest
    ensures r.value.diffID.Some?
    ensures RightDiffID(s, info, r.value.diffID.value) <==> !CachedBeforeDecryption(s, info, cached)
  {
    CopiedDiffIDIsRight(s, info, source, toEncrypt, reused, partial, cached, r, recorded);
    if CachedBeforeDecryption(s, info, cached) {
      assert IsDiffID(s.codecs, source, cached.value);
      assert SourceDiffID(s, info, source) != cached;
    }
  }

  /**
    An input with a wrong DiffID: the encrypted blob was copied before under a type that is not
    encrypted, so the cache truly knows its DiffID. A source that needs DiffIDs has no encrypted types.
   */
  lemma EncryptedBlobInCache(s: Setup, ordinary: SourceInfo, info: SourceInfo, b: Bytes)
    requires s.codecs.CollisionFree() && DecryptionChangesContent(s.codecs) && s.codecs.detect(b).None?
    requires s.desired == PreserveOriginal && ordinary.canChangeCompression && !ordinary.encryptedType
    requires Decrypts(s, info) && info.digest == s.codecs.digest(b)
    ensures var c := s.codecs;
            var op := ChooseOperation(s, ordinary, true, DetectedFormat(c, b, ordinary.hasTOC));
            var m := Contents(map[], map[]).RecordAll(PairsToRecord(op, false, false, c.digest(b), c.digest(b)));
            && m.AnswersTruly(c)
            && m.Lookup(info.digest).Some? && !RightDiffID(s, info, m.Lookup(info.digest).value)
  {
    var c := s.codecs;
    var ps := [(c.digest(b), c.digest(b))];
    assert c.Uncompressed(b) == Some(b) && c.TruePair(c.digest(b), c.digest(b));
    RecordingKeepsTruthful(c, Contents(map[], map[]), ps);
    TruthfulAnswersTruly(c, Contents(map[], map[]).RecordAll(ps));
    assert ps[1..] == [];
    assert SourceDiffID(s, info, b) != Some(c.digest(b));
  }
}
