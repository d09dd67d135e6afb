/** Compression and encryption edits of layer media types, and the OCI manifest that they are applied to. */
module MimeTypes {
  import opened Common

  const UNCOMPRESSED := ""             // the key of the uncompressed variant
  const UNSUPPORTED := ""              // a recognized but unsupported variant

  /** Differently compressed variants of one kind of content, by the base name of the algorithm. */
  type Variants = map<string, string>

  /** The first set of variants that has the type. */
  function FindSet(table: seq<Variants>, mimeType: string): Option<Variants> {
    if table == [] then None
    else if mimeType in table[0].Values then Some(table[0])
    else FindSet(table[1..], mimeType)
  }

  datatype MimeError = UnknownType | Incompatible | NoVariants | NotEncrypted | CanNotEncrypt

  /** The variant of a type for an algorithm, None meaning no compression. */
  function VariantMIMEType(table: seq<Variants>, mimeType: string, algorithm: Option<string>): Result<string, MimeError> {
    if mimeType == UNSUPPORTED then Err(UnknownType) else
      var variants := FindSet(table, mimeType);
      if variants.None? then Err(NoVariants) else
        var name := if algorithm.Some? then algorithm.value else UNCOMPRESSED;
        if name in variants.value && variants.value[name] != UNSUPPORTED then Ok(variants.value[name])
        else Err(Incompatible)
  }

  datatype Edit = Edit(operation: LayerCompression, algorithm: Option<string>)

  function UpdatedMIMEType(table: seq<Variants>, mimeType: string, e: Edit): Result<string, MimeError> {
    match e.operation
    case PreserveOriginal =>
      if e.algorithm.Some? then VariantMIMEType(table, mimeType, e.algorithm) else Ok(mimeType)
    case Decompress => VariantMIMEType(table, mimeType, None)
    case Compress =>
      if e.algorithm.None? then Ok(mimeType) else VariantMIMEType(table, mimeType, e.algorithm)
  }

  // ----- Sequences of edits -----

  function ApplyEdits(table: seq<Variants>, mimeType: string, edits: seq<Edit>): Result<string, MimeError> {
    if edits == [] then Ok(mimeType) else
      var before := ApplyEdits(table, mimeType, edits[..|edits| - 1]);
      if before.Err? then before else UpdatedMIMEType(table, before.value, edits[|edits| - 1])
  }

  /** An edit that asks for some particular variant. */
  predicate Effective(e: Edit) { e.operation.Decompress? || e.algorithm.Some? }

  function LastEffective(edits: seq<Edit>): Option<Edit> {
    if edits == [] then None
    else if Effective(edits[|edits| - 1]) then Some(edits[|edits| - 1])
    else LastEffective(edits[..|edits| - 1])
  }

  /** No type belongs to two sets. */
  ghost predicate DisjointSets(table: seq<Variants>) {
    forall i, j, t :: 0 <= i < j < |table| && t in table[i].Values && t in table[j].Values ==> t == UNSUPPORTED
  }

  lemma {:induction false} FindSetFinds(table: seq<Variants>, mimeType: string)
    ensures FindSet(table, mimeType).Some? ==>
              FindSet(table, mimeType).value in table && mimeType in FindSet(table, mimeType).value.Values
    ensures FindSet(table, mimeType).None? ==> forall v :: v in table ==> mimeType !in v.Values
  {
    if table != [] { FindSetFinds(table[1..], mimeType); }
  }

  /** The variant found for a type is in the same set as the type. */
  lemma VariantStaysInSet(table: seq<Variants>, mimeType: string, algorithm: Option<string>)
    requires DisjointSets(table) && VariantMIMEType(table, mimeType, algorithm).Ok?
    ensures FindSet(table, VariantMIMEType(table, mimeType, algorithm).value) == FindSet(table, mimeType)
  {
    var r := VariantMIMEType(table, mimeType, algorithm).value;
    FindSetFinds(table, mimeType);
    FindSetFinds(table, r);
    var s := FindSet(table, mimeType).value;
    assert r in s.Values;
    var t := FindSet(table, r).value;
    var i :| 0 <= i < |table| && table[i] == s;
    var j :| 0 <= j < |table| && table[j] == t;
    assert i < j || j < i || s == t;
  }

  /** The key of the variant that an edit asks for. */
  function WantedKey(e: Edit): string
    requires Effective(e)
  {
    if e.operation.Decompress? then "" else e.algorithm.value
  }

  /**
    What an edit makes of a type of some set: the set's variant for what is asked for, an error if it has
    none, and no change if nothing in particular is asked for.
   */
  lemma EditGivesVariant(table: seq<Variants>, set': Variants, mimeType: string, e: Edit)
    requires DisjointSets(table) && set' in table && mimeType in set'.Values && mimeType != ""
    ensures UpdatedMIMEType(table, mimeType, e) ==
              if !Effective(e) then Ok(mimeType)
              else if WantedKey(e) in set' && set'[WantedKey(e)] != "" then Ok(set'[WantedKey(e)])
              else Err(Incompatible)
  {
    FindSetFinds(table, mimeType);
    var found := FindSet(table, mimeType).value;
    var i :| 0 <= i < |table| && table[i] == set';
    var j :| 0 <= j < |table| && table[j] == found;
    assert i < j || j < i || found == set';
  }

  /** A type that is in no set, or has no name, can only be kept. */
  lemma UnknownTypeIsKept(table: seq<Variants>, mimeType: string, e: Edit)
    requires mimeType == "" || forall v :: v in table ==> mimeType !in v.Values
    ensures UpdatedMIMEType(table, mimeType, e) ==
              if !Effective(e) then Ok(mimeType) else if mimeType == "" then Err(UnknownType) else Err(NoVariants)
  {
    FindSetFinds(table, mimeType);
  }

  lemma {:induction false} EditsStayInSet(table: seq<Variants>, mimeType: string, edits: seq<Edit>)
    requires DisjointSets(table) && ApplyEdits(table, mimeType, edits).Ok?
    ensures FindSet(table, ApplyEdits(table, mimeType, edits).value) == FindSet(table, mimeType)
    ensures ApplyEdits(table, mimeType, edits).value == UNSUPPORTED <==> mimeType == UNSUPPORTED
  {
    if edits != [] {
      EditsStayInSet(table, mimeType, edits[..|edits| - 1]);
      var before := ApplyEdits(table, mimeType, edits[..|edits| - 1]).value;
      var e := edits[|edits| - 1];
      if Effective(e) {
        VariantStaysInSet(table, before, if e.operation.Decompress? then None else e.algorithm);
      }
    }
  }

  /** A successful sequence of edits gives what its last effective edit alone gives. */
  lemma {:induction false} LastEditDecides(table: seq<Variants>, mimeType: string, edits: seq<Edit>)
    requires DisjointSets(table) && ApplyEdits(table, mimeType, edits).Ok?
    ensures ApplyEdits(table, mimeType, edits) ==
              if LastEffective(edits).None? then Ok(mimeType) else UpdatedMIMEType(table, mimeType, LastEffective(edits).value)
  {
    if edits != [] {
      EditsStayInSet(table, mimeType, edits[..|edits| - 1]);
      LastEditDecides(table, mimeType, edits[..|edits| - 1]);
    }
  }

  const OCI_TAR := "application/vnd.oci.image.layer.v1.tar"
  const OCI_NONDISTRIBUTABLE_TAR := "application/vnd.oci.image.layer.nondistributable.v1.tar"
  const DOCKER_LAYER := "application/vnd.docker.image.rootfs.diff.tar.gzip"

  const OCI_TABLE: seq<Variants> := [
    map[UNCOMPRESSED := OCI_NONDISTRIBUTABLE_TAR, "gzip" := OCI_NONDISTRIBUTABLE_TAR + "+gzip", "zstd" := OCI_NONDISTRIBUTABLE_TAR + "+zstd"],
    map[UNCOMPRESSED := OCI_TAR, "gzip" := OCI_TAR + "+gzip", "zstd" := OCI_TAR + "+zstd"]
  ]

  const SCHEMA1_TABLE: seq<Variants> := [
    map[UNCOMPRESSED := DOCKER_LAYER, "gzip" := DOCKER_LAYER, "zstd" := UNSUPPORTED]
  ]

  lemma OciSetsAreDisjoint()
    ensures DisjointSets(OCI_TABLE)
  {
    assert OCI_TAR[32] == 'v' && OCI_NONDISTRIBUTABLE_TAR[32] == 'n';
    assert forall t :: t in OCI_TABLE[0].Values ==> OCI_NONDISTRIBUTABLE_TAR <= t;
    assert forall t :: t in OCI_TABLE[1].Values ==> OCI_TAR <= t;
  }

  function Suffix(algorithm: string): string { if algorithm == "" then "" else "+" + algorithm }

  /** An OCI layer type, however compressed, gets the suffix of what is asked for; other compression is refused. */
  lemma OciEdits(base: string, was: string, e: Edit)
    requires base in {"application/vnd.oci.image.layer.v1.tar", "application/vnd.oci.image.layer.nondistributable.v1.tar"}
    requires was in {"", "gzip", "zstd"} && Effective(e)
    ensures UpdatedMIMEType(OCI_TABLE, base + Suffix(was), e) ==
              if WantedKey(e) in {"", "gzip", "zstd"} then Ok(base + Suffix(WantedKey(e))) else Err(Incompatible)
  {
    OciSetsAreDisjoint();
    var set' := if base == OCI_TAR then OCI_TABLE[1] else OCI_TABLE[0];
    assert Suffix("gzip") == "+gzip" && Suffix("zstd") == "+zstd" && base + Suffix("") == base;
    assert set'[""] == base && set'["gzip"] == base + "+gzip" && set'["zstd"] == base + "+zstd";
    assert set'[was] == base + Suffix(was);
    EditGivesVariant(OCI_TABLE, set', base + Suffix(was), e);
  }

  /** A schema1 layer can be uncompressed or gzip, and nothing else. */
  lemma Schema1Edits(e: Edit)
    ensures UpdatedMIMEType(SCHEMA1_TABLE, DOCKER_LAYER, e).Ok? <==> Effective(e) ==> WantedKey(e) in {"", "gzip"}
  {
    var set' := SCHEMA1_TABLE[0];
    assert set'["gzip"] == DOCKER_LAYER;
    EditGivesVariant(SCHEMA1_TABLE, set', DOCKER_LAYER, e);
  }

  // ----- Encryption -----

  const ENCRYPTED_SUFFIX := "+encrypted"

  /** The parts of a string between separators. */
  function Split(s: string, sep: char): (parts: seq<string>)
    ensures |parts| >= 1
  {
    if s == "" then [""] else
      var rest := Split(s[1..], sep);
      if s[0] == sep then [""] + rest else [[s[0]] + rest[0]] + rest[1..]
  }

  function EncryptedMediaType(mediaType: string): Option<string> {
    var parts := Split(mediaType, '+');
    if "encrypted" in parts[1..] then None
    else if parts[0] == DOCKER_LAYER || parts[0] == OCI_TAR || parts[0] == OCI_NONDISTRIBUTABLE_TAR then
      Some(mediaType + ENCRYPTED_SUFFIX)
    else None
  }

  function DecryptedMediaType(mediaType: string): Option<string> {
    if |mediaType| >= |ENCRYPTED_SUFFIX| && mediaType[|mediaType| - |ENCRYPTED_SUFFIX|..] == ENCRYPTED_SUFFIX then
      Some(mediaType[..|mediaType| - |ENCRYPTED_SUFFIX|])
    else None
  }

  /** The parts with separators between them. */
  function Join(parts: seq<string>, sep: char): string
    requires parts != []
  {
    if |parts| == 1 then parts[0] else parts[0] + [sep] + Join(parts[1..], sep)
  }

  lemma {:induction false} JoinOfSplit(s: string, sep: char)
    ensures Join(Split(s, sep), sep) == s
    ensures forall i :: 0 <= i < |Split(s, sep)| ==> sep !in Split(s, sep)[i]
  {
    if s != "" {
      JoinOfSplit(s[1..], sep);
      var rest := Split(s[1..], sep);
      assert s == [s[0]] + s[1..];
      if s[0] == sep {
        assert ([""] + rest)[1..] == rest;
      } else {
        assert ([[s[0]] + rest[0]] + rest[1..])[1..] == rest[1..];
      }
    }
  }

  lemma {:induction false} SplitOfJoin(parts: seq<string>, sep: char)
    requires parts != [] && forall i :: 0 <= i < |parts| ==> sep !in parts[i]
    ensures Split(Join(parts, sep), sep) == parts
  {
    if |parts| == 1 {
      SplitOfPlain(parts[0], sep);
    } else {
      SplitOfJoin(parts[1..], sep);
      SplitOfPrepended(parts[0], Join(parts[1..], sep), sep);
      assert parts == [parts[0]] + parts[1..];
    }
  }

  lemma {:induction false} SplitOfPrepended(s: string, t: string, sep: char)
    requires sep !in s
    ensures Split(s + [sep] + t, sep) == [s] + Split(t, sep)
  {
    if s == "" {
      assert (s + [sep] + t)[1..] == t;
    } else {
      assert (s + [sep] + t)[1..] == s[1..] + [sep] + t;
      SplitOfPrepended(s[1..], t, sep);
      assert [s[0]] + s[1..] == s;
    }
  }

  /** One of the three layer types, followed by any suffixes other than "encrypted". */
  ghost predicate IsEncryptable(mediaType: string) {
    exists parts: seq<string> :: IsLayerType(parts) && mediaType == Join(parts, '+')
  }

  predicate IsLayerType(parts: seq<string>) {
    && parts != [] && (forall i :: 0 <= i < |parts| ==> '+' !in parts[i] && (i > 0 ==> parts[i] != "encrypted"))
    && parts[0] in {"application/vnd.docker.image.rootfs.diff.tar.gzip", "application/vnd.oci.image.layer.v1.tar",
                    "application/vnd.oci.image.layer.nondistributable.v1.tar"}
  }

  /** Exactly these types can be encrypted, and encrypting appends the suffix. */
  lemma EncryptsLayerTypes(mediaType: string, encrypted: string)
    ensures EncryptedMediaType(mediaType) == Some(encrypted) <==> IsEncryptable(mediaType) && encrypted == mediaType + "+encrypted"
  {
    var parts := Split(mediaType, '+');
    JoinOfSplit(mediaType, '+');
    assert "encrypted" in parts[1..] <==> exists i :: 1 <= i < |parts| && parts[i] == "encrypted" by {
      assert forall i :: 1 <= i < |parts| ==> parts[1..][i - 1] == parts[i];
    }
    if IsEncryptable(mediaType) {
      var ps :| IsLayerType(ps) && mediaType == Join(ps, '+');
      SplitOfJoin(ps, '+');
    }
    if EncryptedMediaType(mediaType).Some? { assert IsLayerType(parts); }
  }

  /** Decrypting removes the suffix, and works exactly if there is one. */
  lemma DecryptsSuffixedTypes(mediaType: string, decrypted: string)
    ensures DecryptedMediaType(mediaType) == Some(decrypted) <==> mediaType == decrypted + "+encrypted"
  {
    if |mediaType| >= |ENCRYPTED_SUFFIX| {
      var n := |mediaType| - |ENCRYPTED_SUFFIX|;
      assert mediaType == mediaType[..n] + mediaType[n..];
    }
    if mediaType == decrypted + "+encrypted" {
      assert mediaType[|decrypted|..] == "+encrypted" && mediaType[..|decrypted|] == decrypted;
    }
  }

  lemma {:induction false} SplitOfAppended(s: string, t: string, sep: char)
    requires sep !in t
    ensures Split(s + [sep] + t, sep) == Split(s, sep) + [t]
  {
    if s == "" {
      SplitOfPlain(t, sep);
      assert (s + [sep] + t)[1..] == t;
    } else {
      assert (s + [sep] + t)[1..] == s[1..] + [sep] + t;
      SplitOfAppended(s[1..], t, sep);
    }
  }

  lemma {:induction false} SplitOfPlain(t: string, sep: char)
    requires sep !in t
    ensures Split(t, sep) == [t]
  {
    if t != "" {
      SplitOfPlain(t[1..], sep);
      assert [t[0]] + t[1..] == t;
    }
  }

  /** Decrypting undoes encrypting; an encrypted type is not encrypted again. */
  lemma DecryptUndoesEncrypt(mediaType: string)
    requires EncryptedMediaType(mediaType).Some?
    ensures var e := EncryptedMediaType(mediaType).value;
            DecryptedMediaType(e) == Some(mediaType) && EncryptedMediaType(e).None?
  {
    var e := mediaType + ENCRYPTED_SUFFIX;
    assert e == mediaType + ['+'] + "encrypted";
    SplitOfAppended(mediaType, "encrypted", '+');
    var parts := Split(mediaType, '+');
    assert (parts + ["encrypted"])[1..] == parts[1..] + ["encrypted"];
    assert e[|mediaType|..] == ENCRYPTED_SUFFIX && e[..|mediaType|] == mediaType;
  }

  /** Encrypting undoes decrypting exactly if the decrypted type can be encrypted. */
  lemma EncryptUndoesDecrypt(mediaType: string)
    requires DecryptedMediaType(mediaType).Some?
    ensures var d := DecryptedMediaType(mediaType).value;
            EncryptedMediaType(d) == Some(mediaType) <==> EncryptedMediaType(d).Some?
  {
    var n := |mediaType| - |ENCRYPTED_SUFFIX|;
    assert mediaType == mediaType[..n] + mediaType[n..];
  }

  // ----- The OCI manifest -----

  datatype Crypto = PreserveOriginalCrypto | Encrypt | Decrypt

  datatype BlobInfo = BlobInfo(digest: string, size: int, urls: seq<string>, annotations: map<string, string>, edit: Edit, crypto: Crypto)

  datatype Descriptor = Descriptor(mediaType: string, digest: string, size: int, urls: seq<string>, annotations: map<string, string>)

  /** The media type of a layer after an edit: decrypted, then recompressed, then encrypted. */
  function EditedMediaType(mediaType: string, info: BlobInfo): Result<string, MimeError> {
    var decrypted := if info.crypto.Decrypt? then DecryptedMediaType(mediaType) else Some(mediaType);
    if decrypted.None? then Err(NotEncrypted) else
      var updated := UpdatedMIMEType(OCI_TABLE, decrypted.value, info.edit);
      if updated.Err? || !info.crypto.Encrypt? then updated else
        var encrypted := EncryptedMediaType(updated.value);
        if encrypted.None? then Err(CanNotEncrypt) else Ok(encrypted.value)
  }

  /** The types that a layer has before, between and after the three parts of an edit. */
  ghost predicate EditedThrough(mediaType: string, info: BlobInfo, plain: string, updated: string, result: string) {
    && (if info.crypto.Decrypt? then mediaType == plain + "+encrypted" else plain == mediaType)
    && UpdatedMIMEType(OCI_TABLE, plain, info.edit) == Ok(updated)
    && (if info.crypto.Encrypt? then IsEncryptable(updated) && result == updated + "+encrypted" else result == updated)
  }

  /** An edit first decrypts, then changes the compression, then encrypts, and succeeds exactly if each part does. */
  lemma EditedIff(mediaType: string, info: BlobInfo, result: string)
    ensures EditedMediaType(mediaType, info) == Ok(result) <==>
              exists plain, updated :: EditedThrough(mediaType, info, plain, updated, result)
  {
    forall plain ensures info.crypto.Decrypt? ==> (DecryptedMediaType(mediaType) == Some(plain) <==> mediaType == plain + "+encrypted") {
      DecryptsSuffixedTypes(mediaType, plain);
    }
    forall updated ensures EncryptedMediaType(updated) == Some(result) <==> IsEncryptable(updated) && result == updated + "+encrypted" {
      EncryptsLayerTypes(updated, result);
    }
    if EditedMediaType(mediaType, info) == Ok(result) {
      var plain := if info.crypto.Decrypt? then DecryptedMediaType(mediaType).value else mediaType;
      assert EditedThrough(mediaType, info, plain, UpdatedMIMEType(OCI_TABLE, plain, info.edit).value, result);
    }
  }

  predicate SameBlob(d: Descriptor, info: BlobInfo) {
    d.digest == info.digest && d.size == info.size && d.urls == info.urls && d.annotations == info.annotations
  }

  class OCI1 {
    var layers: seq<Descriptor>

    /** On success the layers are the given blobs in order, with edited media types. */
    method UpdateLayerInfos(infos: seq<BlobInfo>) returns (ok: bool)
      modifies this
      ensures ok <==> |infos| == |old(layers)| && forall i :: 0 <= i < |infos| ==> EditedMediaType(old(layers)[i].mediaType, infos[i]).Ok?
      ensures ok ==> |layers| == |infos| && forall i :: 0 <= i < |infos| ==>
                SameBlob(layers[i], infos[i]) && Ok(layers[i].mediaType) == EditedMediaType(old(layers)[i].mediaType, infos[i])
      ensures |infos| != |old(layers)| ==> layers == old(layers)
    {
      if |layers| != |infos| { return false; }
      var original := layers;
      layers := seq(|infos|, i => Descriptor("", "", 0, [], map[]));
      for i := 0 to |infos|
        invariant |layers| == |infos|
        invariant forall j :: 0 <= j < i ==>
          SameBlob(layers[j], infos[j]) && EditedMediaType(original[j].mediaType, infos[j]) == Ok(layers[j].mediaType)
      {
        var info := infos[i];
        var mediaType := EditedMediaType(original[i].mediaType, info);
        if mediaType.Err? { return false; }
        layers := layers[i := Descriptor(mediaType.value, info.digest, info.size, info.urls, info.annotations)];
      }
      return true;
    }

    /** The layers as blobs, the root one first. */
    method LayerInfos() returns (infos: seq<Descriptor>)
      ensures infos == layers
    {
      infos := [];
      for i := 0 to |layers|
        invariant infos == layers[..i]
      {
        infos := infos + [layers[i]];
      }
    }

    /** After an update the layers read back are the given blobs in order. */
    method UpdateAndReadBack(infos: seq<BlobInfo>) returns (ok: bool, after: seq<Descriptor>)
      modifies this
      ensures ok ==> |after| == |infos| && forall i :: 0 <= i < |infos| ==> SameBlob(after[i], infos[i])
    {
      ok := UpdateLayerInfos(infos);
      after := LayerInfos();
    }
  }

  // ----- Encrypted and decrypted layers -----

  /** Encrypting a layer and decrypting it again restores its media type. */
  lemma CryptoRoundTrip(mediaType: string, encrypt: BlobInfo, decrypt: BlobInfo)
    requires encrypt.crypto.Encrypt? && decrypt.crypto.Decrypt?
    requires !Effective(encrypt.edit) && !Effective(decrypt.edit)
    requires EditedMediaType(mediaType, encrypt).Ok?
    ensures EditedMediaType(EditedMediaType(mediaType, encrypt).value, decrypt) == Ok(mediaType)
  {
    DecryptUndoesEncrypt(mediaType);
  }
}
