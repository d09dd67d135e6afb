/** Signatures in a lookaside location: numbered files per manifest digest, written and read in order. */
module Lookaside {
  import opened Common
  import ContentRange

  type Signature = string
  type Files = map<string, Bytes>

  const MAX_LOOKASIDE_SIGNATURES := 128

  /** How signatures are represented in files. */
  datatype Codec = Codec(encode: Signature -> Bytes, decode: Bytes -> Option<Signature>)
  {
    ghost predicate RoundTrips() { forall s :: decode(encode(s)) == Some(s) }
  }

  predicate ValidDigest(d: Digest) {
    WellFormed(d) && '=' !in d.algorithm && '/' !in d.algorithm
  }

  /** The file of a signature; the names count from one. */
  function StoragePath(base: string, d: Digest, index: nat): string {
    base + ("@" + (d.algorithm + ("=" + (d.encoded + ("/" + ("signature-" + ContentRange.PrintNat(index + 1)))))))
  }

  /** For example. */
  lemma FirstPath(base: string)
    ensures StoragePath(base, Digest("sha256", "0123"), 0) == base + "@sha256=0123/signature-1"
  {
    assert ContentRange.PrintNat(1) == "1";
    assert base + ("@" + ("sha256" + ("=" + ("0123" + ("/" + ("signature-" + "1")))))) == base + "@sha256=0123/signature-1";
  }

  /** Different signatures are in different files. */
  lemma PathsAreDistinct(base: string, d: Digest, i: nat, e: Digest, j: nat)
    requires ValidDigest(d) && ValidDigest(e) && StoragePath(base, d, i) == StoragePath(base, e, j)
    ensures d == e && i == j
  {
    var x, y := "signature-" + ContentRange.PrintNat(i + 1), "signature-" + ContentRange.PrintNat(j + 1);
    var p, q := d.encoded + ("/" + x), e.encoded + ("/" + y);
    var s, t := d.algorithm + ("=" + p), e.algorithm + ("=" + q);
    assert StoragePath(base, d, i)[|base|..][1..] == s && StoragePath(base, e, j)[|base|..][1..] == t;
    assert s == d.algorithm + ['='] + p && t == e.algorithm + ['='] + q;
    SplitIsUnique('=', d.algorithm, p, e.algorithm, q);
    assert p == d.encoded + ['/'] + x && q == e.encoded + ['/'] + y;
    assert !IsHex('/');
    SplitIsUnique('/', d.encoded, x, e.encoded, y);
    assert x[|"signature-"|..] == ContentRange.PrintNat(i + 1) && y[|"signature-"|..] == ContentRange.PrintNat(j + 1);
  }

  datatype ReadError = InvalidDigest | TooMany | Malformed

  /** The signatures from number i on, up to the first missing file. */
  function ReadFrom(c: Codec, files: Files, base: string, d: Digest, i: nat): Result<seq<Signature>, ReadError>
    decreases MAX_LOOKASIDE_SIGNATURES - i
  {
    if i >= MAX_LOOKASIDE_SIGNATURES then Err(TooMany)
    else if StoragePath(base, d, i) !in files then Ok([])
    else
      var sig := c.decode(files[StoragePath(base, d, i)]);
      if sig.None? then Err(Malformed) else
        var rest := ReadFrom(c, files, base, d, i + 1);
        if rest.Err? then rest else Ok([sig.value] + rest.value)
  }

  /** The first n files hold the first n signatures. */
  ghost predicate Written(c: Codec, files: Files, base: string, d: Digest, sigs: seq<Signature>, n: nat) {
    forall i: nat :: i < n && i < |sigs| ==> StoragePath(base, d, i) in files && files[StoragePath(base, d, i)] == c.encode(sigs[i])
  }

  /** The files hold the given signatures, and the next one is missing. */
  ghost predicate Holds(c: Codec, files: Files, base: string, d: Digest, sigs: seq<Signature>) {
    Written(c, files, base, d, sigs, |sigs|) && StoragePath(base, d, |sigs|) !in files
  }

  ghost predicate IsSignatureFile(base: string, d: Digest, f: string) {
    exists i: nat :: f == StoragePath(base, d, i)
  }

  /** Files other than the signatures of this digest are the same. */
  ghost predicate KeepsOthers(before: Files, after: Files, base: string, d: Digest) {
    forall f :: !IsSignatureFile(base, d, f) ==> Lookup(before, f) == Lookup(after, f)
  }

  lemma WriteOne(c: Codec, files: Files, base: string, d: Digest, sigs: seq<Signature>, i: nat)
    requires ValidDigest(d) && i < |sigs| && Written(c, files, base, d, sigs, i)
    ensures Written(c, files[StoragePath(base, d, i) := c.encode(sigs[i])], base, d, sigs, i + 1)
    ensures KeepsOthers(files, files[StoragePath(base, d, i) := c.encode(sigs[i])], base, d)
  {
    DistinctFromOthers(base, d, i);
  }

  lemma DeleteOne(c: Codec, files: Files, base: string, d: Digest, sigs: seq<Signature>, i: nat)
    requires ValidDigest(d) && i >= |sigs| && Written(c, files, base, d, sigs, |sigs|)
    ensures Written(c, files - {StoragePath(base, d, i)}, base, d, sigs, |sigs|)
    ensures KeepsOthers(files, files - {StoragePath(base, d, i)}, base, d)
    ensures forall k: nat :: StoragePath(base, d, k) !in files ==> StoragePath(base, d, k) !in files - {StoragePath(base, d, i)}
  {
    DistinctFromOthers(base, d, i);
  }

  /** Reading gives back what is held, if there are fewer signatures than the limit, and fails otherwise. */
  lemma {:induction false} ReadsWhatIsHeld(c: Codec, files: Files, base: string, d: Digest, sigs: seq<Signature>, i: nat)
    requires c.RoundTrips() && Holds(c, files, base, d, sigs) && i <= |sigs| && i <= MAX_LOOKASIDE_SIGNATURES
    ensures ReadFrom(c, files, base, d, i) ==
              if |sigs| < MAX_LOOKASIDE_SIGNATURES then Ok(sigs[i..]) else Err(TooMany)
    decreases |sigs| - i
  {
    assert i == |sigs| ==> sigs[i..] == [];
    if i < |sigs| && i < MAX_LOOKASIDE_SIGNATURES {
      ReadsWhatIsHeld(c, files, base, d, sigs, i + 1);
      assert sigs[i..] == [sigs[i]] + sigs[i + 1..];
    }
  }

  class Location {
    const codec: Codec
    const base: string
    var files: Files

    constructor (codec: Codec, base: string, files: Files)
      ensures this.codec == codec && this.base == base && this.files == files
    {
      this.codec, this.base, this.files := codec, base, files;
    }

    /** Writes the signatures, then deletes following ones up to the first missing file. */
    method PutSignatures(sigs: seq<Signature>, d: Digest) returns (ok: bool)
      modifies this
      ensures ok <==> sigs == [] || ValidDigest(d)
      ensures !ok || sigs == [] ==> files == old(files)
      ensures ok && sigs != [] ==> Holds(codec, files, base, d, sigs)
      ensures KeepsOthers(old(files), files, base, d)
    {
      if sigs == [] { return true; }
      if !ValidDigest(d) { return false; }
      for i := 0 to |sigs|
        invariant Written(codec, files, base, d, sigs, i) && KeepsOthers(old(files), files, base, d)
      {
        WriteOne(codec, files, base, d, sigs, i);
        files := files[StoragePath(base, d, i) := codec.encode(sigs[i])];
      }
      var i := |sigs|;
      while StoragePath(base, d, i) in files
        invariant i >= |sigs| && Written(codec, files, base, d, sigs, |sigs|) && KeepsOthers(old(files), files, base, d)
        invariant i > |sigs| ==> StoragePath(base, d, |sigs|) !in files
        decreases |files|
      {
        DeleteOne(codec, files, base, d, sigs, i);
        assert |files - {StoragePath(base, d, i)}| < |files| by {
          assert (files - {StoragePath(base, d, i)}).Keys == files.Keys - {StoragePath(base, d, i)};
        }
        files := files - {StoragePath(base, d, i)};
        i := i + 1;
      }
      return true;
    }

    method GetSignatures(d: Digest) returns (r: Result<seq<Signature>, ReadError>)
      ensures r == if ValidDigest(d) then ReadFrom(codec, files, base, d, 0) else Err(InvalidDigest)
    {
      if !ValidDigest(d) { return Err(InvalidDigest); }
      var sigs := [];
      var i := 0;
      PrefixedByNothing(ReadFrom(codec, files, base, d, 0));
      while i < MAX_LOOKASIDE_SIGNATURES && StoragePath(base, d, i) in files
        invariant 0 <= i <= MAX_LOOKASIDE_SIGNATURES
        invariant ReadFrom(codec, files, base, d, 0) == Prefixed(sigs, ReadFrom(codec, files, base, d, i))
      {
        var sig := codec.decode(files[StoragePath(base, d, i)]);
        if sig.None? { return Err(Malformed); }
        PrefixedTwice(sigs, [sig.value], ReadFrom(codec, files, base, d, i + 1));
        sigs := sigs + [sig.value];
        i := i + 1;
      }
      if i >= MAX_LOOKASIDE_SIGNATURES { return Err(TooMany); }
      assert sigs + [] == sigs;
      return Ok(sigs);
    }

    /** What was written is read back, whatever files were there before, as long as it is below the limit. */
    method PutThenGet(sigs: seq<Signature>, d: Digest) returns (ok: bool, r: Result<seq<Signature>, ReadError>)
      requires codec.RoundTrips()
      modifies this
      ensures ok && sigs != [] ==> r == if |sigs| < 128 then Ok(sigs) else Err(TooMany)
      ensures ok && sigs == [] && ValidDigest(d) ==> r == ReadFrom(codec, old(files), base, d, 0)
    {
      ok := PutSignatures(sigs, d);
      r := GetSignatures(d);
      if ok && sigs != [] {
        ReadsWhatIsHeld(codec, files, base, d, sigs, 0);
        assert sigs[0..] == sigs;
      }
    }
  }

  function Prefixed(sigs: seq<Signature>, r: Result<seq<Signature>, ReadError>): Result<seq<Signature>, ReadError> {
    if r.Err? then r else Ok(sigs + r.value)
  }

  lemma PrefixedByNothing(r: Result<seq<Signature>, ReadError>)
    ensures Prefixed([], r) == r
  {
    if r.Ok? { assert [] + r.value == r.value; }
  }

  lemma PrefixedTwice(x: seq<Signature>, y: seq<Signature>, r: Result<seq<Signature>, ReadError>)
    ensures Prefixed(x, Prefixed(y, r)) == Prefixed(x + y, r)
  {
    if r.Ok? { assert x + (y + r.value) == x + y + r.value; }
  }

  lemma DistinctFromOthers(base: string, d: Digest, i: nat)
    requires ValidDigest(d)
    ensures forall k: nat :: k != i ==> StoragePath(base, d, k) != StoragePath(base, d, i)
  {
    forall k: nat | k != i
      ensures StoragePath(base, d, k) != StoragePath(base, d, i)
    {
      if StoragePath(base, d, k) == StoragePath(base, d, i) { PathsAreDistinct(base, d, k, d, i); }
    }
  }
}
