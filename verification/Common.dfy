/** Small datatypes and string formats shared by the models. */
module Common {
  datatype Option<+T> = None | Some(value: T)

  datatype Result<+T, +E> = Ok(value: T) | Err(error: E)

  type Bytes = string

  function Lookup<K, V>(m: map<K, V>, k: K): Option<V> {
    if k in m then Some(m[k]) else None
  }

  /** What is to be done, or was done, about the compression of a layer. */
  datatype LayerCompression = PreserveOriginal | Decompress | Compress

  // ----- Digests -----

  datatype Digest = Digest(algorithm: string, encoded: string)

  predicate IsHex(c: char) { '0' <= c <= '9' || 'a' <= c <= 'f' }

  /** The part of digest validation that the string formats depend on. */
  predicate WellFormed(d: Digest) {
    && d.encoded != []
    && (forall i :: 0 <= i < |d.encoded| ==> IsHex(d.encoded[i]))
    && '|' !in d.algorithm
  }

  function DigestString(d: Digest): string { d.algorithm + ":" + d.encoded }

  /** A string is split at its first separator in one way. */
  lemma SplitIsUnique(sep: char, p: string, c: string, q: string, d: string)
    requires sep !in p && sep !in q
    requires p + [sep] + c == q + [sep] + d
    ensures p == q && c == d
  {
    var s := p + [sep] + c;
    assert forall i :: 0 <= i < |p| ==> s[i] == p[i];
    assert forall i :: 0 <= i < |q| ==> s[i] == q[i];
    assert s[|p|] == sep && s[|q|] == sep;
    assert p == s[..|p|] && q == s[..|q|];
    assert c == s[|p| + 1..] && d == s[|q| + 1..];
  }
}
