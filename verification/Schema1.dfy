/** Docker schema 1 manifests: removing repeated history entries, and layer lists in reverse order. */
module Schema1 {
  import opened Common
  import M = MimeTypes

  datatype V1Compatibility = V1Compatibility(id: string, parent: string, throwAway: bool)

  predicate ValidID(id: string) { |id| == 64 && forall i :: 0 <= i < |id| ==> IsHex(id[i]) }

  /** A valid ID has 64 lower-case hexadecimal digits. */
  lemma ValidIDIff(id: string)
    ensures ValidID(id) <==> |id| == 64 && forall i :: 0 <= i < |id| ==> id[i] in "0123456789abcdef"
  {
  }

  // ----- Runs of equal IDs -----

  predicate LastOfRun(c: seq<V1Compatibility>, i: int)
    requires 0 <= i < |c|
  {
    i == |c| - 1 || c[i].id != c[i + 1].id
  }

  /** Keeps of xs the entries at the last position of each run of equal IDs in c. */
  function KeepLasts<T>(c: seq<V1Compatibility>, xs: seq<T>): seq<T>
    requires |xs| == |c|
  {
    if c == [] then []
    else if LastOfRun(c, 0) then [xs[0]] + KeepLasts(c[1..], xs[1..])
    else KeepLasts(c[1..], xs[1..])
  }

  /** The last positions of the runs. */
  function Lasts(c: seq<V1Compatibility>, from: nat): (r: seq<nat>)
    requires from <= |c|
    ensures forall k :: 0 <= k < |r| ==> from <= r[k] < |c|
    decreases |c| - from
  {
    if from == |c| then [] else (if LastOfRun(c, from) then [from] else []) + Lasts(c, from + 1)
  }

  /** They are exactly the positions at which a run ends. */
  lemma {:induction false} LastsAreExact(c: seq<V1Compatibility>, from: nat, i: nat)
    requires from <= i < |c|
    ensures i in Lasts(c, from) <==> LastOfRun(c, i)
    decreases |c| - from
  {
    var rest := Lasts(c, from + 1);
    assert i in Lasts(c, from) <==> i in rest || (i == from && LastOfRun(c, from));
    if i > from { LastsAreExact(c, from + 1, i); }
  }

  /** In increasing order. */
  lemma {:induction false} LastsIncrease(c: seq<V1Compatibility>, from: nat, k: nat, l: nat)
    requires from <= |c| && k < l < |Lasts(c, from)|
    ensures Lasts(c, from)[k] < Lasts(c, from)[l]
    decreases |c| - from
  {
    var rest := Lasts(c, from + 1);
    if LastOfRun(c, from) {
      PrefixedBy(from, rest, l);
      if k > 0 {
        PrefixedBy(from, rest, k);
        LastsIncrease(c, from + 1, k - 1, l - 1);
      }
    } else {
      assert Lasts(c, from) == [] + rest == rest;
      LastsIncrease(c, from + 1, k, l);
    }
  }

  lemma PrefixedBy(first: nat, rest: seq<nat>, k: nat)
    requires 0 < k <= |rest|
    ensures ([first] + rest)[k] == rest[k - 1]
  {
  }

  function Pick<T>(xs: seq<T>, positions: seq<nat>): seq<T>
    requires forall k :: 0 <= k < |positions| ==> positions[k] < |xs|
  {
    seq(|positions|, k requires 0 <= k < |positions| => xs[positions[k]])
  }

  /** What is kept is the subsequence at the last positions of the runs, and nothing else. */
  lemma {:induction false} KeepLastsPicks<T>(c: seq<V1Compatibility>, xs: seq<T>, from: nat)
    requires |xs| == |c| && from <= |c|
    ensures KeepLasts(c[from..], xs[from..]) == Pick(xs, Lasts(c, from))
    decreases |c| - from
  {
    if from < |c| {
      KeepLastsPicks(c, xs, from + 1);
      assert c[from..][1..] == c[from + 1..] && xs[from..][1..] == xs[from + 1..];
      assert LastOfRun(c[from..], 0) == LastOfRun(c, from);
    }
  }

  // ----- When the manifest can be fixed -----

  /** From position `from` on, the last entry of each run names the next run's ID as its parent. */
  predicate Linked(c: seq<V1Compatibility>, from: int) {
    forall i {:trigger LastOfRun(c, i)} :: 0 <= from <= i < |c| - 1 && LastOfRun(c, i) ==> c[i].parent == c[i + 1].id
  }

  predicate FirstOfRun(c: seq<V1Compatibility>, j: int)
    requires 0 < j < |c|
  {
    c[j].id != c[j - 1].id
  }

  /** Among the first n entries, equal IDs are next to each other. */
  predicate Contiguous(c: seq<V1Compatibility>, n: int) {
    forall i, j {:trigger c[i], FirstOfRun(c, j)} :: 0 <= i < j < n && j < |c| && FirstOfRun(c, j) ==> c[i].id != c[j].id
  }

  predicate Fixable(c: seq<V1Compatibility>) {
    && c != []
    && (forall i :: 0 <= i < |c| ==> ValidID(c[i].id))
    && c[|c| - 1].parent == ""
    && Contiguous(c, |c|)
    && Linked(c, 0)
  }

  /** A chain of distinct layers: each entry's parent is the next entry, the base has none. */
  predicate Chain(c: seq<V1Compatibility>) {
    && c != []
    && (forall i, j :: 0 <= i < j < |c| ==> c[i].id != c[j].id)
    && (forall i :: 0 <= i < |c| - 1 ==> c[i].parent == c[i + 1].id)
    && c[|c| - 1].parent == ""
  }

  lemma {:induction false} KeptIDs(c: seq<V1Compatibility>)
    requires c != []
    ensures KeepLasts(c, c) != [] && KeepLasts(c, c)[0].id == c[0].id
    ensures forall k :: 0 <= k < |KeepLasts(c, c)| ==> KeepLasts(c, c)[k] in c
    ensures KeepLasts(c, c)[|KeepLasts(c, c)| - 1] == c[|c| - 1]
  {
    if |c| > 1 {
      KeptIDs(c[1..]);
    }
  }

  lemma TailIsFixable(c: seq<V1Compatibility>)
    requires Fixable(c) && |c| > 1
    ensures Fixable(c[1..])
  {
    var d := c[1..];
    assert forall i :: 0 <= i < |d| ==> d[i] == c[i + 1];
    forall i, j | 0 <= i < j < |d| && FirstOfRun(d, j)
      ensures d[i].id != d[j].id
    {
      assert FirstOfRun(c, j + 1) && c[i + 1] == d[i];
    }
    forall i | 0 <= i < |d| - 1 && LastOfRun(d, i)
      ensures d[i].parent == d[i + 1].id
    {
      assert LastOfRun(c, i + 1);
    }
  }

  lemma {:induction false} FirstRunEnds(c: seq<V1Compatibility>, j: nat)
    requires Contiguous(c, |c|) && |c| > 1 && LastOfRun(c, 0) && 0 < j < |c|
    ensures c[j].id != c[0].id
    decreases j
  {
    if !FirstOfRun(c, j) && j > 1 { FirstRunEnds(c, j - 1); }
  }

  lemma {:induction false} KeptLengths<S, T>(c: seq<V1Compatibility>, xs: seq<S>, ys: seq<T>)
    requires |xs| == |ys| == |c|
    ensures |KeepLasts(c, xs)| == |KeepLasts(c, ys)| == |KeepLasts(c, c)|
  {
    if c != [] { KeptLengths(c[1..], xs[1..], ys[1..]); }
  }

  /** From position n on, a copy xs of `original` has only the last entries of runs. */
  predicate FixedFrom<T(==)>(c: seq<V1Compatibility>, original: seq<T>, xs: seq<T>, n: int)
    requires |original| == |c|
  {
    0 <= n <= |c| && xs == original[..n] + KeepLasts(c[n..], original[n..])
  }

  /** Removing entry i if it is not the last of its run fixes one more position. */
  lemma FixOneMore<T>(c: seq<V1Compatibility>, original: seq<T>, xs: seq<T>, i: nat)
    requires |original| == |c| && i + 1 < |c| && FixedFrom(c, original, xs, i + 1)
    ensures i + 1 < |xs| && FixedFrom(c, original, if LastOfRun(c, i) then xs else xs[..i] + xs[i + 1..], i)
  {
    KeptLengths(c[i + 1..], original[i + 1..], original[i + 1..]);
    KeptIDs(c[i + 1..]);
    assert c[i..][1..] == c[i + 1..] && original[i..][1..] == original[i + 1..];
    assert LastOfRun(c[i..], 0) == LastOfRun(c, i);
    assert original[..i + 1] == original[..i] + [original[i]];
  }

  lemma LinkOneMore(c: seq<V1Compatibility>, i: nat)
    requires i + 1 < |c| && Linked(c, i + 1)
    ensures Linked(c, i) <==> (LastOfRun(c, i) ==> c[i].parent == c[i + 1].id)
    ensures !Linked(c, i) ==> !Linked(c, 0)
  {
  }

  lemma FixedEntries(c: seq<V1Compatibility>, xs: seq<V1Compatibility>, i: nat)
    requires i + 1 < |c| && FixedFrom(c, c, xs, i + 1)
    ensures i + 1 < |xs| && xs[i] == c[i] && xs[i + 1].id == c[i + 1].id
  {
    KeptIDs(c[i + 1..]);
  }

  lemma ChainGrows(x: V1Compatibility, d: seq<V1Compatibility>)
    requires Chain(d) && x.parent == d[0].id && forall k :: 0 <= k < |d| ==> d[k].id != x.id
    ensures Chain([x] + d)
  {
    var c := [x] + d;
    assert forall i :: 0 < i < |c| ==> c[i] == d[i - 1];
  }

  /** What is kept of the later runs has other IDs than the first run. */
  lemma LaterIDsDiffer(c: seq<V1Compatibility>, k: nat)
    requires Contiguous(c, |c|) && |c| > 1 && LastOfRun(c, 0) && k < |KeepLasts(c[1..], c[1..])|
    ensures KeepLasts(c[1..], c[1..])[k].id != c[0].id
  {
    var d := c[1..];
    KeptIDs(d);
    var i :| 0 <= i < |d| && d[i] == KeepLasts(d, d)[k];
    FirstRunEnds(c, i + 1);
  }

  /** A fixed manifest is a chain. */
  lemma {:induction false} FixedIsChain(c: seq<V1Compatibility>)
    requires Fixable(c)
    ensures Chain(KeepLasts(c, c))
  {
    if |c| > 1 {
      TailIsFixable(c);
      FixedIsChain(c[1..]);
      if LastOfRun(c, 0) {
        var kept := KeepLasts(c[1..], c[1..]);
        forall k | 0 <= k < |kept| ensures kept[k].id != c[0].id { LaterIDsDiffer(c, k); }
        assert c[0].parent == c[1].id && kept[0].id == c[1].id by { KeptIDs(c[1..]); }
        ChainGrows(c[0], kept);
      }
    }
  }

  // ----- The manifest -----

  datatype LayerInfo = LayerInfo(digest: string, emptyLayer: bool)

  class Manifest {
    var fsLayers: seq<string>
    var history: seq<string>
    var compat: seq<V1Compatibility>

    /** What loading a manifest verifies. */
    ghost predicate Valid() reads this {
      |fsLayers| == |history| == |compat| && compat != []
    }

    /** The checks of the IDs before anything is changed. */
    method CheckIDs() returns (ok: bool)
      requires Valid()
      ensures ok <==>
                && (forall i :: 0 <= i < |compat| ==> ValidID(compat[i].id))
                && compat[|compat| - 1].parent == "" && Contiguous(compat, |compat|)
    {
      for i := 0 to |compat|
        invariant forall k :: 0 <= k < i ==> ValidID(compat[k].id)
      {
        if !ValidID(compat[i].id) { return false; }
      }
      if compat[|compat| - 1].parent != "" { return false; }
      var idmap, lastID := {}, "";
      for i := 0 to |compat|
        invariant idmap == set k | 0 <= k < i :: compat[k].id
        invariant i > 0 ==> lastID == compat[i - 1].id
        invariant Contiguous(compat, i)
      {
        if compat[i].id != lastID && compat[i].id in idmap {
          assert FirstOfRun(compat, i);
          return false;
        }
        lastID := compat[i].id;
        idmap := idmap + {lastID};
      }
      return true;
    }

    /** From position n on, all three lists have only the last entries of runs, and these are linked. */
    ghost predicate Fixed(c: seq<V1Compatibility>, fs: seq<string>, hs: seq<string>, n: int)
      requires |fs| == |hs| == |c|
      reads this
    {
      FixedFrom(c, c, compat, n) && FixedFrom(c, fs, fsLayers, n) && FixedFrom(c, hs, history, n)
    }

    /** The body of the backwards loop: removes an entry followed by one with the same ID, or checks its parent. */
    method FixEntry(i: nat, ghost c: seq<V1Compatibility>, ghost fs: seq<string>, ghost hs: seq<string>) returns (ok: bool)
      requires |fs| == |hs| == |c| && i + 1 < |c| && Fixed(c, fs, hs, i + 1)
      modifies this
      ensures ok <==> (LastOfRun(c, i) ==> c[i].parent == c[i + 1].id)
      ensures ok ==> Fixed(c, fs, hs, i)
    {
      FixedEntries(c, compat, i);
      FixOneMore(c, c, compat, i);
      FixOneMore(c, fs, fsLayers, i);
      FixOneMore(c, hs, history, i);
      if compat[i].id == compat[i + 1].id {
        fsLayers := fsLayers[..i] + fsLayers[i + 1..];
        history := history[..i] + history[i + 1..];
        compat := compat[..i] + compat[i + 1..];
      } else if compat[i].parent != compat[i + 1].id {
        return false;
      }
      return true;
    }

    /** The backwards loop, which keeps the remaining indices when it removes entries. */
    method RemoveRepeats() returns (ok: bool)
      requires Valid()
      modifies this
      ensures ok <==> Linked(old(compat), 0)
      ensures ok ==> Fixed(old(compat), old(fsLayers), old(history), 0)
    {
      ghost var c, fs, hs := compat, fsLayers, history;
      var i := |compat| - 2;
      assert c[i + 1..] == [c[i + 1]] && fs[i + 1..] == [fs[i + 1]] && hs[i + 1..] == [hs[i + 1]];
      while i >= 0
        invariant -1 <= i <= |c| - 2
        invariant Fixed(c, fs, hs, i + 1)
        invariant Linked(c, i + 1)
      {
        LinkOneMore(c, i);
        ok := FixEntry(i, c, fs, hs);
        if !ok { return false; }
        i := i - 1;
      }
      return true;
    }

    /** Keeps one entry for each run of equal IDs, the last one, in all three lists. */
    method FixManifestLayers() returns (ok: bool)
      requires Valid()
      modifies this
      ensures ok <==> Fixable(old(compat))
      ensures ok ==> compat == KeepLasts(old(compat), old(compat)) && Chain(compat)
      ensures ok ==> fsLayers == KeepLasts(old(compat), old(fsLayers))
      ensures ok ==> history == KeepLasts(old(compat), old(history))
    {
      ok := CheckIDs();
      if !ok { return false; }
      ghost var c, fs, hs := compat, fsLayers, history;
      ok := RemoveRepeats();
      if ok {
        assert c[0..] == c && fs[0..] == fs && hs[0..] == hs;
        FixedIsChain(c);
      }
    }

    /** The layers, the root one first. */
    method LayerInfos() returns (infos: seq<LayerInfo>)
      requires Valid()
      ensures |infos| == |fsLayers|
      ensures forall i :: 0 <= i < |infos| ==>
                infos[i] == LayerInfo(fsLayers[|fsLayers| - 1 - i], compat[|fsLayers| - 1 - i].throwAway)
    {
      infos := [];
      var i := |fsLayers|;
      while i > 0
        invariant 0 <= i <= |fsLayers| && |infos| == |fsLayers| - i
        invariant forall k :: 0 <= k < |infos| ==>
                    infos[k] == LayerInfo(fsLayers[|fsLayers| - 1 - k], compat[|fsLayers| - 1 - k].throwAway)
      {
        i := i - 1;
        infos := infos + [LayerInfo(fsLayers[i], compat[i].throwAway)];
      }
    }

    /** Replaces the layers, given the root one first. */
    method UpdateLayerInfos(infos: seq<M.BlobInfo>) returns (ok: bool)
      requires Valid()
      modifies `fsLayers
      ensures Valid()
      ensures ok <==> |infos| == |old(fsLayers)| && forall i :: 0 <= i < |infos| ==>
                M.UpdatedMIMEType(M.SCHEMA1_TABLE, M.DOCKER_LAYER, infos[i].edit).Ok? && infos[i].crypto.PreserveOriginalCrypto?
      ensures ok ==> forall i :: 0 <= i < |infos| ==> fsLayers[|infos| - 1 - i] == infos[i].digest
      ensures |infos| != |old(fsLayers)| ==> fsLayers == old(fsLayers)
    {
      if |fsLayers| != |infos| { return false; }
      fsLayers := seq(|infos|, i => "");
      for i := 0 to |infos|
        invariant |fsLayers| == |infos|
        invariant forall j :: 0 <= j < i ==>
                    && M.UpdatedMIMEType(M.SCHEMA1_TABLE, M.DOCKER_LAYER, infos[j].edit).Ok?
                    && infos[j].crypto.PreserveOriginalCrypto?
                    && fsLayers[|infos| - 1 - j] == infos[j].digest
      {
        var info := infos[i];
        if M.UpdatedMIMEType(M.SCHEMA1_TABLE, M.DOCKER_LAYER, info.edit).Err? { return false; }
        fsLayers := fsLayers[(|infos| - 1) - i := info.digest];
        if !info.crypto.PreserveOriginalCrypto? { return false; }
      }
      return true;
    }

    /** After an update the layers read back are the given ones in order, with their emptiness unchanged. */
    method UpdateAndReadBack(infos: seq<M.BlobInfo>) returns (ok: bool, before: seq<LayerInfo>, after: seq<LayerInfo>)
      requires Valid()
      modifies `fsLayers
      ensures ok ==> |after| == |infos| == |before| && forall i :: 0 <= i < |infos| ==>
                after[i] == LayerInfo(infos[i].digest, before[i].emptyLayer)
    {
      before := LayerInfos();
      ok := UpdateLayerInfos(infos);
      after := LayerInfos();
    }
  }
}
