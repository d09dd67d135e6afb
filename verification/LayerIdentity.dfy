/**
  Layer identity in the containers-storage destination: which trusted value identifies a layer,
  the chain ID built from it, and the image ID.

  The canonical digest is a parameter `H`, the hexadecimal encoding of the digest of a string.
 */
module LayerIdentity {
  import opened Common

  /** The lock-protected maps that identify layers. */
  datatype Known = Known(
    indexToDiffID: map<nat, Digest>,
    indexToTOCDigest: map<nat, Digest>,
    blobDiffIDs: map<Digest, Digest>)

  datatype Trusted = Trusted(
    identifiedByTOC: bool, diffID: Option<Digest>, tocDigest: Option<Digest>, blobDigest: Option<Digest>)

  /** Exactly one of the two identification kinds applies, and a TOC identity comes without a DiffID. */
  predicate Consistent(t: Trusted) {
    && (t.identifiedByTOC <==> t.diffID.None?)
    && (t.identifiedByTOC ==> t.tocDigest.Some?)
  }

  /** The identity of the layer at `index` whose blob digest is `blob`, or None if too little is known. */
  function TrustedIdentity(k: Known, index: nat, blob: Digest): (r: Option<Trusted>)
    ensures r.Some? ==> Consistent(r.value)
    ensures r.None? <==> index !in k.indexToDiffID && index !in k.indexToTOCDigest && blob !in k.blobDiffIDs
    // A DiffID of the index wins over a TOC, and both win over what is known of the blob.
    ensures index in k.indexToDiffID ==> !r.value.identifiedByTOC && r.value.diffID == Some(k.indexToDiffID[index])
    ensures index !in k.indexToDiffID && index in k.indexToTOCDigest ==> r.value.identifiedByTOC && r.value.diffID.None?
    ensures index !in k.indexToDiffID && index !in k.indexToTOCDigest && blob in k.blobDiffIDs ==>
              !r.value.identifiedByTOC && r.value.diffID == Some(k.blobDiffIDs[blob])
    ensures r.Some? ==> r.value.tocDigest == if index in k.indexToTOCDigest then Some(k.indexToTOCDigest[index]) else None
    // The blob is trusted exactly if its own DiffID is the one of the layer.
    ensures r.Some? ==>
              r.value.blobDigest == if blob in k.blobDiffIDs && r.value.diffID == Some(k.blobDiffIDs[blob]) then Some(blob) else None
  {
    var byIndex := Lookup(k.indexToDiffID, index);
    var toc := Lookup(k.indexToTOCDigest, index);
    var identifiedByTOC := toc.Some? && byIndex.None?;
    if blob in k.blobDiffIDs then
      var other := k.blobDiffIDs[blob];
      if byIndex.None? && !identifiedByTOC then
        Some(Trusted(false, Some(other), toc, Some(blob)))
      else
        Some(Trusted(identifiedByTOC, byIndex, toc, if byIndex == Some(other) then Some(blob) else None))
    else if byIndex.None? && !identifiedByTOC then
      None
    else
      Some(Trusted(identifiedByTOC, byIndex, toc, None))
  }

  /** `later` may know more blobs than `k`; what `k` knows has not changed. */
  ghost predicate Grows(k: Known, later: Known) {
    && later.indexToDiffID == k.indexToDiffID
    && later.indexToTOCDigest == k.indexToTOCDigest
    && forall d :: d in k.blobDiffIDs ==> d in later.blobDiffIDs && later.blobDiffIDs[d] == k.blobDiffIDs[d]
  }

  predicate SameIdentity(a: Trusted, b: Trusted) {
    a.identifiedByTOC == b.identifiedByTOC && a.diffID == b.diffID && a.tocDigest == b.tocDigest
  }

  /** An identity that was once found does not change when more blobs become known. */
  lemma IdentityIsStable(k: Known, later: Known, index: nat, blob: Digest)
    requires Grows(k, later)
    requires TrustedIdentity(k, index, blob).Some?
    ensures TrustedIdentity(later, index, blob).Some?
    ensures SameIdentity(TrustedIdentity(k, index, blob).value, TrustedIdentity(later, index, blob).value)
    ensures TrustedIdentity(k, index, blob).value.blobDigest.Some? ==>
              TrustedIdentity(later, index, blob).value == TrustedIdentity(k, index, blob).value
  {
  }

  /** What is known after a DiffID was recorded for a blob, over a different one if there was one. */
  function Recorded(k: Known, blob: Digest, diffID: Digest): Known {
    k.(blobDiffIDs := k.blobDiffIDs[blob := diffID])
  }

  /**
    Recording a DiffID for a blob keeps a layer's identity unless that is known from this very blob
    only, and from another DiffID.
   */
  lemma RecordingKeepsIdentityIff(k: Known, index: nat, blob: Digest, d: Digest, u: Digest)
    requires TrustedIdentity(k, index, blob).Some?
    ensures var later := TrustedIdentity(Recorded(k, d, u), index, blob);
            later.Some? &&
              (SameIdentity(TrustedIdentity(k, index, blob).value, later.value) <==>
                 index in k.indexToDiffID || index in k.indexToTOCDigest || blob != d || k.blobDiffIDs[d] == u)
  {
  }

  /**
    A layer that is compressed twice: its blob is recorded with a DiffID that names another blob, which
    has a DiffID of its own. Committing the first layer records that its uncompressed content is its own
    DiffID, and the identity of a layer with the other blob changes.
   */
  lemma TwiceCompressedLayerIsUnstable(outer: Digest, inner: Digest, diffID: Digest, index: nat)
    requires outer != inner && inner != diffID
    ensures var k := Known(map[], map[], map[outer := inner, inner := diffID]);
            var (before, after) := (TrustedIdentity(k, index, inner), TrustedIdentity(Recorded(k, inner, inner), index, inner));
            before.Some? && after.Some? && before.value.diffID == Some(diffID) && after.value.diffID == Some(inner)
  {
  }

  // ----- Chain IDs -----

  function Component(t: Trusted): string
    requires Consistent(t)
  {
    if t.identifiedByTOC then "@TOC=" + t.tocDigest.value.encoded else t.diffID.value.encoded
  }

  function LayerID(H: string -> string, parent: string, t: Trusted): string
    requires Consistent(t)
  {
    if parent == "" && !t.identifiedByTOC then Component(t) else H(parent + "+" + Component(t))
  }

  /** A layer of an image as far as its storage ID goes; None for an empty (throwaway) layer. */
  type Layer = Option<Trusted>

  predicate ValidLayer(l: Layer) {
    l.Some? ==>
      && Consistent(l.value)
      && (l.value.diffID.Some? ==> WellFormed(l.value.diffID.value))
      && (l.value.tocDigest.Some? ==> WellFormed(l.value.tocDigest.value))
  }

  ghost predicate ValidLayers(ls: seq<Layer>) { forall i :: 0 <= i < |ls| ==> ValidLayer(ls[i]) }

  /** The storage ID of the topmost layer: an empty layer shares its parent's ID. */
  function ChainID(H: string -> string, ls: seq<Layer>): string
    requires forall i :: 0 <= i < |ls| && ls[i].Some? ==> Consistent(ls[i].value)
  {
    if ls == [] then "" else
      var parent := ChainID(H, ls[..|ls| - 1]);
      var top := ls[|ls| - 1];
      if top.None? then parent else LayerID(H, parent, top.value)
  }

  /** The identity components of the non-empty layers, base first. */
  function Components(ls: seq<Layer>): seq<string>
    requires forall i :: 0 <= i < |ls| && ls[i].Some? ==> Consistent(ls[i].value)
  {
    if ls == [] then [] else
      var below := Components(ls[..|ls| - 1]);
      var top := ls[|ls| - 1];
      if top.None? then below else below + [Component(top.value)]
  }

  /** The digest as an ideal: collision-free, and its output is a non-empty hexadecimal string. */
  ghost predicate Ideal(H: string -> string) {
    && (forall x, y :: H(x) == H(y) ==> x == y)
    && (forall x :: H(x) != [] && forall i :: 0 <= i < |H(x)| ==> IsHex(H(x)[i]))
  }

  /** The value is not the digest of a "parent+component" string. */
  ghost predicate NotAChainID(H: string -> string, c: string) {
    forall p: string, q: string :: c != H(p + "+" + q)
  }

  ghost predicate BaseNotAChainID(H: string -> string, ls: seq<Layer>)
    requires ValidLayers(ls)
  {
    var cs := Components(ls);
    cs != [] ==> NotAChainID(H, cs[0])
  }

  /** The chain ID as a function of the components alone. */
  function FromComponents(H: string -> string, cs: seq<string>): string {
    if cs == [] then "" else
      var parent := FromComponents(H, cs[..|cs| - 1]);
      var c := cs[|cs| - 1];
      if parent == "" && !("@" <= c) then c else H(parent + "+" + c)
  }

  predicate ValidComponent(c: string) {
    c != [] && '+' !in c && (c[0] == '@' || forall i :: 0 <= i < |c| ==> IsHex(c[i]))
  }

  lemma ComponentShape(l: Layer)
    requires ValidLayer(l) && l.Some?
    ensures ValidComponent(Component(l.value))
    ensures "@" <= Component(l.value) <==> l.value.identifiedByTOC
  {
    var t := l.value;
    if !t.identifiedByTOC {
      var e := t.diffID.value.encoded;
      assert IsHex(e[0]);
    } else {
      assert Component(t)[0] == '@';
    }
  }

  lemma {:induction false} ChainFromComponents(H: string -> string, ls: seq<Layer>)
    requires ValidLayers(ls)
    ensures ChainID(H, ls) == FromComponents(H, Components(ls))
    ensures forall i :: 0 <= i < |Components(ls)| ==> ValidComponent(Components(ls)[i])
  {
    if ls != [] {
      ChainFromComponents(H, ls[..|ls| - 1]);
      var top := ls[|ls| - 1];
      if top.Some? {
        ComponentShape(top);
        var below := Components(ls[..|ls| - 1]);
        assert Components(ls)[..|Components(ls)| - 1] == below;
      }
    }
  }

  lemma {:induction false} NoPlusInIDs(H: string -> string, cs: seq<string>)
    requires Ideal(H) && forall i :: 0 <= i < |cs| ==> ValidComponent(cs[i])
    ensures '+' !in FromComponents(H, cs)
    ensures FromComponents(H, cs) == "" <==> cs == []
  {
    if cs != [] {
      NoPlusInIDs(H, cs[..|cs| - 1]);
      assert !IsHex('+');
    }
  }

  /**
    The first k components of `a` are replaced by a single base layer whose DiffID is their chain ID.
   */
  ghost predicate CollapsesAt(H: string -> string, a: seq<string>, b: seq<string>, k: nat) {
    1 <= k <= |a| && b == [FromComponents(H, a[..k])] + a[k..]
  }

  ghost predicate Collapses(H: string -> string, a: seq<string>, b: seq<string>) {
    exists k: nat :: CollapsesAt(H, a, b, k)
  }

  ghost predicate ValidComponents(cs: seq<string>) { forall i :: 0 <= i < |cs| ==> ValidComponent(cs[i]) }

  function Front(cs: seq<string>): seq<string>
    requires cs != []
  {
    cs[..|cs| - 1]
  }

  function Last(cs: seq<string>): string
    requires cs != []
  {
    cs[|cs| - 1]
  }

  /** A base layer identified by its DiffID; its chain ID is the DiffID itself. */
  predicate IsBase(cs: seq<string>) { |cs| == 1 && !("@" <= cs[0]) }

  lemma ChainOfBase(H: string -> string, cs: seq<string>)
    requires IsBase(cs)
    ensures FromComponents(H, cs) == cs[0]
  {
  }

  /** Any other chain ID is a digest of the parent's ID and the last component. */
  lemma ChainOfOthers(H: string -> string, cs: seq<string>)
    requires Ideal(H) && ValidComponents(cs) && cs != [] && !IsBase(cs)
    ensures FromComponents(H, cs) == H(FromComponents(H, Front(cs)) + "+" + Last(cs))
  {
    NoPlusInIDs(H, Front(cs));
  }

  /** A chain ID can be the DiffID of a base layer. */
  lemma ChainIDIsABase(H: string -> string, cs: seq<string>)
    requires Ideal(H) && ValidComponents(cs) && cs != []
    ensures IsBase([FromComponents(H, cs)])
  {
    if IsBase(cs) { ChainOfBase(H, cs); } else { ChainOfOthers(H, cs); }
  }

  /** Collapsing layers does not change the chain ID. */
  lemma {:induction false} CollapseKeepsChainID(H: string -> string, a: seq<string>, b: seq<string>, k: nat)
    requires Ideal(H) && ValidComponents(a) && ValidComponents(b) && CollapsesAt(H, a, b, k)
    ensures FromComponents(H, a) == FromComponents(H, b)
    decreases |a|
  {
    if k == |a| {
      assert a[..k] == a && b == [FromComponents(H, a)];
      ChainIDIsABase(H, a);
      ChainOfBase(H, b);
    } else {
      CollapseOneLess(H, a, b, k);
      CollapseKeepsChainID(H, Front(a), Front(b), k);
      ChainOfOthers(H, a);
      ChainOfOthers(H, b);
    }
  }

  lemma CollapseOneLess(H: string -> string, a: seq<string>, b: seq<string>, k: nat)
    requires CollapsesAt(H, a, b, k) && k < |a|
    ensures |b| > 1 && CollapsesAt(H, Front(a), Front(b), k) && Last(a) == Last(b)
  {
    assert Front(a)[..k] == a[..k] && a[k..] == Front(a)[k..] + [Last(a)];
  }

  lemma CollapseOneMore(H: string -> string, a: seq<string>, b: seq<string>)
    requires a != [] && b != [] && Collapses(H, Front(a), Front(b)) && Last(a) == Last(b)
    ensures Collapses(H, a, b)
  {
    var k: nat :| CollapsesAt(H, Front(a), Front(b), k);
    assert Front(a)[..k] == a[..k] && a[k..] == Front(a)[k..] + [Last(a)];
    assert b == Front(b) + [Last(b)];
    assert CollapsesAt(H, a, b, k);
  }

  lemma CollapsesToBase(H: string -> string, a: seq<string>, b: seq<string>)
    requires a != [] && IsBase(b) && FromComponents(H, a) == b[0]
    ensures Collapses(H, a, b)
  {
    assert a[..|a|] == a && a[|a|..] == [];
    assert CollapsesAt(H, a, b, |a|);
  }

  /** The components are the same, or one stack comes from the other by collapsing its lower layers. */
  ghost predicate SameButCollapsed(H: string -> string, a: seq<string>, b: seq<string>) {
    a == b || Collapses(H, a, b) || Collapses(H, b, a)
  }

  lemma OneMoreLayer(H: string -> string, a: seq<string>, b: seq<string>)
    requires a != [] && b != [] && SameButCollapsed(H, Front(a), Front(b)) && Last(a) == Last(b)
    ensures SameButCollapsed(H, a, b)
  {
    assert a == Front(a) + [Last(a)] && b == Front(b) + [Last(b)];
    if Collapses(H, Front(a), Front(b)) { CollapseOneMore(H, a, b); }
    if Collapses(H, Front(b), Front(a)) { CollapseOneMore(H, b, a); }
  }

  lemma {:induction false} SameChainIDCollapses(H: string -> string, a: seq<string>, b: seq<string>)
    requires Ideal(H) && ValidComponents(a) && ValidComponents(b)
    requires FromComponents(H, a) == FromComponents(H, b)
    ensures SameButCollapsed(H, a, b)
    decreases |a|
  {
    NoPlusInIDs(H, a);
    NoPlusInIDs(H, b);
    if a != [] && b != [] {
      if IsBase(b) {
        ChainOfBase(H, b);
        CollapsesToBase(H, a, b);
      } else if IsBase(a) {
        ChainOfBase(H, a);
        CollapsesToBase(H, b, a);
      } else {
        SameLastComponent(H, a, b);
        SameChainIDCollapses(H, Front(a), Front(b));
        OneMoreLayer(H, a, b);
      }
    }
  }

  lemma SameLastComponent(H: string -> string, a: seq<string>, b: seq<string>)
    requires Ideal(H) && ValidComponents(a) && ValidComponents(b) && a != [] && b != [] && !IsBase(a) && !IsBase(b)
    requires FromComponents(H, a) == FromComponents(H, b)
    ensures FromComponents(H, Front(a)) == FromComponents(H, Front(b)) && Last(a) == Last(b)
  {
    ChainOfOthers(H, a);
    ChainOfOthers(H, b);
    NoPlusInIDs(H, Front(a));
    NoPlusInIDs(H, Front(b));
    SplitIsUnique('+', FromComponents(H, Front(a)), Last(a), FromComponents(H, Front(b)), Last(b));
  }

  /**
    Two layer stacks have the same storage ID exactly when their non-empty layers have the same
    identity components in the same order, or one stack comes from the other by collapsing its lower
    layers into a base layer whose DiffID is their chain ID. Empty layers do not matter.
   */
  lemma ChainIDsAgreeIff(H: string -> string, a: seq<Layer>, b: seq<Layer>)
    requires Ideal(H) && ValidLayers(a) && ValidLayers(b)
    ensures ChainID(H, a) == ChainID(H, b) <==> SameButCollapsed(H, Components(a), Components(b))
  {
    ChainFromComponents(H, a);
    ChainFromComponents(H, b);
    var (x, y) := (Components(a), Components(b));
    if ChainID(H, a) == ChainID(H, b) {
      SameChainIDCollapses(H, x, y);
    }
    if Collapses(H, x, y) {
      var k: nat :| CollapsesAt(H, x, y, k);
      CollapseKeepsChainID(H, x, y, k);
    }
    if Collapses(H, y, x) {
      var k: nat :| CollapsesAt(H, y, x, k);
      CollapseKeepsChainID(H, y, x, k);
    }
  }

  /** Nothing else collapses into a stack whose base is not a digest of "parent+component". */
  lemma NotCollapsed(H: string -> string, a: seq<string>, b: seq<string>)
    requires Ideal(H) && ValidComponents(a) && Collapses(H, a, b) && NotAChainID(H, b[0])
    ensures a == b
  {
    var k: nat :| CollapsesAt(H, a, b, k);
    assert b[0] == FromComponents(H, a[..k]);
    if IsBase(a[..k]) {
      ChainOfBase(H, a[..k]);
      assert a == a[..k] + a[k..];
    } else {
      ChainOfOthers(H, a[..k]);
      assert false;
    }
  }

  /** So for such stacks equal storage IDs mean equal components. */
  lemma ChainIDsIdentifyStacks(H: string -> string, a: seq<Layer>, b: seq<Layer>)
    requires Ideal(H) && ValidLayers(a) && ValidLayers(b)
    requires BaseNotAChainID(H, a) && BaseNotAChainID(H, b)
    ensures ChainID(H, a) == ChainID(H, b) <==> Components(a) == Components(b)
  {
    ChainIDsAgreeIff(H, a, b);
    ChainFromComponents(H, a);
    ChainFromComponents(H, b);
    var (x, y) := (Components(a), Components(b));
    if Collapses(H, x, y) { NotCollapsed(H, x, y); }
    if Collapses(H, y, x) { NotCollapsed(H, y, x); }
  }

  /** Equal components mean the same kind of identity and the same value of it. */
  lemma ComponentsIdentifyLayers(a: Layer, b: Layer)
    requires ValidLayer(a) && ValidLayer(b) && a.Some? && b.Some?
    ensures Component(a.value) == Component(b.value) <==>
              && a.value.identifiedByTOC == b.value.identifiedByTOC
              && (if a.value.identifiedByTOC then a.value.tocDigest.value.encoded == b.value.tocDigest.value.encoded
                  else a.value.diffID.value.encoded == b.value.diffID.value.encoded)
  {
    ComponentShape(a);
    ComponentShape(b);
    if Component(a.value) == Component(b.value) && a.value.identifiedByTOC {
      assert Component(a.value)[5..] == a.value.tocDigest.value.encoded;
      assert Component(b.value)[5..] == b.value.tocDigest.value.encoded;
    }
  }

  /** The layer of a blob with this DiffID. */
  function DiffIDLayer(d: Digest): Layer { Some(Trusted(false, Some(d), None, None)) }

  lemma TopComponent(ls: seq<Layer>, below: seq<Layer>, d: Digest)
    requires ls == below + [DiffIDLayer(d)]
    requires forall i :: 0 <= i < |below| && below[i].Some? ==> Consistent(below[i].value)
    ensures Components(ls) == Components(below) + [d.encoded]
  {
    assert ls[..|ls| - 1] == below;
  }

  lemma TopChainID(H: string -> string, ls: seq<Layer>, below: seq<Layer>, d: Digest)
    requires ls == below + [DiffIDLayer(d)]
    requires forall i :: 0 <= i < |below| && below[i].Some? ==> Consistent(below[i].value)
    ensures ChainID(H, ls) == var parent := ChainID(H, below); if parent == "" then d.encoded else H(parent + "+" + d.encoded)
  {
    assert ls[..|ls| - 1] == below;
  }

  /** In particular a one-layer stack can share the ID of a two-layer one. */
  lemma ChainIDsCollide(H: string -> string, x: Digest, y: Digest, z: Digest)
    requires z.encoded == H(x.encoded + "+" + y.encoded) && x.encoded != ""
    ensures var (one, two) := ([DiffIDLayer(z)], [DiffIDLayer(x), DiffIDLayer(y)]);
            ChainID(H, one) == ChainID(H, two) && Components(one) != Components(two)
  {
    var (base, one) := ([DiffIDLayer(x)], [DiffIDLayer(z)]);
    var two := [DiffIDLayer(x), DiffIDLayer(y)];
    assert two == base + [DiffIDLayer(y)] && base == [] + [DiffIDLayer(x)] && one == [] + [DiffIDLayer(z)];
    TopChainID(H, one, [], z);
    TopChainID(H, base, [], x);
    TopChainID(H, two, base, y);
    TopComponent(one, [], z);
    TopComponent(base, [], x);
    TopComponent(two, base, y);
    assert |Components(one)| == 1 && |Components(two)| == 2;
  }

  // ----- Image IDs -----

  /** What a layer adds to the input: the digest of its TOC if it is identified by one. */
  function TocValue(t: Option<Digest>): string { if t.Some? then DigestString(t.value) else "" }

  /** The "|"-terminated list of TOC digests, empty for layers not identified by one. */
  function TocInput(ts: seq<Option<Digest>>): string {
    if ts == [] then "" else
      TocValue(ts[0]) + "|" + TocInput(ts[1..])
  }

  ghost predicate ValidTocs(ts: seq<Option<Digest>>) {
    forall i :: 0 <= i < |ts| && ts[i].Some? ==> WellFormed(ts[i].value) && ':' !in ts[i].value.algorithm
  }

  lemma DigestStringInjective(a: Digest, b: Digest)
    requires ':' !in a.algorithm && ':' !in b.algorithm
    requires DigestString(a) == DigestString(b)
    ensures a == b
  {
    SplitIsUnique(':', a.algorithm, a.encoded, b.algorithm, b.encoded);
  }

  lemma NoBarInDigests(d: Digest)
    requires WellFormed(d)
    ensures '|' !in DigestString(d) && DigestString(d) != ""
  {
    assert !IsHex('|');
  }

  lemma TocValueInjective(t: Option<Digest>, u: Option<Digest>)
    requires ValidTocs([t, u]) && TocValue(t) == TocValue(u)
    ensures t == u
  {
    assert [t, u][0] == t && [t, u][1] == u;
    if t.Some? && u.Some? { DigestStringInjective(t.value, u.value); }
  }

  lemma NoBarInValue(t: Option<Digest>)
    requires t.Some? ==> WellFormed(t.value)
    ensures '|' !in TocValue(t)
  {
    if t.Some? { NoBarInDigests(t.value); }
  }

  lemma {:induction false} TocInputInjective(a: seq<Option<Digest>>, b: seq<Option<Digest>>)
    requires ValidTocs(a) && ValidTocs(b)
    requires TocInput(a) == TocInput(b)
    ensures a == b
  {
    if a != [] && b != [] {
      NoBarInValue(a[0]);
      NoBarInValue(b[0]);
      SplitIsUnique('|', TocValue(a[0]), TocInput(a[1..]), TocValue(b[0]), TocInput(b[1..]));
      TocInputInjective(a[1..], b[1..]);
      TocValueInjective(a[0], b[0]);
      assert a == [a[0]] + a[1..] && b == [b[0]] + b[1..];
    }
  }

  /** A layer as the manifest lists it. */
  datatype LayerInfo = LayerInfo(digest: Digest, emptyLayer: bool)

  /** The TOC digests that enter into the image ID. */
  function UsedTocs(k: Known, layers: seq<LayerInfo>): (r: Option<seq<Option<Digest>>>) {
    UsedTocsFrom(k, layers, 0)
  }

  function UsedTocsFrom(k: Known, layers: seq<LayerInfo>, i: nat): (r: Option<seq<Option<Digest>>>)
    requires i <= |layers|
    ensures r.Some? ==> |r.value| == |layers| - i
    ensures r.Some? <==> forall j :: i <= j < |layers| ==> TrustedIdentity(k, j, layers[j].digest).Some?
    ensures r.Some? ==> forall j :: i <= j < |layers| ==>
              r.value[j - i] == (var t := TrustedIdentity(k, j, layers[j].digest).value;
                                 if t.identifiedByTOC then t.tocDigest else None)
    decreases |layers| - i
  {
    if i == |layers| then Some([]) else
      var t := TrustedIdentity(k, i, layers[i].digest);
      var rest := UsedTocsFrom(k, layers, i + 1);
      if t.None? || rest.None? then None else
        Some([if t.value.identifiedByTOC then t.value.tocDigest else None] + rest.value)
  }

  /** Whether some layer of the image is identified by its TOC. */
  predicate UsesToc(ts: seq<Option<Digest>>) { exists i :: 0 <= i < |ts| && ts[i].Some? }

  /** What the image ID takes from a manifest. */
  datatype Manifest =
    | Schema1(config: seq<Digest> -> Option<string>)   // the config made from DiffIDs, None if that fails
    | WithConfig(configDigest: Option<Digest>)         // schema2 or OCI; None if the digest is not that of an image config
    | Unrecognized

  datatype ImageID =
    | Computed(id: string)
    | Random                     // no recommended ID
    | InvalidConfig
    | Inconsistent               // "internal inconsistency: layer not found"

  /** The DiffIDs of the non-empty layers of a schema1 image, as far as there is one for each. */
  datatype DiffIDs = AllDiffIDs(ids: seq<Digest>) | NoDiffID | NotFound

  function DiffIDsFrom(k: Known, layers: seq<LayerInfo>, i: nat): DiffIDs
    requires i <= |layers|
    decreases |layers| - i
  {
    if i == |layers| then AllDiffIDs([])
    else if layers[i].emptyLayer then DiffIDsFrom(k, layers, i + 1)
    else
      var t := TrustedIdentity(k, i, layers[i].digest);
      if t.None? then NotFound
      else if t.value.diffID.None? then NoDiffID
      else
        var rest := DiffIDsFrom(k, layers, i + 1);
        if rest.AllDiffIDs? then AllDiffIDs([t.value.diffID.value] + rest.ids) else rest
  }

  /** The positions of the non-empty layers. */
  function NonEmpty(layers: seq<LayerInfo>, i: nat): (p: seq<nat>)
    requires i <= |layers|
    ensures forall n :: 0 <= n < |p| ==> i <= p[n] < |layers| && !layers[p[n]].emptyLayer
    ensures forall m, n :: 0 <= m < n < |p| ==> p[m] < p[n]
    decreases |layers| - i
  {
    if i == |layers| then [] else (if layers[i].emptyLayer then [] else [i]) + NonEmpty(layers, i + 1)
  }

  lemma {:induction false} NonEmptyIsAll(layers: seq<LayerInfo>, i: nat, j: nat)
    requires i <= j < |layers|
    ensures j in NonEmpty(layers, i) <==> !layers[j].emptyLayer
    decreases |layers| - i
  {
    if i < j { NonEmptyIsAll(layers, i + 1, j); }
  }

  predicate IsDiffID(k: Known, layers: seq<LayerInfo>, i: nat, d: Digest)
    requires i < |layers|
  {
    var t := TrustedIdentity(k, i, layers[i].digest);
    t.Some? && t.value.diffID == Some(d)
  }

  /** These are the DiffIDs of the non-empty layers from the i-th on, in order. */
  ghost predicate AreDiffIDs(k: Known, layers: seq<LayerInfo>, i: nat, ids: seq<Digest>)
    requires i <= |layers|
  {
    var p := NonEmpty(layers, i);
    |ids| == |p| && forall n :: 0 <= n < |p| ==> IsDiffID(k, layers, p[n], ids[n])
  }

  /** The loop over the layers collects the DiffIDs of the non-empty ones, root layer first. */
  lemma {:induction false} DiffIDsAreInOrder(k: Known, layers: seq<LayerInfo>, i: nat)
    requires i <= |layers| && DiffIDsFrom(k, layers, i).AllDiffIDs?
    ensures AreDiffIDs(k, layers, i, DiffIDsFrom(k, layers, i).ids)
    decreases |layers| - i
  {
    if i < |layers| {
      DiffIDsAreInOrder(k, layers, i + 1);
      var (ids, p) := (DiffIDsFrom(k, layers, i).ids, NonEmpty(layers, i));
      var (rest, q) := (DiffIDsFrom(k, layers, i + 1).ids, NonEmpty(layers, i + 1));
      if !layers[i].emptyLayer {
        assert ids[1..] == rest && p[1..] == q && p[0] == i;
        forall n | 0 <= n < |p| ensures IsDiffID(k, layers, p[n], ids[n]) {
          if n > 0 { assert p[n] == q[n - 1] && ids[n] == rest[n - 1] && IsDiffID(k, layers, q[n - 1], rest[n - 1]); }
        }
      }
    }
  }

  /** The ID of an image whose layers are not identified by TOCs. */
  function OrdinaryID(H: string -> string, k: Known, m: Manifest, layers: seq<LayerInfo>): ImageID {
    match m
    case Schema1(config) =>
      (match DiffIDsFrom(k, layers, 0)
       case AllDiffIDs(ids) => if config(ids).None? then InvalidConfig else Computed(H(config(ids).value))
       case NoDiffID => Random
       case NotFound => Inconsistent)
    case WithConfig(d) => if d.None? then InvalidConfig else Computed(d.value.encoded)
    case Unrecognized => Random
  }

  const TOC_PREFIX := "@With TOC:"

  /** The recommended ID of an image. */
  function ComputeID(H: string -> string, k: Known, m: Manifest, layers: seq<LayerInfo>): ImageID {
    var ordinary := OrdinaryID(H, k, m, layers);
    if !ordinary.Computed? then ordinary else
      var tocs := UsedTocs(k, layers);
      if tocs.None? then Inconsistent
      else if UsesToc(tocs.value) then Computed(H(TOC_PREFIX + TocInput(tocs.value)))
      else ordinary
  }

  /** Only a schema1 manifest has empty layers. */
  predicate ListsLayers(m: Manifest, layers: seq<LayerInfo>) {
    !m.Schema1? ==> forall i :: 0 <= i < |layers| ==> !layers[i].emptyLayer
  }

  /** Some non-empty layer is identified by its TOC, so that its DiffID is not known. */
  predicate LacksDiffID(k: Known, layers: seq<LayerInfo>, i: nat) {
    exists j :: i <= j < |layers| && !layers[j].emptyLayer
      && TrustedIdentity(k, j, layers[j].digest).Some? && TrustedIdentity(k, j, layers[j].digest).value.identifiedByTOC
  }

  /** The identities of all non-empty layers are known, as they are when the layers are committed. */
  predicate LayersKnown(k: Known, layers: seq<LayerInfo>, i: nat) {
    forall j :: i <= j < |layers| && !layers[j].emptyLayer ==> TrustedIdentity(k, j, layers[j].digest).Some?
  }

  predicate EmptyLayersKnown(k: Known, layers: seq<LayerInfo>) {
    forall j :: 0 <= j < |layers| && layers[j].emptyLayer ==> TrustedIdentity(k, j, layers[j].digest).Some?
  }

  lemma {:induction false} DiffIDsOfKnownLayers(k: Known, layers: seq<LayerInfo>, i: nat)
    requires i <= |layers| && LayersKnown(k, layers, i)
    ensures DiffIDsFrom(k, layers, i) == NoDiffID <==> LacksDiffID(k, layers, i)
    ensures DiffIDsFrom(k, layers, i) != NotFound
    decreases |layers| - i
  {
    if i < |layers| {
      DiffIDsOfKnownLayers(k, layers, i + 1);
      assert LacksDiffID(k, layers, i) <==>
        LacksDiffID(k, layers, i + 1) || (!layers[i].emptyLayer && TrustedIdentity(k, i, layers[i].digest).value.identifiedByTOC);
    }
  }

  /**
    When the layers are committed: the ID of a schema2 or OCI image never fails for lack of an
    identity. For a schema1 image it does exactly if an ordinary ID could be computed but the blob of
    an empty layer is not known; committing an empty layer does not need its identity, this does.
   */
  lemma InconsistentIff(H: string -> string, k: Known, m: Manifest, layers: seq<LayerInfo>)
    requires ListsLayers(m, layers) && LayersKnown(k, layers, 0)
    ensures m.WithConfig? ==> ComputeID(H, k, m, layers) != Inconsistent
    ensures m.Schema1? ==>
              (ComputeID(H, k, m, layers) == Inconsistent <==>
                 OrdinaryID(H, k, m, layers).Computed? && !EmptyLayersKnown(k, layers))
    ensures m.Schema1? ==> (ComputeID(H, k, m, layers) == Random <==> LacksDiffID(k, layers, 0))
  {
    DiffIDsOfKnownLayers(k, layers, 0);
    assert UsedTocs(k, layers).Some? <==> EmptyLayersKnown(k, layers);
  }

  lemma {:induction false} DiffIDsExist(k: Known, layers: seq<LayerInfo>, i: nat)
    requires i <= |layers|
    requires forall j :: i <= j < |layers| && !layers[j].emptyLayer ==>
               TrustedIdentity(k, j, layers[j].digest).Some? && TrustedIdentity(k, j, layers[j].digest).value.diffID.Some?
    ensures DiffIDsFrom(k, layers, i).AllDiffIDs?
    decreases |layers| - i
  {
    if i < |layers| { DiffIDsExist(k, layers, i + 1); }
  }

  /** No layer of the image is identified by its TOC, and the identities of all are known. */
  predicate Ordinary(k: Known, layers: seq<LayerInfo>) {
    forall j :: 0 <= j < |layers| ==>
      TrustedIdentity(k, j, layers[j].digest).Some? && !TrustedIdentity(k, j, layers[j].digest).value.identifiedByTOC
  }

  /**
    The ID of an ordinary image: for schema1 the digest of the config made from the DiffIDs of its
    non-empty layers, in order; for schema2 and OCI the config digest of the manifest.
   */
  lemma OrdinaryImageID(H: string -> string, k: Known, m: Manifest, layers: seq<LayerInfo>, ids: seq<Digest>)
    requires Ordinary(k, layers) && AreDiffIDs(k, layers, 0, ids)
    ensures ComputeID(H, k, m, layers) ==
              match m
              case Schema1(config) => if config(ids).None? then InvalidConfig else Computed(H(config(ids).value))
              case WithConfig(d) => if d.None? then InvalidConfig else Computed(d.value.encoded)
              case Unrecognized => Random
  {
    OnlyTheseDiffIDs(k, layers, ids);
    OrdinaryUsesNoToc(k, layers);
  }

  lemma OnlyTheseDiffIDs(k: Known, layers: seq<LayerInfo>, ids: seq<Digest>)
    requires Ordinary(k, layers) && AreDiffIDs(k, layers, 0, ids)
    ensures DiffIDsFrom(k, layers, 0) == AllDiffIDs(ids)
  {
    DiffIDsExist(k, layers, 0);
    DiffIDsAreInOrder(k, layers, 0);
    var all, p := DiffIDsFrom(k, layers, 0).ids, NonEmpty(layers, 0);
    forall n | 0 <= n < |p| ensures all[n] == ids[n] {
      assert IsDiffID(k, layers, p[n], all[n]) && IsDiffID(k, layers, p[n], ids[n]);
    }
    assert all == ids;
  }

  lemma OrdinaryUsesNoToc(k: Known, layers: seq<LayerInfo>)
    requires Ordinary(k, layers)
    ensures UsedTocs(k, layers).Some? && !UsesToc(UsedTocs(k, layers).value)
  {
    var tocs := UsedTocs(k, layers).value;
    forall i | 0 <= i < |tocs| ensures tocs[i].None? {
      assert !TrustedIdentity(k, i, layers[i].digest).value.identifiedByTOC;
    }
  }

  /** The ID of an image with a layer identified by its TOC is the digest of the TOCs, if there is an ID at all. */
  lemma TocImageID(H: string -> string, k: Known, m: Manifest, layers: seq<LayerInfo>, tocs: seq<Option<Digest>>)
    requires UsedTocs(k, layers) == Some(tocs) && UsesToc(tocs)
    requires m.WithConfig? && m.configDigest.Some?
    ensures ComputeID(H, k, m, layers) == Computed(H("@With TOC:" + TocInput(tocs)))
  {
  }

  /** Ordinary IDs are digests of configs, which are JSON values and so do not start with "@". */
  ghost predicate NamesConfig(H: string -> string, id: string) {
    exists config: string :: !("@" <= config) && id == H(config)
  }

  /**
    Image IDs agree exactly for ordinary images with one ordinary ID, or for images with layers
    identified by TOCs that use the same TOCs in the same places; the two kinds never share an ID.
    So the config, and layers not identified by a TOC, have no part in the ID of the second kind.
   */
  lemma ImageIDsAgreeIff(H: string -> string, k1: Known, m1: Manifest, l1: seq<LayerInfo>,
                         k2: Known, m2: Manifest, l2: seq<LayerInfo>)
    requires Ideal(H) && ComputeID(H, k1, m1, l1).Computed? && ComputeID(H, k2, m2, l2).Computed?
    requires NamesConfig(H, OrdinaryID(H, k1, m1, l1).id) && NamesConfig(H, OrdinaryID(H, k2, m2, l2).id)
    requires ValidTocs(UsedTocs(k1, l1).value) && ValidTocs(UsedTocs(k2, l2).value)
    ensures var t1, t2 := UsedTocs(k1, l1).value, UsedTocs(k2, l2).value;
            ComputeID(H, k1, m1, l1) == ComputeID(H, k2, m2, l2) <==>
              if UsesToc(t1) then t1 == t2
              else !UsesToc(t2) && OrdinaryID(H, k1, m1, l1) == OrdinaryID(H, k2, m2, l2)
  {
    var t1, t2 := UsedTocs(k1, l1).value, UsedTocs(k2, l2).value;
    var s1, s2 := TOC_PREFIX + TocInput(t1), TOC_PREFIX + TocInput(t2);
    assert s1[0] == '@' && s2[0] == '@';
    assert s1[|TOC_PREFIX|..] == TocInput(t1) && s2[|TOC_PREFIX|..] == TocInput(t2);
    if UsesToc(t1) && UsesToc(t2) && s1 == s2 {
      TocInputInjective(t1, t2);
    }
  }

  /** Two images with different configs share an ID as soon as their layers use the same TOCs. */
  lemma ConfigIsNotIdentified(H: string -> string, k: Known, c1: Digest, c2: Digest, layers: seq<LayerInfo>)
    requires UsedTocs(k, layers).Some? && UsesToc(UsedTocs(k, layers).value)
    ensures ComputeID(H, k, WithConfig(Some(c1)), layers) == ComputeID(H, k, WithConfig(Some(c2)), layers)
    ensures ComputeID(H, k, WithConfig(Some(c1)), layers).Computed?
  {
  }
}
