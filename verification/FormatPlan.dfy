/** Planning which manifest format to write, and which ones to try after it. */
module FormatPlan {
  import opened Common

  const OCI_MANIFEST := "application/vnd.oci.image.manifest.v1+json"
  const OCI_INDEX := "application/vnd.oci.image.index.v1+json"
  const DOCKER_SCHEMA2 := "application/vnd.docker.distribution.manifest.v2+json"
  const DOCKER_LIST := "application/vnd.docker.distribution.manifest.list.v2+json"
  const DOCKER_SCHEMA1_SIGNED := "application/vnd.docker.distribution.manifest.v1+prettyjws"
  const DOCKER_SCHEMA1 := "application/vnd.docker.distribution.manifest.v1+json"

  const PREFERRED_TYPES: seq<string> := [DOCKER_SCHEMA2, DOCKER_SCHEMA1_SIGNED]
  const ALL_TYPES: seq<string> := [OCI_MANIFEST, DOCKER_SCHEMA2, DOCKER_SCHEMA1_SIGNED, DOCKER_SCHEMA1]

  function NormalizedMIMEType(t: string): string {
    if t in [DOCKER_SCHEMA1, DOCKER_SCHEMA1_SIGNED, OCI_MANIFEST, OCI_INDEX, DOCKER_SCHEMA2, DOCKER_LIST] then t
    else DOCKER_SCHEMA1_SIGNED
  }

  predicate UniversallySupported(algorithm: string) { algorithm == "gzip" }

  predicate SupportsAlgorithm(mimeType: string, algorithm: string) {
    UniversallySupported(algorithm) || (algorithm in ["zstd", "zstd:chunked"] && mimeType == OCI_MANIFEST)
  }

  datatype Inputs = Inputs(
    srcMIMEType: string,
    destSupported: seq<string>,
    forced: string,                        // "" if the user did not choose
    compression: Option<string>,           // the compression explicitly asked for
    requiresOCIEncryption: bool,
    canModifyManifest: bool)

  /** The destination's types: the forced one, or the listed ones, or all. */
  function DestTypes(inputs: Inputs): seq<string> {
    if inputs.forced != "" then [inputs.forced] else if inputs.destSupported == [] then ALL_TYPES else inputs.destSupported
  }

  predicate Restrictive(inputs: Inputs) { inputs.compression.Some? && !UniversallySupported(inputs.compression.value) }

  predicate PassesFilters(inputs: Inputs, t: string) {
    && (inputs.requiresOCIEncryption ==> t == OCI_MANIFEST)
    && (Restrictive(inputs) ==> SupportsAlgorithm(t, inputs.compression.value))
  }

  /** Only OCI manifests can be encrypted, or describe compression other than gzip, and that only of the zstd kinds. */
  predicate MeetsRequirements(inputs: Inputs, t: string) {
    && (inputs.requiresOCIEncryption ==> t == "application/vnd.oci.image.manifest.v1+json")
    && (inputs.compression.Some? && inputs.compression.value != "gzip" ==>
          inputs.compression.value in {"zstd", "zstd:chunked"} && t == "application/vnd.oci.image.manifest.v1+json")
  }

  lemma FiltersAreRequirements(inputs: Inputs, t: string)
    ensures PassesFilters(inputs, t) <==> MeetsRequirements(inputs, t)
    ensures Restrictive(inputs) <==> inputs.compression.Some? && inputs.compression.value != "gzip"
    ensures Restrictive(inputs) ==>
              (SupportsAlgorithm(t, inputs.compression.value) <==> MeetsRequirements(inputs.(requiresOCIEncryption := false), t))
  {
  }

  /** A manifest of an unknown type is taken for a signed schema1 one, and only that. */
  lemma UnknownTypeIsSchema1(t: string)
    ensures var known := {OCI_MANIFEST, OCI_INDEX, DOCKER_SCHEMA2, DOCKER_LIST, DOCKER_SCHEMA1_SIGNED, DOCKER_SCHEMA1};
            && NormalizedMIMEType(t) in known && (t in known ==> NormalizedMIMEType(t) == t)
            && (t !in known ==> NormalizedMIMEType(t) == "application/vnd.docker.distribution.manifest.v1+prettyjws")
  {
  }

  predicate Usable(inputs: Inputs, t: string) { t in DestTypes(inputs) && MeetsRequirements(inputs, t) }

  datatype Plan = Plan(preferred: string, needsConversion: bool, others: seq<string>)

  datatype Error = Unsupported(why: Reason) | Internal(which: InternalError)

  datatype InternalError =
    | NoDestinationTypes | ForcedTypeRejected | AllTypesRejected | ListedTypesRejected | NoCandidates

  datatype Reason = CompressionAndEncryption | Encryption | Compression

  // ----- Ordered sets -----

  predicate NoDuplicates(s: seq<string>) { forall i, j :: 0 <= i < j < |s| ==> s[i] != s[j] }

  /** The elements of a list in the order of their first appearance. */
  function Firsts(s: seq<string>): seq<string> {
    if s == [] then [] else
      var before := Firsts(s[..|s| - 1]);
      var last := s[|s| - 1];
      if last in s[..|s| - 1] then before else before + [last]
  }

  lemma {:induction false} FirstsAreDistinct(s: seq<string>)
    ensures NoDuplicates(Firsts(s))
    ensures forall t :: t in Firsts(s) <==> t in s
    ensures s != [] ==> Firsts(s) != [] && Firsts(s)[0] == s[0]
  {
    if s != [] {
      FirstsAreDistinct(s[..|s| - 1]);
      assert s == s[..|s| - 1] + [s[|s| - 1]];
    }
  }

  class OrderedSet {
    var list: seq<string>
    var included: set<string>
    ghost var appended: seq<string>

    ghost predicate Valid() reads this {
      list == Firsts(appended) && included == set t | t in appended
    }

    constructor ()
      ensures Valid() && appended == []
    {
      list, included, appended := [], {}, [];
    }

    /** Adds an element at the end, unless it is there. */
    method Append(s: string)
      requires Valid()
      modifies this
      ensures Valid() && appended == old(appended) + [s]
    {
      assert (appended + [s])[..|appended|] == appended;
      if s !in included {
        list := list + [s];
        included := included + {s};
      }
      appended := appended + [s];
    }
  }

  // ----- The plan -----

  function Keep(s: seq<string>, supported: set<string>): seq<string> {
    if s == [] then [] else
      Keep(s[..|s| - 1], supported) + if s[|s| - 1] in supported then [s[|s| - 1]] else []
  }

  lemma {:induction false} KeepKeeps(s: seq<string>, supported: set<string>)
    ensures forall t :: t in Keep(s, supported) <==> t in s && t in supported
  {
    if s != [] {
      KeepKeeps(s[..|s| - 1], supported);
      assert s == s[..|s| - 1] + [s[|s| - 1]];
    }
  }

  /** The candidates in the order in which they are considered, with repetitions. */
  function Candidates(inputs: Inputs, supported: set<string>): seq<string> {
    var src := NormalizedMIMEType(inputs.srcMIMEType);
    (if src in supported then [src] else []) + Keep(PREFERRED_TYPES, supported) + Keep(DestTypes(inputs), supported)
  }

  /**
    The plan lists exactly the usable types, each once, in the order of preference; the source type
    comes first if it is usable, and a conversion is needed exactly if it is not.
   */
  ghost predicate GoodPlan(inputs: Inputs, p: Plan) {
    var types := [p.preferred] + p.others;
    var src := NormalizedMIMEType(inputs.srcMIMEType);
    && NoDuplicates(types)
    && (forall t :: t in types <==> Usable(inputs, t))
    && (p.needsConversion <==> !Usable(inputs, src))
    && (p.preferred == src <==> Usable(inputs, src))
    && types == Firsts(Candidates(inputs, set t | t in DestTypes(inputs) && MeetsRequirements(inputs, t)))
  }

  /** Why no type is usable. */
  function Refusal(inputs: Inputs): Error {
    if inputs.forced == "" && inputs.destSupported == [] then
      if !Restrictive(inputs) then Internal(AllTypesRejected) else Unsupported(Compression)
    else if inputs.requiresOCIEncryption && Restrictive(inputs) then Unsupported(CompressionAndEncryption)
    else if inputs.requiresOCIEncryption then Unsupported(Encryption)
    else if Restrictive(inputs) then Unsupported(Compression)
    else Internal(if inputs.forced != "" then ForcedTypeRejected else ListedTypesRejected)
  }

  /** The reason given is the true one: what is asked for, and supported by none of the destination's types. */
  ghost predicate Justified(inputs: Inputs, why: Reason) {
    match why
    case CompressionAndEncryption =>
      && inputs.requiresOCIEncryption && Restrictive(inputs)
      && forall t :: t in DestTypes(inputs) ==> !(t == OCI_MANIFEST && SupportsAlgorithm(t, inputs.compression.value))
    case Encryption => inputs.requiresOCIEncryption && OCI_MANIFEST !in DestTypes(inputs)
    case Compression =>
      && Restrictive(inputs)
      && forall t :: t in DestTypes(inputs) ==> !SupportsAlgorithm(t, inputs.compression.value)
  }

  /** The destination's types, and those of them that pass the filters. */
  method SupportedTypes(inputs: Inputs) returns (destTypes: seq<string>, supported: set<string>)
    ensures destTypes == DestTypes(inputs) && destTypes != []
    ensures supported == set t | t in DestTypes(inputs) && MeetsRequirements(inputs, t)
  {
    destTypes := inputs.destSupported;
    if inputs.forced != "" { destTypes := [inputs.forced]; }
    if |destTypes| == 0 { destTypes := ALL_TYPES; }
    supported := {};
    for i := 0 to |destTypes|
      invariant supported == set t | t in destTypes[..i] && MeetsRequirements(inputs, t)
    {
      assert destTypes[..i + 1] == destTypes[..i] + [destTypes[i]];
      FiltersAreRequirements(inputs, destTypes[i]);
      if PassesFilters(inputs, destTypes[i]) { supported := supported + {destTypes[i]}; }
    }
    assert destTypes[..|destTypes|] == destTypes;
  }

  method DetermineManifestConversion(inputs: Inputs) returns (r: Result<Plan, Error>)
    // Internal errors do not happen.
    ensures r.Err? ==> r.error.Unsupported? && Justified(inputs, r.error.why)
    ensures r.Ok? <==> exists t :: Usable(inputs, t)
    ensures r.Ok? && !inputs.canModifyManifest ==> r.value == Plan(NormalizedMIMEType(inputs.srcMIMEType), false, [])
    ensures r.Ok? && inputs.canModifyManifest ==> GoodPlan(inputs, r.value)
  {
    var srcType := NormalizedMIMEType(inputs.srcMIMEType);
    var destTypes, supported := SupportedTypes(inputs);
    if supported == {} {
      if |destTypes| == 0 { return Err(Internal(NoDestinationTypes)); }
      forall t ensures !Usable(inputs, t) { assert t !in supported; }
      RefusalIsNotInternal(inputs);
      return Err(Refusal(inputs));
    }
    ghost var s :| s in supported;
    assert Usable(inputs, s);
    var prioritized := new OrderedSet();
    if srcType in supported { prioritized.Append(srcType); }
    if !inputs.canModifyManifest { return Ok(Plan(srcType, false, [])); }
    AppendSupported(prioritized, PREFERRED_TYPES, supported);
    AppendSupported(prioritized, destTypes, supported);
    PlanIsRight(inputs, supported, prioritized.list);
    if |prioritized.list| == 0 { return Err(Internal(NoCandidates)); }
    return Ok(Plan(prioritized.list[0], prioritized.list[0] != srcType, prioritized.list[1..]));
  }

  /** Appends those of the types that are supported. */
  method AppendSupported(o: OrderedSet, types: seq<string>, supported: set<string>)
    requires o.Valid()
    modifies o
    ensures o.Valid() && o.appended == old(o.appended) + Keep(types, supported)
  {
    for i := 0 to |types|
      invariant o.Valid() && o.appended == old(o.appended) + Keep(types[..i], supported)
    {
      assert types[..i + 1][..i] == types[..i];
      if types[i] in supported { o.Append(types[i]); }
    }
    assert types[..|types|] == types;
  }

  lemma RefusalIsNotInternal(inputs: Inputs)
    requires forall t :: !Usable(inputs, t)
    ensures Refusal(inputs).Unsupported? && Justified(inputs, Refusal(inputs).why)
  {
    var t := DestTypes(inputs)[0];
    assert !Usable(inputs, t);
    if inputs.forced == "" && inputs.destSupported == [] {
      assert t == OCI_MANIFEST;
    }
    forall u | u in DestTypes(inputs)
      ensures !MeetsRequirements(inputs, u)
    {
      assert !Usable(inputs, u);
    }
  }

  lemma PlanIsRight(inputs: Inputs, supported: set<string>, types: seq<string>)
    requires supported == (set t | t in DestTypes(inputs) && MeetsRequirements(inputs, t)) && supported != {}
    requires types == Firsts(Candidates(inputs, supported))
    ensures types != []
    ensures GoodPlan(inputs, Plan(types[0], types[0] != NormalizedMIMEType(inputs.srcMIMEType), types[1..]))
  {
    var c := Candidates(inputs, supported);
    KeepKeeps(PREFERRED_TYPES, supported);
    KeepKeeps(DestTypes(inputs), supported);
    FirstsAreDistinct(c);
    assert forall t :: t in c <==> t in supported;
    var s :| s in supported;
    assert s in c;
    assert [types[0]] + types[1..] == types;
  }
}
