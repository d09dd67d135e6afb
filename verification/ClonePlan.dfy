/**
  Planning the copies of a multi-platform image: every selected instance is copied, and instances
  are cloned to add compression variants that a platform does not have yet.
 */
module ClonePlan {
  import opened Common

  type Algorithm = string

  /** A platform in comparable form. */
  datatype Platform = Platform(architecture: string, os: string, osVersion: string, osFeatures: string, variant: string)

  datatype Instance = Instance(platform: Platform, algorithms: seq<Algorithm>, artifactType: string, annotations: map<string, string>)

  type List = map<Digest, Instance>

  datatype Variant = Variant(algorithm: Algorithm, level: Option<int>)

  datatype Selection = CopyAllImages | CopySpecificImages(instances: seq<Digest>)

  datatype Options = Options(
    selection: Selection,
    ensureVariants: seq<Variant>,
    forceCompressionFormat: bool,
    compressionFormatDefined: bool,
    knownAlgorithms: set<Algorithm>)

  datatype InstanceCopy =
    | Copy(source: Digest, forceCompressionFormat: bool)
    | Clone(source: Digest, artifactType: string, variant: Variant, platform: Platform, annotations: map<string, string>)

  datatype Error = NotImplemented | InvalidAlgorithm | UnknownInstance | NoDefaultFormat

  type Compressions = map<Platform, set<Algorithm>>

  /** Some listed instance of the platform uses the algorithm. */
  ghost predicate Offered(list: List, digests: seq<Digest>, p: Platform, a: Algorithm) {
    exists i :: 0 <= i < |digests| && digests[i] in list && list[digests[i]].platform == p && a in list[digests[i]].algorithms
  }

  /** One of the first n listed instances is for the platform. */
  ghost predicate Present(list: List, digests: seq<Digest>, n: int, p: Platform) {
    exists i :: 0 <= i < n && i < |digests| && digests[i] in list && list[digests[i]].platform == p
  }

  ghost predicate Requested(o: Options, n: int, a: Algorithm) {
    exists i :: 0 <= i < n && i < |o.ensureVariants| && o.ensureVariants[i].algorithm == a
  }

  method PlatformCompressionMap(list: List, digests: seq<Digest>) returns (r: Option<Compressions>)
    ensures r.Some? <==> forall i :: 0 <= i < |digests| ==> digests[i] in list
    ensures r.Some? ==> forall p :: p in r.value <==> Present(list, digests, |digests|, p)
    ensures r.Some? ==> forall p, a :: p in r.value ==> (a in r.value[p] <==> Offered(list, digests, p, a))
  {
    var m: Compressions := map[];
    for i := 0 to |digests|
      invariant forall j :: 0 <= j < i ==> digests[j] in list
      invariant forall p :: p in m <==> Present(list, digests, i, p)
      invariant forall p, a :: p in m ==> (a in m[p] <==> Offered(list, digests[..i], p, a))
    {
      if digests[i] !in list { return None; }
      var instance := list[digests[i]];
      var s := if instance.platform in m then m[instance.platform] else {};
      ghost var m0 := m;
      m := m[instance.platform := s + (set a | a in instance.algorithms)];
      assert digests[..i + 1][..i] == digests[..i] && digests[..i + 1][i] == digests[i];
      OneMoreInstance(list, digests, i, m0, m);
    }
    assert digests[..|digests|] == digests;
    return Some(m);
  }

  lemma OneMoreInstance(list: List, digests: seq<Digest>, i: nat, m: Compressions, m': Compressions)
    requires i < |digests| && digests[i] in list
    requires forall p :: p in m <==> Present(list, digests, i, p)
    requires forall p, a :: p in m ==> (a in m[p] <==> Offered(list, digests[..i], p, a))
    requires var x := list[digests[i]];
             m' == m[x.platform := (if x.platform in m then m[x.platform] else {}) + (set a | a in x.algorithms)]
    ensures forall p :: p in m' <==> Present(list, digests, i + 1, p)
    ensures forall p, a :: p in m' ==> (a in m'[p] <==> Offered(list, digests[..i + 1], p, a))
  {
    var x := list[digests[i]];
    forall p, a | p in m'
      ensures a in m'[p] <==> Offered(list, digests[..i + 1], p, a)
    {
      if Offered(list, digests[..i], p, a) {
        var k :| 0 <= k < i && digests[..i][k] in list && list[digests[..i][k]].platform == p && a in list[digests[..i][k]].algorithms;
        assert digests[..i + 1][k] == digests[..i][k];
        assert Present(list, digests, i, p);
      }
      if p == x.platform && a in x.algorithms { assert digests[..i + 1][i] == digests[i]; }
      if Offered(list, digests[..i + 1], p, a) {
        var k :| 0 <= k < i + 1 && digests[..i + 1][k] in list && list[digests[..i + 1][k]].platform == p && a in list[digests[..i + 1][k]].algorithms;
        if k < i { assert digests[..i][k] == digests[..i + 1][k]; }
      }
    }
  }

  // ----- What a plan contains -----

  /** The sources of the plain copies, in order. */
  function Copies(res: seq<InstanceCopy>): seq<Digest> {
    if res == [] then [] else
      Copies(res[..|res| - 1]) + (if res[|res| - 1].Copy? then [res[|res| - 1].source] else [])
  }

  /** How many clones add the algorithm to the platform. */
  function Clones(res: seq<InstanceCopy>, p: Platform, a: Algorithm): nat {
    if res == [] then 0 else
      var c := res[|res| - 1];
      Clones(res[..|res| - 1], p, a) + if c.Clone? && c.platform == p && c.variant.algorithm == a then 1 else 0
  }

  predicate Selected(o: Options, d: Digest) { o.selection.CopySpecificImages? ==> d in o.selection.instances }

  function SelectedDigests(o: Options, digests: seq<Digest>): seq<Digest> {
    if digests == [] then [] else
      var last := digests[|digests| - 1];
      SelectedDigests(o, digests[..|digests| - 1]) + if Selected(o, last) then [last] else []
  }

  lemma {:induction false} AllAreSelected(o: Options, digests: seq<Digest>)
    requires o.selection.CopyAllImages?
    ensures SelectedDigests(o, digests) == digests
  {
    if digests != [] { AllAreSelected(o, digests[..|digests| - 1]); }
  }

  /** Every entry describes a listed instance, and a clone asks for a requested variant. */
  ghost predicate Described(list: List, o: Options, c: InstanceCopy) {
    && c.source in list
    && (c.Clone? ==> var x := list[c.source];
          c.platform == x.platform && c.artifactType == x.artifactType && c.annotations == x.annotations && c.variant in o.ensureVariants)
    && (c.Copy? ==> c.forceCompressionFormat == o.forceCompressionFormat)
  }

  /** The sets contain what is offered or already planned; each planned variant has exactly one clone. */
  ghost predicate Tracks(list: List, digests: seq<Digest>, m: Compressions, res: seq<InstanceCopy>) {
    && (forall p, a :: Offered(list, digests, p, a) && p in m ==> a in m[p])
    && (forall p, a :: Clones(res, p, a) == CloneNeeded(list, digests, p, a, p in m && a in m[p]))
  }

  /** One clone for what is wanted and not offered. */
  ghost function CloneNeeded(list: List, digests: seq<Digest>, p: Platform, a: Algorithm, wanted: bool): nat {
    if wanted && !Offered(list, digests, p, a) then 1 else 0
  }

  lemma Append(res: seq<InstanceCopy>, c: InstanceCopy)
    ensures Copies(res + [c]) == Copies(res) + if c.Copy? then [c.source] else []
    ensures forall p, a :: Clones(res + [c], p, a) ==
              Clones(res, p, a) + (if c.Clone? && c.platform == p && c.variant.algorithm == a then 1 else 0)
  {
    assert (res + [c])[..|res|] == res;
  }

  lemma TracksClone(list: List, digests: seq<Digest>, m: Compressions, res: seq<InstanceCopy>, c: InstanceCopy)
    requires Tracks(list, digests, m, res) && c.Clone? && c.platform in m && c.variant.algorithm !in m[c.platform]
    ensures Tracks(list, digests, m[c.platform := m[c.platform] + {c.variant.algorithm}], res + [c])
  {
    var m' := m[c.platform := m[c.platform] + {c.variant.algorithm}];
    Append(res, c);
    forall p, a
      ensures Clones(res + [c], p, a) == CloneNeeded(list, digests, p, a, p in m' && a in m'[p])
    {
      assert Clones(res, p, a) == CloneNeeded(list, digests, p, a, p in m && a in m[p]);
    }
  }

  ghost predicate AllDescribed(list: List, o: Options, res: seq<InstanceCopy>) {
    forall i :: 0 <= i < |res| ==> Described(list, o, res[i])
  }

  /** The set of the platform has what it had and the first n requested algorithms; the other sets are the same. */
  ghost predicate Added(o: Options, p: Platform, n: int, m: Compressions, m': Compressions) {
    && p in m && p in m' && m' == m[p := m'[p]]
    && forall a :: a in m'[p] <==> a in m[p] || Requested(o, n, a)
  }

  lemma AddedOneMore(o: Options, p: Platform, n: nat, m: Compressions, m': Compressions)
    requires n < |o.ensureVariants| && Added(o, p, n, m, m')
    ensures Added(o, p, n + 1, m, m'[p := m'[p] + {o.ensureVariants[n].algorithm}])
  {
    var added := o.ensureVariants[n].algorithm;
    forall a ensures Requested(o, n + 1, a) <==> Requested(o, n, a) || a == added {
      if a == added { assert o.ensureVariants[n].algorithm == a; }
    }
  }

  /** After the first n variants: what the loop over the variants of one instance keeps. */
  ghost predicate Adding(list: List, digests: seq<Digest>, o: Options, p: Platform, n: int,
                         m: Compressions, res: seq<InstanceCopy>, m': Compressions, res': seq<InstanceCopy>) {
    && Tracks(list, digests, m', res') && AllDescribed(list, o, res') && Copies(res') == Copies(res)
    && Added(o, p, n, m, m')
  }

  lemma SkipVariant(list: List, digests: seq<Digest>, o: Options, p: Platform, n: nat,
                    m: Compressions, res: seq<InstanceCopy>, m': Compressions, res': seq<InstanceCopy>)
    requires n < |o.ensureVariants| && Adding(list, digests, o, p, n, m, res, m', res')
    requires o.ensureVariants[n].algorithm in m'[p]
    ensures Adding(list, digests, o, p, n + 1, m, res, m', res')
  {
    AddedOneMore(o, p, n, m, m');
    var have := m'[p];
    assert have + {o.ensureVariants[n].algorithm} == have && m'[p := have] == m';
  }

  lemma AddVariant(list: List, digests: seq<Digest>, o: Options, n: nat,
                   m: Compressions, res: seq<InstanceCopy>, m': Compressions, res': seq<InstanceCopy>, c: InstanceCopy)
    requires c.Clone? && n < |o.ensureVariants| && Adding(list, digests, o, c.platform, n, m, res, m', res')
    requires c.variant == o.ensureVariants[n] && c.variant.algorithm !in m'[c.platform] && Described(list, o, c)
    ensures Adding(list, digests, o, c.platform, n + 1, m, res, m'[c.platform := m'[c.platform] + {c.variant.algorithm}], res' + [c])
  {
    AddedOneMore(o, c.platform, n, m, m');
    Append(res', c);
    TracksClone(list, digests, m', res', c);
  }

  /** Plans the clones of one instance: one for each requested variant that its platform lacks. */
  method AddClones(list: List, ghost digests: seq<Digest>, o: Options, d: Digest, m: Compressions, res: seq<InstanceCopy>)
    returns (m': Compressions, res': seq<InstanceCopy>)
    requires d in list && list[d].platform in m && Tracks(list, digests, m, res) && AllDescribed(list, o, res)
    ensures Adding(list, digests, o, list[d].platform, |o.ensureVariants|, m, res, m', res')
  {
    var x := list[d];
    m', res' := m, res;
    for j := 0 to |o.ensureVariants|
      invariant Adding(list, digests, o, x.platform, j, m, res, m', res')
    {
      var v := o.ensureVariants[j];
      if v.algorithm !in m'[x.platform] {
        var c := Clone(d, x.artifactType, v, x.platform, x.annotations);
        AddVariant(list, digests, o, j, m, res, m', res', c);
        m', res' := m'[x.platform := m'[x.platform] + {v.algorithm}], res' + [c];
      } else {
        SkipVariant(list, digests, o, x.platform, j, m, res, m', res');
      }
    }
  }

  /** The platforms of the first n instances have all the requested variants. */
  ghost predicate Settled(list: List, digests: seq<Digest>, o: Options, m: Compressions, n: int) {
    forall p, a :: p in m ==>
      (a in m[p] <==> Offered(list, digests, p, a) || (Present(list, digests, n, p) && Requested(o, |o.ensureVariants|, a)))
  }

  lemma SettlesOneMore(list: List, digests: seq<Digest>, o: Options, m: Compressions, m': Compressions, i: nat)
    requires i < |digests| && digests[i] in list && list[digests[i]].platform in m && Settled(list, digests, o, m, i)
    requires Added(o, list[digests[i]].platform, |o.ensureVariants|, m, m')
    ensures Settled(list, digests, o, m', i + 1)
  {
    var x := list[digests[i]].platform;
    assert Present(list, digests, i + 1, x);
    assert forall p :: p != x ==> (Present(list, digests, i + 1, p) <==> Present(list, digests, i, p));
  }

  predicate NoFormat(o: Options) { o.forceCompressionFormat && !o.compressionFormatDefined }

  /** One copy for each selected instance, followed by its clones; None if a required format is not defined. */
  method PlanInstances(list: List, digests: seq<Digest>, o: Options, compressions: Compressions) returns (r: Option<seq<InstanceCopy>>, m: Compressions)
    requires forall i :: 0 <= i < |digests| ==> digests[i] in list && list[digests[i]].platform in compressions
    requires Tracks(list, digests, compressions, []) && Settled(list, digests, o, compressions, 0)
    requires o.selection.CopySpecificImages? ==> o.ensureVariants == []
    ensures r.Some? <==> (NoFormat(o) ==> SelectedDigests(o, digests) == [])
    ensures r.Some? ==> Copies(r.value) == SelectedDigests(o, digests)
    ensures r.Some? ==> AllDescribed(list, o, r.value)
    ensures r.Some? ==> m.Keys == compressions.Keys && Tracks(list, digests, m, r.value) && Settled(list, digests, o, m, |digests|)
  {
    var res := [];
    m := compressions;
    for i := 0 to |digests|
      invariant m.Keys == compressions.Keys && Tracks(list, digests, m, res)
      invariant Copies(res) == SelectedDigests(o, digests[..i])
      invariant AllDescribed(list, o, res)
      invariant Settled(list, digests, o, m, i)
      invariant NoFormat(o) ==> SelectedDigests(o, digests[..i]) == []
    {
      assert digests[..i + 1][..i] == digests[..i];
      if o.selection.CopyAllImages? || digests[i] in o.selection.instances {
        if o.forceCompressionFormat && !o.compressionFormatDefined {
          SelectionGrows(o, digests, i + 1);
          return None, m;
        }
        var c := Copy(digests[i], o.forceCompressionFormat);
        Append(res, c);
        ghost var m0 := m;
        m, res := AddClones(list, digests, o, digests[i], m, res + [c]);
        SettlesOneMore(list, digests, o, m0, m, i);
      }
    }
    assert digests[..|digests|] == digests;
    return Some(res), m;
  }

  /** One clone for each platform present and algorithm requested that no listed instance offers. */
  ghost predicate RightClones(list: List, digests: seq<Digest>, o: Options, res: seq<InstanceCopy>) {
    forall p, a ::
      Clones(res, p, a) == CloneNeeded(list, digests, p, a, Present(list, digests, |digests|, p) && Requested(o, |o.ensureVariants|, a))
  }

  lemma SettledIsRight(list: List, digests: seq<Digest>, o: Options, m: Compressions, res: seq<InstanceCopy>)
    requires forall p :: p in m <==> Present(list, digests, |digests|, p)
    requires Tracks(list, digests, m, res) && Settled(list, digests, o, m, |digests|)
    ensures RightClones(list, digests, o, res)
  {
    forall p, a
      ensures Clones(res, p, a) == CloneNeeded(list, digests, p, a, Present(list, digests, |digests|, p) && Requested(o, |o.ensureVariants|, a))
    {
      assert Clones(res, p, a) == CloneNeeded(list, digests, p, a, p in m && a in m[p]);
    }
  }

  lemma OfferedIsSettled(list: List, digests: seq<Digest>, o: Options, m: Compressions)
    requires forall p, a :: p in m ==> (a in m[p] <==> Offered(list, digests, p, a))
    ensures Tracks(list, digests, m, []) && Settled(list, digests, o, m, 0)
  {
  }

  method PrepareInstanceCopies(list: List, digests: seq<Digest>, o: Options) returns (r: Result<seq<InstanceCopy>, Error>)
    ensures r.Ok? <==>
              && (o.selection.CopySpecificImages? ==> o.ensureVariants == [])
              && (forall i :: 0 <= i < |o.ensureVariants| ==> o.ensureVariants[i].algorithm in o.knownAlgorithms)
              && (forall i :: 0 <= i < |digests| ==> digests[i] in list)
              && (NoFormat(o) ==> SelectedDigests(o, digests) == [])
    ensures r.Ok? ==> Copies(r.value) == SelectedDigests(o, digests)
    ensures r.Ok? && o.selection.CopyAllImages? ==> Copies(r.value) == digests
    ensures r.Ok? ==> AllDescribed(list, o, r.value)
    ensures r.Ok? ==> RightClones(list, digests, o, r.value)
  {
    if o.selection.CopySpecificImages? && |o.ensureVariants| > 0 { return Err(NotImplemented); }
    for i := 0 to |o.ensureVariants|
      invariant forall j :: 0 <= j < i ==> o.ensureVariants[j].algorithm in o.knownAlgorithms
    {
      if o.ensureVariants[i].algorithm !in o.knownAlgorithms { return Err(InvalidAlgorithm); }
    }
    var compressions := PlatformCompressionMap(list, digests);
    if compressions.None? { return Err(UnknownInstance); }
    OfferedIsSettled(list, digests, o, compressions.value);
    forall i | 0 <= i < |digests| ensures list[digests[i]].platform in compressions.value {
      assert Present(list, digests, |digests|, list[digests[i]].platform);
    }
    var res, m := PlanInstances(list, digests, o, compressions.value);
    if res.None? { return Err(NoDefaultFormat); }
    if o.selection.CopyAllImages? { AllAreSelected(o, digests); }
    SettledIsRight(list, digests, o, m, res.value);
    return Ok(res.value);
  }

  lemma {:induction false} SelectionGrows(o: Options, digests: seq<Digest>, i: nat)
    requires i <= |digests| && SelectedDigests(o, digests[..i]) != []
    ensures SelectedDigests(o, digests) != []
    decreases |digests| - i
  {
    if i == |digests| {
      assert digests[..i] == digests;
    } else {
      assert digests[..i + 1][..i] == digests[..i];
      SelectionGrows(o, digests, i + 1);
    }
  }
}
