/**
  Copying the layers of an image: one goroutine per layer, each writing its result at the layer's
  index, and the collection of the results once all have ended.
 */
module CopyLayers {
  import opened Common
  import opened BlobPipeline

  /** What one layer's copy depends on. */
  datatype Job = Job(
    info: SourceInfo,
    chunks: seq<Bytes>,                  // what the source delivers
    foreign: bool,                       // it has URLs, and the destination accepts them as they are
    reused: Option<Digest>,
    partial: Option<Digest>,
    atEnd: bool)

  datatype Failure = LayerFailed(why: LayerError) | ForeignDiffID | LayerOutOfRange

  type Outcome = Result<Copied, Failure>

  // ----- Which layers to encrypt -----

  /** The layer that an index means: a negative one counts from the end. */
  function Resolve(l: int, n: nat): Option<nat> {
    if 0 <= l < n then Some(l) else if l < 0 <= l + n then Some(l + n) else None
  }

  /** Some index means no layer. */
  predicate OutOfRange(choice: Option<seq<int>>, n: nat) {
    choice.Some? && exists j :: 0 <= j < |choice.value| && (choice.value[j] >= n || choice.value[j] + n < 0)
  }

  /** Whether layer i of n is to be encrypted; an empty list of indices means all layers. */
  predicate Chosen(choice: Option<seq<int>>, n: nat, i: nat) {
    choice.Some? && (choice.value == [] || exists j :: 0 <= j < |choice.value| && choice.value[j] in {i, i - n})
  }

  method LayersToEncrypt(choice: Option<seq<int>>, n: nat) returns (r: Result<set<nat>, Failure>)
    ensures r.Err? <==> OutOfRange(choice, n)
    ensures r.Err? ==> r.error == LayerOutOfRange
    ensures r.Ok? ==> forall i: nat :: i in r.value <==> i < n && Chosen(choice, n, i)
  {
    var chosen: set<nat> := {};
    if choice.Some? {
      for k := 0 to |choice.value|
        invariant forall j :: 0 <= j < k ==> Resolve(choice.value[j], n).Some?
        invariant forall i: nat :: i in chosen <==> exists j :: 0 <= j < k && Resolve(choice.value[j], n) == Some(i)
      {
        var l := Resolve(choice.value[k], n);
        if l.None? { return Err(LayerOutOfRange); }
        chosen := chosen + {l.value};
      }
      if choice.value == [] {
        for i := 0 to n
          invariant forall k: nat :: k in chosen <==> k < i
        {
          chosen := chosen + {i};
        }
      }
    }
    return Ok(chosen);
  }

  // ----- The copies -----

  /** The digest of a foreign layer is kept; any other is the one under which the destination has the layer. */
  ghost predicate RightDigest(s: Setup, job: Job, toEncrypt: bool, diffIDsAreNeeded: bool, cached: Option<Digest>, d: Digest) {
    if job.foreign then d == job.info.digest
    else HeldAs(s, job.info, Concat(job.chunks), toEncrypt, diffIDsAreNeeded, job.reused, job.partial, cached, d)
  }

  /** Why the copy of a layer fails, given what the cache said about its DiffID, if so. */
  function JobError(s: Setup, job: Job, toEncrypt: bool, diffIDsAreNeeded: bool, cached: Option<Digest>, dest: Destination): Option<Failure> {
    if job.foreign then if diffIDsAreNeeded then Some(ForeignDiffID) else None
    else
      var why := LayerCopyError(s, job.info, Concat(job.chunks), toEncrypt, diffIDsAreNeeded, job.reused, job.partial, cached, dest, job.atEnd);
      if why.Some? then Some(LayerFailed(why.value)) else None
  }

  /** What holds of a successful copy; the DiffID is right as far as the cache could be trusted. */
  ghost predicate Right(s: Setup, job: Job, toEncrypt: bool, diffIDsAreNeeded: bool, trusted: bool,
                        cached: Option<Digest>, r: Copied) {
    && RightDigest(s, job, toEncrypt, diffIDsAreNeeded, cached, r.digest)
    && (diffIDsAreNeeded && trusted ==>
          && !job.foreign && r.diffID.Some?
          && if CachedBeforeDecryption(s, job.info, cached) then r.diffID == cached else RightDiffID(s, job.info, r.diffID.value))
  }

  ghost predicate RightIfOk(s: Setup, job: Job, toEncrypt: bool, diffIDsAreNeeded: bool, trusted: bool,
                            cached: Option<Digest>, r: Outcome) {
    r.Ok? ==> Right(s, job, toEncrypt, diffIDsAreNeeded, trusted, cached, r.value)
  }

  /** DiffIDs are needed only to convert from a format that has no encrypted layers. */
  predicate NeededForOrdinaryLayers(jobs: seq<Job>, diffIDsAreNeeded: bool) {
    diffIDsAreNeeded ==> forall i :: 0 <= i < |jobs| ==> !jobs[i].info.encryptedType
  }

  ghost predicate SinglyCompressedSources(s: Setup, jobs: seq<Job>) {
    forall i :: 0 <= i < |jobs| ==> SinglyCompressed(s.codecs, Concat(jobs[i].chunks))
  }

  /** The cache answers truly, and copying the layers leaves it so: none of them is compressed twice. */
  ghost predicate Trusted(s: Setup, jobs: seq<Job>, m: Contents) {
    Truthful(s.codecs, m) && SinglyCompressedSources(s, jobs)
  }

  /** Nothing recorded is lost or false; and it can be trusted if it could be before. */
  ghost predicate CacheKept(s: Setup, jobs: seq<Job>, m: Contents, later: Contents) {
    && (m.Sound(s.codecs) ==> later.Sound(s.codecs) && Keeps(m, later))
    && (Trusted(s, jobs, m) ==> Trusted(s, jobs, later))
  }

  /** What one goroutine does, given what the cache said about the layer's DiffID. */
  ghost predicate HelperDoes(s: Setup, job: Job, toEncrypt: bool, diffIDsAreNeeded: bool, cached: Option<Digest>,
                             r: Outcome, recorded: seq<Pair>) {
    if job.foreign then
      recorded == [] && r == if diffIDsAreNeeded then Err(ForeignDiffID) else Ok(Copied(job.info.digest, None))
    else
      && (r.Ok? || r.error.LayerFailed?)
      && CopiedRight(s, job.info, Concat(job.chunks), toEncrypt, diffIDsAreNeeded, job.reused, job.partial, cached,
                     if r.Ok? then Ok(r.value) else Err(r.error.why), recorded)
  }

  lemma OutcomeIsRight(s: Setup, job: Job, toEncrypt: bool, diffIDsAreNeeded: bool, cached: Option<Digest>,
                       r: Outcome, recorded: seq<Pair>)
    requires s.codecs.CollisionFree() && HelperDoes(s, job, toEncrypt, diffIDsAreNeeded, cached, r, recorded)
    ensures RightIfOk(s, job, toEncrypt, diffIDsAreNeeded, TrueAnswer(s.codecs, job.info.digest, cached), cached, r)
  {
    if r.Ok? && !job.foreign && diffIDsAreNeeded && TrueAnswer(s.codecs, job.info.digest, cached) {
      CopiedDiffIDIsRight(s, job.info, Concat(job.chunks), toEncrypt, job.reused, job.partial, cached, Ok(r.value), recorded);
    }
  }

  /** The records of a copy are true, and plain if the cache is to be trusted afterwards. */
  ghost predicate GoodRecords(s: Setup, jobs: seq<Job>, recorded: seq<Pair>) {
    AllTrue(s.codecs, recorded) && (SinglyCompressedSources(s, jobs) ==> AllPlain(s.codecs, recorded))
  }

  lemma HelperRecords(s: Setup, jobs: seq<Job>, i: nat, toEncrypt: bool, diffIDsAreNeeded: bool, cached: Option<Digest>,
                      r: Outcome, recorded: seq<Pair>)
    requires i < |jobs| && s.codecs.CollisionFree() && HelperDoes(s, jobs[i], toEncrypt, diffIDsAreNeeded, cached, r, recorded)
    ensures GoodRecords(s, jobs, recorded)
  {
    if SinglyCompressedSources(s, jobs) {
      assert SinglyCompressed(s.codecs, Concat(jobs[i].chunks));
    }
  }

  lemma RecordsKeepCache(s: Setup, jobs: seq<Job>, m: Contents, recorded: seq<Pair>)
    requires s.codecs.CollisionFree() && GoodRecords(s, jobs, recorded)
    ensures CacheKept(s, jobs, m, m.RecordAll(recorded))
  {
    if m.Sound(s.codecs) {
      RecordingKeepsSound(s.codecs, m, recorded);
      RecordingReplacesNothing(s.codecs, m, recorded);
    }
    if Trusted(s, jobs, m) { RecordingKeepsTruthful(s.codecs, m, recorded); }
  }

  lemma KeptTwice(s: Setup, jobs: seq<Job>, m: Contents, now: Contents, later: Contents)
    requires CacheKept(s, jobs, m, now) && CacheKept(s, jobs, now, later)
    ensures CacheKept(s, jobs, m, later)
  {
  }

  /** What a trusted cache says about a layer is true. */
  lemma TrustedAnswer(s: Setup, jobs: seq<Job>, m: Contents, d: Digest, needed: bool)
    requires s.codecs.CollisionFree() && Trusted(s, jobs, m)
    ensures TrueAnswer(s.codecs, d, Asked(m, d, needed))
  {
    TruthfulAnswersTruly(s.codecs, m);
    forall b {:trigger s.codecs.digest(b)} | s.codecs.digest(b) == d && m.Lookup(d).Some?
      ensures IsDiffID(s.codecs, b, m.Lookup(d).value)
    {
      assert m.Lookup(s.codecs.digest(b)).Some?;
    }
  }

  function Asked(m: Contents, d: Digest, needed: bool): Option<Digest> { if needed then m.Lookup(d) else None }

  // ----- One goroutine after the other -----

  method CopyLayerHelper(s: Setup, job: Job, toEncrypt: bool, diffIDsAreNeeded: bool, dest: Destination, cache: BlobInfoCache)
    returns (r: Outcome, ghost recorded: seq<Pair>)
    requires s.codecs.RoundTrips() && s.codecs.CollisionFree() && dest.Honest(s.codecs)
    modifies cache
    ensures cache.contents == old(cache.contents).RecordAll(recorded)
    ensures HelperDoes(s, job, toEncrypt, diffIDsAreNeeded, Asked(old(cache.contents), job.info.digest, diffIDsAreNeeded), r, recorded)
    ensures ErrorOf(r) == JobError(s, job, toEncrypt, diffIDsAreNeeded, Asked(old(cache.contents), job.info.digest, diffIDsAreNeeded), dest)
  {
    if job.foreign {
      if diffIDsAreNeeded { return Err(ForeignDiffID), []; }
      return Ok(Copied(job.info.digest, None)), [];
    }
    var copied;
    copied, recorded := CopyLayer(s, job.info, job.chunks, toEncrypt, diffIDsAreNeeded, job.reused, job.partial, dest, job.atEnd, cache);
    r := if copied.Ok? then Ok(copied.value) else Err(LayerFailed(copied.error));
  }

  /** The results that are there are right, given what the cache answered, and none is missing without a reason. */
  ghost predicate AllRight(s: Setup, jobs: seq<Job>, toEncrypt: set<nat>, diffIDsAreNeeded: bool, trusted: bool, dest: Destination,
                           done: seq<nat>, answers: seq<Option<Digest>>, data: seq<Outcome>) {
    |data| == |answers| == |jobs| &&
    forall i: nat :: i < |jobs| && i in done ==>
      && RightIfOk(s, jobs[i], i in toEncrypt, diffIDsAreNeeded, trusted, answers[i], data[i])
      && ErrorOf(data[i]) == JobError(s, jobs[i], i in toEncrypt, diffIDsAreNeeded, answers[i], dest)
  }

  /**
    Copies all layers; `order` is the order in which the goroutines happen to run. The results are
    in the order of the layers, whatever the order of the copies was.
   */
  method CopyAll(s: Setup, jobs: seq<Job>, toEncrypt: set<nat>, diffIDsAreNeeded: bool,
                 dest: Destination, order: seq<nat>, cache: BlobInfoCache)
    returns (data: array<Outcome>, ghost answers: seq<Option<Digest>>)
    requires s.codecs.RoundTrips() && s.codecs.CollisionFree() && dest.Honest(s.codecs)
    requires forall k :: 0 <= k < |order| ==> order[k] < |jobs|
    requires forall i :: 0 <= i < |jobs| ==> i in order
    modifies cache
    ensures CacheKept(s, jobs, old(cache.contents), cache.contents)
    ensures fresh(data)
    ensures AllRight(s, jobs, toEncrypt, diffIDsAreNeeded, Trusted(s, jobs, old(cache.contents)), dest, order, answers, data[..])
  {
    data := new Outcome[|jobs|](_ => Ok(Copied(Digest("", ""), None)));
    answers := seq(|jobs|, _ => None);
    ghost var trusted := Trusted(s, jobs, cache.contents);
    for k := 0 to |order|
      invariant CacheKept(s, jobs, old(cache.contents), cache.contents)
      invariant AllRight(s, jobs, toEncrypt, diffIDsAreNeeded, trusted, dest, order[..k], answers, data[..])
    {
      var i := order[k];
      ghost var now, before := cache.contents, data[..];
      var r, recorded := CopyLayerHelper(s, jobs[i], i in toEncrypt, diffIDsAreNeeded, dest, cache);
      OneMoreCopy(s, jobs, i, i in toEncrypt, diffIDsAreNeeded, old(cache.contents), now, r, recorded);
      data[i] := r;
      answers := answers[i := Asked(now, jobs[i].info.digest, diffIDsAreNeeded)];
      assert data[..] == before[i := r];
      assert order[..k + 1] == order[..k] + [i];
    }
    assert order[..|order|] == order;
  }

  lemma OneMoreCopy(s: Setup, jobs: seq<Job>, i: nat, toEncrypt: bool, diffIDsAreNeeded: bool, m: Contents, now: Contents,
                    r: Outcome, recorded: seq<Pair>)
    requires i < |jobs| && s.codecs.CollisionFree() && CacheKept(s, jobs, m, now)
    requires HelperDoes(s, jobs[i], toEncrypt, diffIDsAreNeeded, Asked(now, jobs[i].info.digest, diffIDsAreNeeded), r, recorded)
    ensures CacheKept(s, jobs, m, now.RecordAll(recorded))
    ensures RightIfOk(s, jobs[i], toEncrypt, diffIDsAreNeeded, Trusted(s, jobs, m),
                      Asked(now, jobs[i].info.digest, diffIDsAreNeeded), r)
  {
    var cached := Asked(now, jobs[i].info.digest, diffIDsAreNeeded);
    HelperRecords(s, jobs, i, toEncrypt, diffIDsAreNeeded, cached, r, recorded);
    RecordsKeepCache(s, jobs, now, recorded);
    KeptTwice(s, jobs, m, now, now.RecordAll(recorded));
    OutcomeIsRight(s, jobs[i], toEncrypt, diffIDsAreNeeded, cached, r, recorded);
    if Trusted(s, jobs, m) { TrustedAnswer(s, jobs, now, jobs[i].info.digest, diffIDsAreNeeded); }
  }

  datatype Layers = Layers(digests: seq<Digest>, diffIDs: seq<Option<Digest>>)

  /** Collects the results; fails with the error of the first layer that failed. */
  method Collect(data: array<Outcome>) returns (r: Result<Layers, Failure>)
    ensures r.Ok? <==> forall i :: 0 <= i < data.Length ==> data[i].Ok?
    ensures r.Ok? ==> |r.value.digests| == |r.value.diffIDs| == data.Length
    ensures r.Ok? ==> forall i :: 0 <= i < data.Length ==> data[i] == Ok(Copied(r.value.digests[i], r.value.diffIDs[i]))
    ensures r.Err? ==> exists i :: 0 <= i < data.Length && data[i] == Err(r.error) && forall j :: 0 <= j < i ==> data[j].Ok?
  {
    var digests, diffIDs := [], [];
    for i := 0 to data.Length
      invariant |digests| == |diffIDs| == i
      invariant forall j :: 0 <= j < i ==> data[j] == Ok(Copied(digests[j], diffIDs[j]))
    {
      if data[i].Err? { return Err(data[i].error); }
      digests, diffIDs := digests + [data[i].value.digest], diffIDs + [data[i].value.diffID];
    }
    return Ok(Layers(digests, diffIDs));
  }

  predicate SomeFails(s: Setup, jobs: seq<Job>, choice: Option<seq<int>>, diffIDsAreNeeded: bool,
                      answers: seq<Option<Digest>>, dest: Destination)
    requires |answers| == |jobs|
  {
    exists i :: 0 <= i < |jobs| && JobError(s, jobs[i], Chosen(choice, |jobs|, i), diffIDsAreNeeded, answers[i], dest).Some?
  }

  /**
    Copies the layers of an image. Whatever order the goroutines run in, if the copy succeeds and
    DiffIDs were asked for, the i-th DiffID is the one of the i-th source layer, provided that the
    cache can be trusted and no layer is compressed twice.
   */
  method CopyImageLayers(s: Setup, jobs: seq<Job>, choice: Option<seq<int>>, diffIDsAreNeeded: bool,
                         dest: Destination, order: seq<nat>, cache: BlobInfoCache)
    returns (r: Result<Layers, Failure>, ghost answers: seq<Option<Digest>>)
    requires s.codecs.RoundTrips() && s.codecs.CollisionFree() && dest.Honest(s.codecs)
    requires forall k :: 0 <= k < |order| ==> order[k] < |jobs|
    requires forall i :: 0 <= i < |jobs| ==> i in order
    modifies cache
    ensures CacheKept(s, jobs, old(cache.contents), cache.contents)
    ensures r.Ok? ==> |r.value.digests| == |r.value.diffIDs| == |answers| == |jobs|
    ensures r.Ok? ==>
              forall i: nat :: i < |jobs| ==>
                Right(s, jobs[i], Chosen(choice, |jobs|, i), diffIDsAreNeeded, Trusted(s, jobs, old(cache.contents)),
                      answers[i], Copied(r.value.digests[i], r.value.diffIDs[i]))
    // It fails exactly for an index out of range, or a layer whose copy fails given what the cache answered.
    ensures r.Err? <==>
              OutOfRange(choice, |jobs|) || (|answers| == |jobs| && SomeFails(s, jobs, choice, diffIDsAreNeeded, answers, dest))
    ensures r.Ok? && diffIDsAreNeeded && NeededForOrdinaryLayers(jobs, true) && Trusted(s, jobs, old(cache.contents)) ==>
              forall i :: 0 <= i < |jobs| ==>
                r.value.diffIDs[i].Some? && RightDiffID(s, jobs[i].info, r.value.diffIDs[i].value)
  {
    answers := [];
    var toEncrypt := LayersToEncrypt(choice, |jobs|);
    if toEncrypt.Err? { return Err(toEncrypt.error), []; }
    var data;
    data, answers := CopyAll(s, jobs, toEncrypt.value, diffIDsAreNeeded, dest, order, cache);
    r := Collect(data);
  }

  // ----- All goroutines at once -----

  /** A goroutine's look-up in the cache and each of its records are steps of their own. */
  datatype Pc =
    | Waiting
    | LookedUp(cached: Option<Digest>)
    | Recording(cached: Option<Digest>, result: Outcome, rest: seq<Pair>)
    | Ended(cached: Option<Digest>, result: Outcome)

  datatype State = State(cache: Contents, pcs: seq<Pc>)

  datatype Action =
    | LookUp(i: nat)
    | Work(i: nat, result: Outcome, recorded: seq<Pair>)     // everything that does not touch the cache
    | Record(i: nat)
    | DestinationRecords(i: nat, pair: Pair)                 // the destination uses the cache as well
    | End(i: nat)

  datatype Copy = Copy(s: Setup, jobs: seq<Job>, toEncrypt: set<nat>, diffIDsAreNeeded: bool)

  ghost predicate Enabled(c: Copy, t: State, a: Action) {
    && a.i < |t.pcs| == |c.jobs|
    && match a
       case LookUp(i) => t.pcs[i].Waiting?
       case Work(i, result, recorded) =>
         t.pcs[i].LookedUp? && HelperDoes(c.s, c.jobs[i], i in c.toEncrypt, c.diffIDsAreNeeded, t.pcs[i].cached, result, recorded)
       case Record(i) => t.pcs[i].Recording? && t.pcs[i].rest != []
       case DestinationRecords(i, pair) => !t.pcs[i].Waiting? && !t.pcs[i].Ended? && GoodRecords(c.s, c.jobs, [pair])
       case End(i) => t.pcs[i].Recording? && t.pcs[i].rest == []
  }

  ghost function Apply(c: Copy, t: State, a: Action): State
    requires Enabled(c, t, a)
  {
    match a
    case LookUp(i) => t.(pcs := t.pcs[i := LookedUp(Asked(t.cache, c.jobs[i].info.digest, c.diffIDsAreNeeded))])
    case Work(i, result, recorded) => t.(pcs := t.pcs[i := Recording(t.pcs[i].cached, result, recorded)])
    case Record(i) =>
      var pc := t.pcs[i];
      State(t.cache.RecordAll(pc.rest[..1]), t.pcs[i := pc.(rest := pc.rest[1..])])
    case DestinationRecords(_, pair) => t.(cache := t.cache.RecordAll([pair]))
    case End(i) => t.(pcs := t.pcs[i := Ended(t.pcs[i].cached, t.pcs[i].result)])
  }

  /** What is known of a goroutine wherever it is, if the cache could be trusted when the first one started. */
  ghost predicate GoodPc(c: Copy, i: nat, trusted: bool, pc: Pc)
    requires i < |c.jobs|
  {
    match pc
    case Waiting => true
    case LookedUp(cached) => trusted ==> TrueAnswer(c.s.codecs, c.jobs[i].info.digest, cached)
    case Recording(cached, result, rest) =>
      GoodRecords(c.s, c.jobs, rest) && RightIfOk(c.s, c.jobs[i], i in c.toEncrypt, c.diffIDsAreNeeded, trusted, cached, result)
    case Ended(cached, result) => RightIfOk(c.s, c.jobs[i], i in c.toEncrypt, c.diffIDsAreNeeded, trusted, cached, result)
  }

  ghost predicate Inv(c: Copy, m: Contents, t: State) {
    && |t.pcs| == |c.jobs|
    && CacheKept(c.s, c.jobs, m, t.cache)
    && forall i: nat :: i < |t.pcs| ==> GoodPc(c, i, Trusted(c.s, c.jobs, m), t.pcs[i])
  }

  lemma SomeRecords(s: Setup, jobs: seq<Job>, ps: seq<Pair>)
    requires GoodRecords(s, jobs, ps) && ps != []
    ensures GoodRecords(s, jobs, ps[..1]) && GoodRecords(s, jobs, ps[1..])
  {
  }

  /** The goroutine that moves stays good, and the cache is kept. */
  lemma StepIsGood(c: Copy, m: Contents, t: State, a: Action)
    requires c.s.codecs.CollisionFree() && Inv(c, m, t) && Enabled(c, t, a)
    ensures CacheKept(c.s, c.jobs, m, Apply(c, t, a).cache)
    ensures GoodPc(c, a.i, Trusted(c.s, c.jobs, m), Apply(c, t, a).pcs[a.i])
  {
    var i := a.i;
    assert GoodPc(c, i, Trusted(c.s, c.jobs, m), t.pcs[i]);
    match a
    case LookUp(_) =>
      if Trusted(c.s, c.jobs, m) { TrustedAnswer(c.s, c.jobs, t.cache, c.jobs[i].info.digest, c.diffIDsAreNeeded); }
    case Work(_, result, recorded) =>
      HelperRecords(c.s, c.jobs, i, i in c.toEncrypt, c.diffIDsAreNeeded, t.pcs[i].cached, result, recorded);
      OutcomeIsRight(c.s, c.jobs[i], i in c.toEncrypt, c.diffIDsAreNeeded, t.pcs[i].cached, result, recorded);
    case Record(_) =>
      var ps := t.pcs[i].rest;
      SomeRecords(c.s, c.jobs, ps);
      RecordsKeepCache(c.s, c.jobs, t.cache, ps[..1]);
      KeptTwice(c.s, c.jobs, m, t.cache, t.cache.RecordAll(ps[..1]));
    case DestinationRecords(_, pair) =>
      RecordsKeepCache(c.s, c.jobs, t.cache, [pair]);
      KeptTwice(c.s, c.jobs, m, t.cache, t.cache.RecordAll([pair]));
    case End(_) =>
  }

  lemma InvKept(c: Copy, m: Contents, t: State, a: Action)
    requires c.s.codecs.CollisionFree() && Inv(c, m, t) && Enabled(c, t, a)
    ensures Inv(c, m, Apply(c, t, a))
  {
    StepIsGood(c, m, t, a);
    var u := Apply(c, t, a);
    forall i: nat | i < |u.pcs|
      ensures GoodPc(c, i, Trusted(c.s, c.jobs, m), u.pcs[i])
    {
      if i != a.i { assert u.pcs[i] == t.pcs[i]; }
    }
  }

  ghost predicate Run(c: Copy, t: State, actions: seq<Action>, u: State)
    decreases |actions|
  {
    if actions == [] then t == u
    else Enabled(c, t, actions[0]) && Run(c, Apply(c, t, actions[0]), actions[1..], u)
  }

  lemma {:induction false} RunKeepsInv(c: Copy, m: Contents, t: State, actions: seq<Action>, u: State)
    requires c.s.codecs.CollisionFree() && Inv(c, m, t) && Run(c, t, actions, u)
    ensures Inv(c, m, u)
    decreases |actions|
  {
    if actions != [] {
      InvKept(c, m, t, actions[0]);
      RunKeepsInv(c, m, Apply(c, t, actions[0]), actions[1..], u);
    }
  }

  /** The layer was copied, and its result is there. */
  predicate Succeeded(t: State, i: nat) { i < |t.pcs| && t.pcs[i].Ended? && t.pcs[i].result.Ok? }

  /**
    In every interleaving of the goroutines' look-ups, records and other work, and of what the
    destination records: the cache stays as good as it was, and every layer that was copied so far has
    the right digest and DiffID.
   */
  lemma ConcurrentCopiesAreRight(c: Copy, t: State, actions: seq<Action>, u: State)
    requires c.s.codecs.CollisionFree() && |t.pcs| == |c.jobs| && forall i :: 0 <= i < |t.pcs| ==> t.pcs[i] == Waiting
    requires Run(c, t, actions, u)
    ensures |u.pcs| == |c.jobs| && CacheKept(c.s, c.jobs, t.cache, u.cache)
    ensures forall i: nat :: Succeeded(u, i) ==>
              Right(c.s, c.jobs[i], i in c.toEncrypt, c.diffIDsAreNeeded, Trusted(c.s, c.jobs, t.cache),
                    u.pcs[i].cached, u.pcs[i].result.value)
    ensures c.diffIDsAreNeeded && NeededForOrdinaryLayers(c.jobs, true) && Trusted(c.s, c.jobs, t.cache) ==>
              forall i: nat :: Succeeded(u, i) ==>
                u.pcs[i].result.value.diffID.Some? && RightDiffID(c.s, c.jobs[i].info, u.pcs[i].result.value.diffID.value)
  {
    RunKeepsInv(c, t.cache, t, actions, u);
    forall i: nat | Succeeded(u, i)
      ensures Right(c.s, c.jobs[i], i in c.toEncrypt, c.diffIDsAreNeeded, Trusted(c.s, c.jobs, t.cache),
                    u.pcs[i].cached, u.pcs[i].result.value)
    {
      assert GoodPc(c, i, Trusted(c.s, c.jobs, t.cache), u.pcs[i]);
    }
  }
}
