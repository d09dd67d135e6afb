/**
  The layer commit protocol of the containers-storage destination.

  Any number of goroutines call queueOrCommit, each for its own layer index. One of them becomes
  the worker and commits consecutive layers, releasing the lock around every commit. The protocol
  is a step system: an action is one indivisible piece of one goroutine, or a piece of the code
  that records layer data. CommitWithOptions is the sequential pass at the end.
 */
module LayerCommit {
  import opened Common
  import opened LayerIdentity

  datatype Failure =
    | PreviousNotCommitted       // "previous layer not committed yet"
    | UnknownIdentity            // no DiffID and no TOC digest is known for the blob
    | TocWithoutConfig           // "identified by TOC, but we don't have a DiffID in config"
    | ConfigTooShort             // the config lists DiffIDs, but not for this layer
    | DiffIDMismatch             // the config disagrees with the trusted DiffID
    | StoreFailure
    | NotReady                   // CommitWithOptions: "commitLayer() not ready to commit"

  // ----- commitLayer -----

  /** RootFS.DiffIDs of the config, None if not yet available; an element is None if it is empty. */
  type Config = Option<seq<Option<Digest>>>

  datatype Untrusted = NotYetAvailable | Unknown | TooShort | DiffID(value: Option<Digest>)

  function UntrustedDiffID(config: Config, index: nat): Untrusted {
    if config.None? then NotYetAvailable
    else if forall i :: 0 <= i < |config.value| ==> config.value[i].None? then Unknown
    else if index >= |config.value| then TooShort
    else DiffID(config.value[index])
  }

  datatype Check = Pass | Defer | Reject(why: Failure)

  /** The comparison of a trusted DiffID with the one the image config claims. */
  function CheckDiffID(config: Config, index: nat, t: Trusted): Check {
    if t.diffID.None? then Pass else
      match UntrustedDiffID(config, index)
      case NotYetAvailable => Defer
      case Unknown => if t.identifiedByTOC then Reject(TocWithoutConfig) else Pass
      case TooShort => Reject(ConfigTooShort)
      case DiffID(d) => if t.diffID == d then Pass else Reject(DiffIDMismatch)
  }

  /** The config lists no DiffIDs at all: its list is empty, or has only empty elements. */
  predicate ListsNone(diffIDs: seq<Option<Digest>>) { forall i :: 0 <= i < |diffIDs| ==> diffIDs[i].None? }

  /** What the config has to say of a layer with this identity: the same DiffID, unless one of them is not known. */
  predicate Permitted(config: Config, index: nat, t: Trusted) {
    t.diffID.Some? ==>
      config.Some? && (ListsNone(config.value) || (index < |config.value| && config.value[index] == t.diffID))
  }

  /** What the check decides in each case. */
  lemma CheckDecides(config: Config, index: nat, t: Trusted)
    requires Consistent(t)
    ensures CheckDiffID(config, index, t) == Pass <==> Permitted(config, index, t)
    ensures CheckDiffID(config, index, t) == Defer <==> t.diffID.Some? && config.None?
    ensures CheckDiffID(config, index, t) == Reject(ConfigTooShort) <==>
              t.diffID.Some? && config.Some? && !ListsNone(config.value) && |config.value| <= index
    ensures CheckDiffID(config, index, t) == Reject(DiffIDMismatch) <==>
              t.diffID.Some? && config.Some? && index < |config.value| && !ListsNone(config.value) && config.value[index] != t.diffID
    ensures CheckDiffID(config, index, t).Reject? ==> CheckDiffID(config, index, t).why in {ConfigTooShort, DiffIDMismatch}
  {
  }

  /** What a commit in progress does next. */
  datatype Commit =
    | Done(ids: map<nat, string>)     // nothing left to do, or the ID was written
    | Identify(parent: string)
    | Create(id: string)
    | Stop
    | Fail(why: Failure)

  /** The part of commitLayer that needs no lock. */
  function BeginCommit(ids: map<nat, string>, index: nat, info: LayerInfo): Commit {
    if index in ids then Done(ids)
    else if index != 0 && index - 1 !in ids then Fail(PreviousNotCommitted)
    else
      var parent := if index == 0 then "" else ids[index - 1];
      if info.emptyLayer then Done(ids[index := parent]) else Identify(parent)
  }

  /** The part that looks up the identity under the lock and checks it against the config. */
  function IdentifyCommit(H: string -> string, known: Known, config: Config,
                          index: nat, info: LayerInfo, parent: string): Commit {
    var t := TrustedIdentity(known, index, info.digest);
    if t.None? then Fail(UnknownIdentity) else
      match CheckDiffID(config, index, t.value)
      case Pass => Create(LayerID(H, parent, t.value))
      case Defer => Stop
      case Reject(why) => Fail(why)
  }

  /** The store reuses or creates the layer with the requested ID, can not do it yet, or fails. */
  datatype StoreResult = Stored | NotYet | StoreError

  function FinishCommit(ids: map<nat, string>, index: nat, id: string, r: StoreResult): Commit {
    match r
    case Stored => Done(ids[index := id])
    case NotYet => Stop
    case StoreError => Fail(StoreFailure)
  }

  // ----- queueOrCommit -----

  datatype Return = Finished | Deferred(next: nat) | Failed(next: nat, why: Failure)

  datatype Pc =
    | Ready                                                            // waiting for the lock
    | Enqueued                                                         // holds the lock
    | LoopTop(at: nat)                                                 // holds the lock
    | Committing(at: nat, info: LayerInfo)                                 // entering commitLayer
    | Identifying(at: nat, info: LayerInfo, parent: string)                // waiting for the lock
    | Creating(at: nat, info: LayerInfo, parent: string, id: string)
    | Committed(at: nat)                                               // waiting for the lock
    | Returned(result: Return)

  datatype Call = Call(info: LayerInfo, pc: Pc)

  /** What the goroutines share. */
  datatype Shared = Shared(
    lock: Option<nat>,               // the goroutine that holds it
    queue: map<nat, LayerInfo>,          // indexToAddedLayerInfo
    current: nat,                    // currentIndex
    ids: map<nat, string>)           // indexToStorageID

  /** Calls have pairwise distinct indices, so a goroutine is named by the index it was called with. */
  datatype State = State(shared: Shared, calls: map<nat, Call>, known: Known, config: Config)

  datatype Action =
    | Start(g: nat, info: LayerInfo)
    | Step(g: nat, result: StoreResult)          // `result` matters only to a goroutine using the store
    | RecordBlob(blob: Digest, diffID: Digest)
    | RecordIndex(index: nat, maybeDiffID: Option<Digest>, maybeTOC: Option<Digest>)
    | RecordConfig(diffIDs: seq<Option<Digest>>)

  predicate NeedsLock(pc: Pc) { pc.Ready? || pc.Identifying? || pc.Committed? }

  predicate Enabled(s: State, a: Action) {
    match a
    case Start(g, _) => g !in s.calls
    case Step(g, _) =>
      g in s.calls && !s.calls[g].pc.Returned? && (NeedsLock(s.calls[g].pc) ==> s.shared.lock.None?)
    // A blob digest names one content, so a repeated record repeats its value.
    case RecordBlob(blob, diffID) =>
      s.shared.lock.None? && (blob in s.known.blobDiffIDs ==> s.known.blobDiffIDs[blob] == diffID)
    // Data for an index is recorded before the layer is queued; a partial pull never queues it.
    case RecordIndex(index, _, _) => s.shared.lock.None? && index !in s.shared.queue
    case RecordConfig(_) => s.config.None?
  }

  /** The goroutine after one of the parts of commitLayer for the layer at `at`. */
  function Continue(x: Shared, at: nat, info: LayerInfo, parent: string, c: Commit): (Shared, Pc) {
    match c
    case Done(ids) => (x.(ids := ids), Committed(at))
    case Identify(p) => (x, Identifying(at, info, p))
    case Create(id) => (x, Creating(at, info, parent, id))
    case Stop => (x, Returned(Deferred(at)))
    case Fail(why) => (x, Returned(Failed(at, why)))
  }

  /** One step of goroutine g: its effect on the shared state, and where it is afterwards. */
  function Advance(H: string -> string, s: State, g: nat, r: StoreResult): (Shared, Pc)
    requires Enabled(s, Step(g, r))
  {
    var x, c := s.shared, s.calls[g];
    match c.pc
    case Ready => (x.(lock := Some(g), queue := x.queue[g := c.info]), Enqueued)
    case Enqueued => if g != x.current then (x.(lock := None), Returned(Finished)) else (x, LoopTop(g))
    case LoopTop(at) =>
      if at in x.queue then (x.(lock := None), Committing(at, x.queue[at]))
      else (x.(lock := None, current := at), Returned(Finished))
    case Committing(at, info) => Continue(x, at, info, "", BeginCommit(x.ids, at, info))
    case Identifying(at, info, parent) =>
      Continue(x, at, info, parent, IdentifyCommit(H, s.known, s.config, at, info, parent))
    case Creating(at, info, parent, id) => Continue(x, at, info, parent, FinishCommit(x.ids, at, id, r))
    case Committed(at) => (x.(lock := Some(g)), LoopTop(at + 1))
  }

  function Update<K, V>(m: map<K, V>, k: K, v: Option<V>): map<K, V> {
    if v.Some? then m[k := v.value] else m
  }

  function Apply(H: string -> string, s: State, a: Action): State
    requires Enabled(s, a)
  {
    match a
    case Start(g, info) => s.(calls := s.calls[g := Call(info, Ready)])
    case Step(g, r) =>
      var (x, pc) := Advance(H, s, g, r);
      s.(shared := x, calls := s.calls[g := s.calls[g].(pc := pc)])
    case RecordBlob(blob, diffID) =>
      s.(known := s.known.(blobDiffIDs := s.known.blobDiffIDs[blob := diffID]))
    case RecordIndex(index, diffID, tocDigest) =>
      s.(known := s.known.(indexToDiffID := Update(s.known.indexToDiffID, index, diffID),
                           indexToTOCDigest := Update(s.known.indexToTOCDigest, index, tocDigest)))
    case RecordConfig(diffIDs) => s.(config := Some(diffIDs))
  }

  // ----- The invariant -----

  predicate HoldsLock(pc: Pc) { pc.Enqueued? || pc.LoopTop? }

  /** The goroutine is in the commit loop. */
  predicate Working(pc: Pc) {
    pc.LoopTop? || pc.Committing? || pc.Identifying? || pc.Creating? || pc.Committed?
  }

  /** The goroutine left the commit loop early; nobody commits after it. */
  predicate Stopped(pc: Pc) { pc.Returned? && !pc.result.Finished? }

  ghost predicate LockOwner(lock: Option<nat>, calls: map<nat, Call>) {
    && (lock.Some? ==> lock.value in calls)
    && forall g :: g in calls ==> (HoldsLock(calls[g].pc) <==> lock == Some(g))
  }

  ghost predicate Queued(queue: map<nat, LayerInfo>, calls: map<nat, Call>) {
    && (forall g :: g in queue ==> g in calls)
    && (forall g :: g in calls ==> (g in queue <==> !calls[g].pc.Ready?))
    && (forall g :: g in queue && g in calls ==> queue[g] == calls[g].info)
  }

  /** Only the goroutine whose index is `current` can be in the commit loop, or have left it early. */
  ghost predicate OneWorker(current: nat, calls: map<nat, Call>) {
    && (forall g :: g in calls && g != current ==> !Working(calls[g].pc) && !Stopped(calls[g].pc))
    && (current in calls ==> calls[current].pc != Returned(Finished))
  }

  /** How many layers are committed, by the position of the goroutine that owns `current`. */
  function Frontier(current: nat, pc: Pc): nat {
    if pc.Committed? then pc.at + 1
    else if Working(pc) then pc.at
    else if Stopped(pc) then pc.result.next
    else current
  }

  function OwnerPc(s: State): Pc {
    if s.shared.current in s.calls then s.calls[s.shared.current].pc else Ready
  }

  /** The committed indices are exactly those below n. */
  ghost predicate CommittedBelow(ids: map<nat, string>, n: nat) {
    forall k: nat :: k in ids <==> k < n
  }

  ghost predicate CommittedPrefix(x: Shared, pc: Pc) {
    && x.current <= Frontier(x.current, pc)
    && CommittedBelow(x.ids, Frontier(x.current, pc))
    && (forall k :: k in x.ids ==> k in x.queue)
    && (pc.Committing? || pc.Identifying? || pc.Creating? ==> pc.at in x.queue && x.queue[pc.at] == pc.info)
    && (pc.Returned? && pc.result.Failed? ==> pc.result.why != PreviousNotCommitted)
  }

  /** What holds of the control state: one worker, and the committed layers are an initial segment. */
  ghost predicate Control(s: State) {
    && LockOwner(s.shared.lock, s.calls)
    && Queued(s.shared.queue, s.calls)
    && OneWorker(s.shared.current, s.calls)
    && CommittedPrefix(s.shared, OwnerPc(s))
  }

  predicate Init(s: State) {
    s.shared == Shared(None, map[], 0, map[]) && s.calls == map[]
  }

  predicate NextInRound(was: Pc, pc: Pc) {
    (was.Committing? && pc.Identifying?) || (was.Identifying? && pc.Creating?)
  }

  /**
    What a step of one goroutine does to the control state, whatever the identities and the store say:
    at most the goroutine's own index enters the queue, and at most its position enters the IDs.
   */
  ghost predicate Moves(x: Shared, g: nat, c: Call, y: Shared, pc: Pc) {
    match c.pc
    case Ready => y == x.(lock := Some(g), queue := x.queue[g := c.info]) && pc == Enqueued
    case Enqueued => y == x.(lock := y.lock) && (if g == x.current then y == x && pc == LoopTop(g) else y.lock.None? && pc == Returned(Finished))
    case LoopTop(at) =>
      && y == x.(lock := None, current := y.current)
      && (if at in x.queue then y.current == x.current && pc == Committing(at, x.queue[at])
          else y.current == at && pc == Returned(Finished))
    case Committed(at) => y == x.(lock := Some(g)) && pc == LoopTop(at + 1)
    case Returned(_) => false
    case _ =>
      var at := c.pc.at;
      && y == x.(ids := y.ids)
      && (if pc.Committed? then pc.at == at && y.ids.Keys == x.ids.Keys + {at} else
            && y.ids == x.ids
            && (if pc.Returned? then Stopped(pc) && pc.result.next == at
                else NextInRound(c.pc, pc) && pc.at == at && pc.info == c.pc.info))
      && ((at == 0 || at - 1 in x.ids || !c.pc.Committing?) ==>
            pc.Returned? && pc.result.Failed? ==> pc.result.why != PreviousNotCommitted)
  }

  lemma AdvanceMoves(H: string -> string, s: State, g: nat, r: StoreResult)
    requires Enabled(s, Step(g, r))
    ensures Moves(s.shared, g, s.calls[g], Advance(H, s, g, r).0, Advance(H, s, g, r).1)
  {
  }

  lemma MoveLockOwner(s: State, g: nat, y: Shared, pc: Pc)
    requires g in s.calls && Moves(s.shared, g, s.calls[g], y, pc)
    requires NeedsLock(s.calls[g].pc) ==> s.shared.lock.None?
    requires LockOwner(s.shared.lock, s.calls)
    ensures LockOwner(y.lock, s.calls[g := s.calls[g].(pc := pc)])
  {
  }

  lemma MoveQueued(s: State, g: nat, y: Shared, pc: Pc)
    requires g in s.calls && Moves(s.shared, g, s.calls[g], y, pc)
    requires Queued(s.shared.queue, s.calls)
    ensures Queued(y.queue, s.calls[g := s.calls[g].(pc := pc)])
  {
  }

  lemma MoveOneWorker(s: State, g: nat, y: Shared, pc: Pc)
    requires g in s.calls && Moves(s.shared, g, s.calls[g], y, pc)
    requires Queued(s.shared.queue, s.calls) && OneWorker(s.shared.current, s.calls)
    ensures OneWorker(y.current, s.calls[g := s.calls[g].(pc := pc)])
  {
  }

  lemma MovePrefix(s: State, g: nat, y: Shared, pc: Pc)
    requires g in s.calls && Moves(s.shared, g, s.calls[g], y, pc)
    requires Control(s)
    ensures CommittedPrefix(y, OwnerPc(Moved(s, g, y, pc)))
  {
  }

  function Moved(s: State, g: nat, y: Shared, pc: Pc): State
    requires g in s.calls
  {
    s.(shared := y, calls := s.calls[g := s.calls[g].(pc := pc)])
  }

  lemma MoveControl(s: State, g: nat, y: Shared, pc: Pc)
    requires Control(s) && g in s.calls && Moves(s.shared, g, s.calls[g], y, pc)
    requires NeedsLock(s.calls[g].pc) ==> s.shared.lock.None?
    ensures Control(Moved(s, g, y, pc))
  {
    MoveLockOwner(s, g, y, pc);
    MoveQueued(s, g, y, pc);
    MoveOneWorker(s, g, y, pc);
    MovePrefix(s, g, y, pc);
  }

  // ----- The committed IDs -----

  /** The ID of a layer on top of `parent`, by what is known now; and the config does not contradict it. */
  ghost predicate RightID(H: string -> string, known: Known, config: Config,
                          k: nat, info: LayerInfo, parent: string, id: string) {
    if info.emptyLayer then id == parent else
      var t := TrustedIdentity(known, k, info.digest);
      t.Some? && id == LayerID(H, parent, t.value) && Permitted(config, k, t.value)
  }

  function Parent(ids: map<nat, string>, k: nat): string {
    if k > 0 && k - 1 in ids then ids[k - 1] else ""
  }

  ghost predicate RightAt(H: string -> string, known: Known, config: Config, ids: map<nat, string>, k: nat, info: LayerInfo) {
    k in ids && RightID(H, known, config, k, info, Parent(ids, k), ids[k])
  }

  ghost predicate RightIDs(H: string -> string, s: State) {
    forall k {:trigger RightAt(H, s.known, s.config, s.shared.ids, k, s.shared.queue[k])} ::
      k in s.shared.ids && k in s.shared.queue ==>
        RightAt(H, s.known, s.config, s.shared.ids, k, s.shared.queue[k])
  }

  ghost predicate RightPc(H: string -> string, s: State, pc: Pc) {
    match pc
    case Identifying(at, info, parent) => !info.emptyLayer && parent == Parent(s.shared.ids, at)
    case Creating(at, info, parent, id) =>
      && !info.emptyLayer && parent == Parent(s.shared.ids, at)
      && RightID(H, s.known, s.config, at, info, parent, id)
    case Returned(Failed(_, why)) => why != TocWithoutConfig
    case _ => true
  }

  ghost predicate Inv(H: string -> string, s: State) {
    Control(s) && RightIDs(H, s) && RightPc(H, s, OwnerPc(s))
  }

  /** Recording more data never changes the ID that a queued layer has. */
  lemma RightIDIsStable(H: string -> string, s: State, a: Action, k: nat, info: LayerInfo, parent: string, id: string)
    requires Enabled(s, a) && !a.Start? && !a.Step? && k in s.shared.queue
    requires RightID(H, s.known, s.config, k, info, parent, id)
    ensures RightID(H, Apply(H, s, a).known, Apply(H, s, a).config, k, info, parent, id)
  {
    if a.RecordBlob? && !info.emptyLayer {
      IdentityIsStable(s.known, Apply(H, s, a).known, k, info.digest);
    }
  }

  lemma RecordRightIDs(H: string -> string, s: State, a: Action)
    requires Inv(H, s) && Enabled(s, a) && !a.Start? && !a.Step?
    ensures RightIDs(H, Apply(H, s, a)) && RightPc(H, Apply(H, s, a), OwnerPc(s))
  {
    var t := Apply(H, s, a);
    forall k | k in t.shared.ids && k in t.shared.queue
      ensures RightAt(H, t.known, t.config, t.shared.ids, k, t.shared.queue[k])
    {
      assert RightAt(H, s.known, s.config, s.shared.ids, k, s.shared.queue[k]);
      RightIDIsStable(H, s, a, k, t.shared.queue[k], Parent(t.shared.ids, k), t.shared.ids[k]);
    }
    var pc := OwnerPc(s);
    if pc.Creating? {
      RightIDIsStable(H, s, a, pc.at, pc.info, pc.parent, pc.id);
    }
  }

  /** An identity found under the lock gives the right ID, and never the internal error about a TOC. */
  lemma IdentifyIsRight(H: string -> string, known: Known, config: Config, k: nat, info: LayerInfo, parent: string)
    requires !info.emptyLayer
    ensures match IdentifyCommit(H, known, config, k, info, parent)
            case Create(id) => RightID(H, known, config, k, info, parent, id)
            case Fail(why) => Refuses(known, config, k, info, why)
            case Stop => Defers(known, config, k, info)
            case _ => false
  {
    var t := TrustedIdentity(known, k, info.digest);
    if t.Some? { CheckDecides(config, k, t.value); }
  }

  /** A DiffID of the layer is known, but the config is not yet. */
  predicate Defers(known: Known, config: Config, k: nat, info: LayerInfo) {
    var t := TrustedIdentity(known, k, info.digest);
    t.Some? && t.value.diffID.Some? && config.None?
  }

  /** What is known and the config permit a layer, defer it or refuse it, for one reason. */
  lemma OneVerdict(known: Known, config: Config, k: nat, info: LayerInfo)
    ensures var t := TrustedIdentity(known, k, info.digest);
            var permitted := t.Some? && Permitted(config, k, t.value);
            && (Defers(known, config, k, info) ==> !permitted)
            && (forall why :: Refuses(known, config, k, info, why) ==> !permitted && !Defers(known, config, k, info))
            && (forall x, y :: Refuses(known, config, k, info, x) && Refuses(known, config, k, info, y) ==> x == y)
  {
  }

  /** Why a layer can not be committed by what is known. */
  predicate Refuses(known: Known, config: Config, k: nat, info: LayerInfo, why: Failure) {
    var t := TrustedIdentity(known, k, info.digest);
    match why
    case UnknownIdentity => t.None?
    case ConfigTooShort =>
      t.Some? && t.value.diffID.Some? && config.Some? && !ListsNone(config.value) && |config.value| <= k
    case DiffIDMismatch =>
      t.Some? && t.value.diffID.Some? && config.Some? && !ListsNone(config.value) && k < |config.value|
      && config.value[k] != t.value.diffID
    case _ => false
  }

  /** A new ID is the next one, and it is the right one. */
  ghost predicate Extends(H: string -> string, s: State, ids: map<nat, string>, at: nat) {
    && CommittedBelow(s.shared.ids, at) && at in s.shared.queue && at in ids
    && ids == s.shared.ids[at := ids[at]]
    && RightID(H, s.known, s.config, at, s.shared.queue[at], Parent(s.shared.ids, at), ids[at])
  }

  lemma StepIDs(H: string -> string, s: State, g: nat, r: StoreResult)
    requires Enabled(s, Step(g, r))
    requires Working(s.calls[g].pc) ==> CommittedPrefix(s.shared, s.calls[g].pc) && RightPc(H, s, s.calls[g].pc)
    ensures var (y, pc) := Advance(H, s, g, r);
            && (y.ids == s.shared.ids || (Working(s.calls[g].pc) && Extends(H, s, y.ids, s.calls[g].pc.at)))
            && RightPc(H, s.(shared := y), pc)
  {
    match s.calls[g].pc
    case Identifying(at, info, parent) => IdentifyIsRight(H, s.known, s.config, at, info, parent);
    case _ =>
  }

  lemma ExtendRightIDs(H: string -> string, s: State, y: Shared, at: nat)
    requires RightIDs(H, s) && (forall k :: k in s.shared.ids ==> k in s.shared.queue)
    requires forall k :: k in s.shared.queue ==> k in y.queue && y.queue[k] == s.shared.queue[k]
    requires y.ids == s.shared.ids || Extends(H, s, y.ids, at)
    ensures RightIDs(H, s.(shared := y))
  {
    forall k | k in y.ids && k in y.queue
      ensures RightAt(H, s.known, s.config, y.ids, k, y.queue[k])
    {
      assert k in s.shared.queue;
      assert k in s.shared.ids ==> RightAt(H, s.known, s.config, s.shared.ids, k, s.shared.queue[k]);
      assert Parent(y.ids, k) == Parent(s.shared.ids, k);
    }
  }

  lemma MoveQueueGrows(s: State, g: nat, y: Shared, pc: Pc)
    requires Control(s) && g in s.calls && Moves(s.shared, g, s.calls[g], y, pc)
    ensures forall k :: k in s.shared.queue ==> k in y.queue && y.queue[k] == s.shared.queue[k]
  {
  }

  lemma MoveRightPc(H: string -> string, s: State, g: nat, y: Shared, pc: Pc)
    requires Control(s) && g in s.calls && Moves(s.shared, g, s.calls[g], y, pc)
    requires RightPc(H, s, OwnerPc(s)) && RightPc(H, s.(shared := y), pc)
    ensures RightPc(H, s.(shared := y), OwnerPc(Moved(s, g, y, pc)))
  {
    if g != s.shared.current {
      assert y.ids == s.shared.ids && y.current == s.shared.current;
    }
  }

  /** No ID is ever replaced. */
  ghost predicate Keeps(ids: map<nat, string>, later: map<nat, string>) {
    forall k :: k in ids ==> k in later && later[k] == ids[k]
  }

  lemma StepRightIDs(H: string -> string, s: State, g: nat, y: Shared, pc: Pc)
    requires Control(s) && RightIDs(H, s) && g in s.calls && Moves(s.shared, g, s.calls[g], y, pc)
    requires y.ids == s.shared.ids || (Working(s.calls[g].pc) && Extends(H, s, y.ids, s.calls[g].pc.at))
    ensures RightIDs(H, s.(shared := y))
  {
    MoveQueueGrows(s, g, y, pc);
    ExtendRightIDs(H, s, y, if Working(s.calls[g].pc) then s.calls[g].pc.at else 0);
  }

  lemma MoveInv(H: string -> string, s: State, g: nat, y: Shared, pc: Pc)
    requires Inv(H, s) && g in s.calls && Moves(s.shared, g, s.calls[g], y, pc)
    requires NeedsLock(s.calls[g].pc) ==> s.shared.lock.None?
    requires y.ids == s.shared.ids || (Working(s.calls[g].pc) && Extends(H, s, y.ids, s.calls[g].pc.at))
    requires RightPc(H, s.(shared := y), pc)
    ensures Inv(H, Moved(s, g, y, pc))
  {
    MoveControl(s, g, y, pc);
    StepRightIDs(H, s, g, y, pc);
    MoveRightPc(H, s, g, y, pc);
  }

  lemma StepInv(H: string -> string, s: State, g: nat, r: StoreResult)
    requires Inv(H, s) && Enabled(s, Step(g, r))
    ensures Inv(H, Apply(H, s, Step(g, r)))
    ensures Keeps(s.shared.ids, Apply(H, s, Step(g, r)).shared.ids)
  {
    var (y, pc) := Advance(H, s, g, r);
    AdvanceMoves(H, s, g, r);
    StepIDs(H, s, g, r);
    MoveInv(H, s, g, y, pc);
  }

  /** Every action keeps the invariant, and no committed ID changes. */
  lemma InvKept(H: string -> string, s: State, a: Action)
    requires Inv(H, s) && Enabled(s, a)
    ensures Inv(H, Apply(H, s, a)) && Keeps(s.shared.ids, Apply(H, s, a).shared.ids)
  {
    match a
    case Start(_, _) =>
    case Step(g, r) => StepInv(H, s, g, r);
    case _ => RecordRightIDs(H, s, a);
  }

  // ----- Whole runs -----

  ghost predicate Run(H: string -> string, s: State, actions: seq<Action>, t: State)
    decreases |actions|
  {
    if actions == [] then s == t
    else Enabled(s, actions[0]) && Run(H, Apply(H, s, actions[0]), actions[1..], t)
  }

  lemma {:induction false} RunKeepsInv(H: string -> string, s: State, actions: seq<Action>, t: State)
    requires Inv(H, s) && Run(H, s, actions, t)
    ensures Inv(H, t) && Keeps(s.shared.ids, t.shared.ids)
    decreases |actions|
  {
    if actions != [] {
      InvKept(H, s, actions[0]);
      RunKeepsInv(H, Apply(H, s, actions[0]), actions[1..], t);
    }
  }

  /**
    In every interleaving: at most one goroutine is in the commit loop, the committed layers are an
    initial segment, and no call fails because a previous layer was not committed.
   */
  lemma SafeInEveryRun(H: string -> string, s: State, actions: seq<Action>, t: State)
    requires Init(s) && Run(H, s, actions, t)
    ensures forall j, k :: j in t.calls && k in t.calls && Working(t.calls[j].pc) && Working(t.calls[k].pc) ==> j == k
    ensures exists m :: t.shared.current <= m && CommittedBelow(t.shared.ids, m)
    ensures forall k :: k in t.calls && t.calls[k].pc.Committing? ==> t.calls[k].pc.at !in t.shared.ids
    ensures forall k, n, why :: k in t.calls && t.calls[k].pc == Returned(Failed(n, why)) ==>
              why != PreviousNotCommitted && why != TocWithoutConfig
  {
    assert CommittedBelow(s.shared.ids, 0);
    RunKeepsInv(H, s, actions, t);
    assert CommittedBelow(t.shared.ids, Frontier(t.shared.current, OwnerPc(t)));
    forall k, n, why | k in t.calls && t.calls[k].pc == Returned(Failed(n, why))
      ensures why != PreviousNotCommitted && why != TocWithoutConfig
    {
      assert Stopped(t.calls[k].pc);
    }
  }

  /**
    When no call is in progress and none failed or was deferred, every layer below the first one
    that was never queued is committed, and `current` is that first one.
   */
  lemma NoLayerLost(H: string -> string, s: State, actions: seq<Action>, t: State)
    requires Init(s) && Run(H, s, actions, t)
    requires forall k :: k in t.calls ==> t.calls[k].pc == Returned(Finished)
    ensures t.shared.current !in t.shared.queue
    ensures forall k: nat :: k < t.shared.current ==> k in t.shared.queue
    ensures CommittedBelow(t.shared.ids, t.shared.current)
    ensures t.shared.queue.Keys == t.calls.Keys
  {
    assert CommittedBelow(s.shared.ids, 0);
    RunKeepsInv(H, s, actions, t);
  }

  // ----- Progress -----

  /** While a call has not returned, some goroutine can step: the owner of the lock, or everyone. */
  lemma NeverStuck(H: string -> string, s: State, actions: seq<Action>, t: State, g: nat)
    requires Init(s) && Run(H, s, actions, t)
    requires g in t.calls && !t.calls[g].pc.Returned?
    ensures exists h :: Enabled(t, Step(h, Stored))
  {
    assert CommittedBelow(s.shared.ids, 0);
    RunKeepsInv(H, s, actions, t);
    assert Enabled(t, Step(if t.shared.lock.Some? then t.shared.lock.value else g, Stored));
  }

  /** How far a goroutine is from the end of its current round of the loop. */
  function PcRank(pc: Pc): nat {
    match pc
    case Ready => 9
    case Enqueued => 8
    case Committed(_) => 5
    case LoopTop(_) => 4
    case Committing(_, _) => 3
    case Identifying(_, _, _) => 2
    case Creating(_, _, _, _) => 1
    case Returned(_) => 0
  }

  ghost function TotalRank(calls: map<nat, Call>): nat {
    if calls == map[] then 0 else
      var g :| g in calls;
      PcRank(calls[g].pc) + TotalRank(calls - {g})
  }

  lemma {:induction false} RankOfOne(calls: map<nat, Call>, g: nat)
    requires g in calls
    ensures TotalRank(calls) == PcRank(calls[g].pc) + TotalRank(calls - {g})
    decreases |calls|
  {
    var h :| h in calls && TotalRank(calls) == PcRank(calls[h].pc) + TotalRank(calls - {h});
    if h != g {
      RankOfOne(calls - {h}, g);
      RankOfOne(calls - {g}, h);
      assert calls - {h} - {g} == calls - {g} - {h};
    }
  }

  lemma RankOfUpdate(calls: map<nat, Call>, g: nat, c: Call)
    ensures TotalRank(calls[g := c]) + (if g in calls then PcRank(calls[g].pc) else 0) == TotalRank(calls) + PcRank(c.pc)
  {
    RankOfOne(calls[g := c], g);
    assert calls[g := c] - {g} == calls - {g};
    if g in calls { RankOfOne(calls, g); } else { assert calls - {g} == calls; }
  }

  /** How many of the layers that were handed over are not committed. */
  function Uncommitted(handedOver: set<nat>, committed: set<nat>): nat { |handedOver - committed| }

  lemma OneLessUncommitted(handedOver: set<nat>, committed: set<nat>, at: nat)
    requires at in handedOver && at !in committed
    ensures Uncommitted(handedOver, committed + {at}) + 1 == Uncommitted(handedOver, committed)
  {
    assert handedOver - committed == (handedOver - (committed + {at})) + {at};
  }

  lemma OneMoreUncommitted(handedOver: set<nat>, committed: set<nat>, g: nat)
    requires g !in handedOver && g !in committed
    ensures Uncommitted(handedOver + {g}, committed) == Uncommitted(handedOver, committed) + 1
  {
    assert (handedOver + {g}) - committed == (handedOver - committed) + {g};
  }

  lemma CountCalls(calls: map<nat, Call>, g: nat, c: Call)
    ensures calls[g := c].Keys == calls.Keys + {g}
    ensures |calls[g := c]| == if g in calls then |calls| else |calls| + 1
  {
    assert calls[g := c].Keys == calls.Keys + {g};
    assert |calls[g := c].Keys| == |calls[g := c]| && |calls.Keys| == |calls|;
    if g in calls { assert calls.Keys + {g} == calls.Keys; }
  }

  /** What is left to do: rounds of the loop for layers not committed yet, and the current ones. */
  ghost function RankOf(calls: map<nat, Call>, committed: set<nat>): nat {
    TotalRank(calls) + 10 * Uncommitted(calls.Keys, committed)
  }

  ghost function Rank(s: State): nat { RankOf(s.calls, s.shared.ids.Keys) }

  /** A step ends a round by committing one more layer, or goes on in its round. */
  lemma MoveInRound(s: State, g: nat, y: Shared, pc: Pc)
    requires Control(s) && g in s.calls && Moves(s.shared, g, s.calls[g], y, pc)
    ensures var was := s.calls[g].pc;
            if pc.Committed? then
              (was.Committing? || was.Identifying? || was.Creating?) && was.at in s.calls && was.at !in s.shared.ids
              && y.ids.Keys == s.shared.ids.Keys + {was.at}
            else y.ids == s.shared.ids && PcRank(pc) < PcRank(was)
  {
    if pc.Committed? {
      var at := s.calls[g].pc.at;
      assert CommittedBelow(s.shared.ids, at) && at in s.shared.queue;
    }
  }

  lemma CommittingLowersRank(calls: map<nat, Call>, committed: set<nat>, g: nat, c: Call, at: nat)
    requires g in calls && at in calls && at !in committed && PcRank(c.pc) < PcRank(calls[g].pc) + 10
    ensures RankOf(calls[g := c], committed + {at}) < RankOf(calls, committed)
  {
    RankOfUpdate(calls, g, c);
    assert calls[g := c].Keys == calls.Keys;
    OneLessUncommitted(calls.Keys, committed, at);
  }

  lemma GoingOnLowersRank(calls: map<nat, Call>, committed: set<nat>, g: nat, c: Call)
    requires g in calls && PcRank(c.pc) < PcRank(calls[g].pc)
    ensures RankOf(calls[g := c], committed) < RankOf(calls, committed)
  {
    RankOfUpdate(calls, g, c);
    assert calls[g := c].Keys == calls.Keys;
  }

  lemma MoveLowersRank(s: State, g: nat, y: Shared, pc: Pc)
    requires Control(s) && g in s.calls && Moves(s.shared, g, s.calls[g], y, pc)
    ensures RankOf(s.calls[g := s.calls[g].(pc := pc)], y.ids.Keys) < Rank(s)
  {
    MoveInRound(s, g, y, pc);
    var c := s.calls[g].(pc := pc);
    if pc.Committed? {
      CommittingLowersRank(s.calls, s.shared.ids.Keys, g, c, s.calls[g].pc.at);
    } else {
      GoingOnLowersRank(s.calls, s.shared.ids.Keys, g, c);
    }
  }

  lemma StartRaisesRank(calls: map<nat, Call>, committed: set<nat>, g: nat, info: LayerInfo)
    requires g !in calls && g !in committed
    ensures RankOf(calls[g := Call(info, Ready)], committed) == RankOf(calls, committed) + 19
  {
    RankOfUpdate(calls, g, Call(info, Ready));
    CountCalls(calls, g, Call(info, Ready));
    OneMoreUncommitted(calls.Keys, committed, g);
  }

  function StepsIn(a: Action): nat { if a.Step? then 1 else 0 }

  function Steps(actions: seq<Action>): nat {
    if actions == [] then 0 else StepsIn(actions[0]) + Steps(actions[1..])
  }

  /** A call brings work for 19 steps, and every step does some of it. */
  ghost predicate Accounts(s: State, steps: nat, t: State) {
    |s.calls| <= |t.calls| && steps + Rank(t) <= Rank(s) + 19 * (|t.calls| - |s.calls|)
  }

  lemma ActionAccounts(H: string -> string, s: State, a: Action)
    requires Control(s) && Enabled(s, a)
    ensures Accounts(s, StepsIn(a), Apply(H, s, a))
  {
    match a
    case Start(g, info) =>
      assert g !in s.shared.ids;
      StartRaisesRank(s.calls, s.shared.ids.Keys, g, info);
      CountCalls(s.calls, g, Call(info, Ready));
    case Step(g, r) =>
      var (y, pc) := Advance(H, s, g, r);
      AdvanceMoves(H, s, g, r);
      MoveLowersRank(s, g, y, pc);
      CountCalls(s.calls, g, s.calls[g].(pc := pc));
    case _ =>
  }

  lemma {:induction false} RunAccounts(H: string -> string, s: State, actions: seq<Action>, t: State)
    requires Inv(H, s) && Run(H, s, actions, t)
    ensures Accounts(s, Steps(actions), t)
    decreases |actions|
  {
    if actions != [] {
      InvKept(H, s, actions[0]);
      ActionAccounts(H, s, actions[0]);
      RunAccounts(H, Apply(H, s, actions[0]), actions[1..], t);
    }
  }

  /** In any run, however scheduled, n calls take at most 19 * n steps; as none is stuck, every call returns. */
  lemma EveryCallReturns(H: string -> string, s: State, actions: seq<Action>, t: State)
    requires Init(s) && Run(H, s, actions, t)
    ensures Steps(actions) <= 19 * |t.calls|
  {
    assert CommittedBelow(s.shared.ids, 0);
    RunAccounts(H, s, actions, t);
    assert TotalRank(s.calls) == 0 && |s.calls| == 0 && Uncommitted(s.calls.Keys, s.shared.ids.Keys) == 0;
  }

  // ----- CommitWithOptions -----

  /** The identities of an image's layers by what is known, None for an empty layer. */
  function Identities(known: Known, layers: seq<LayerInfo>): (r: seq<Layer>)
    ensures |r| == |layers|
    ensures forall i :: 0 <= i < |r| && r[i].Some? ==> Consistent(r[i].value)
  {
    seq(|layers|, i requires 0 <= i < |layers| =>
      if layers[i].emptyLayer then None else TrustedIdentity(known, i, layers[i].digest))
  }

  /** The first n layers are committed, with the IDs that what is known gives them. */
  ghost predicate RightUpTo(H: string -> string, known: Known, config: Config, ids: map<nat, string>,
                            layers: seq<LayerInfo>, n: nat) {
    forall k: nat :: k < n && k < |layers| ==> RightAt(H, known, config, ids, k, layers[k])
  }

  lemma {:induction false} RightIDsAreChainIDs(H: string -> string, known: Known, config: Config, ids: map<nat, string>,
                                               layers: seq<LayerInfo>, n: nat)
    requires n <= |layers| && RightUpTo(H, known, config, ids, layers, n)
    ensures Parent(ids, n) == ChainID(H, Identities(known, layers)[..n])
  {
    var all := Identities(known, layers);
    if n > 0 {
      RightIDsAreChainIDs(H, known, config, ids, layers, n - 1);
      assert all[..n][..n - 1] == all[..n - 1];
      assert RightAt(H, known, config, ids, n - 1, layers[n - 1]);
    }
  }

  lemma GrowthKeepsRight(H: string -> string, known: Known, later: Known, config: Config, ids: map<nat, string>,
                         layers: seq<LayerInfo>, n: nat)
    requires Grows(known, later) && RightUpTo(H, known, config, ids, layers, n)
    ensures RightUpTo(H, later, config, ids, layers, n)
  {
    forall k: nat | k < n && k < |layers|
      ensures RightAt(H, later, config, ids, k, layers[k])
    {
      assert RightAt(H, known, config, ids, k, layers[k]);
      if !layers[k].emptyLayer { IdentityIsStable(known, later, k, layers[k].digest); }
    }
  }

  /** The layers committed so far are the first n, with the right IDs. */
  ghost predicate Progress(H: string -> string, known: Known, config: Config, ids: map<nat, string>,
                           layers: seq<LayerInfo>, n: nat) {
    n <= |layers| && CommittedBelow(ids, n) && RightUpTo(H, known, config, ids, layers, n)
  }

  lemma CommitMakesProgress(H: string -> string, before: Known, later: Known, config: Config,
                            ids: map<nat, string>, ids': map<nat, string>, layers: seq<LayerInfo>, i: nat, n: nat)
    requires Progress(H, before, config, ids, layers, n) && i <= n && i < |layers|
    requires Grows(before, later) && Keeps(ids, ids') && ids'.Keys == ids.Keys + {i}
    requires i !in ids ==> RightID(H, later, config, i, layers[i], Parent(ids, i), ids'[i])
    ensures Progress(H, later, config, ids', layers, if n == i then i + 1 else n)
  {
    GrowthKeepsRight(H, before, later, config, ids, layers, n);
    var n' := if n == i then i + 1 else n;
    assert CommittedBelow(ids', n') by {
      assert forall k: nat :: k in ids' <==> k in ids.Keys + {i};
    }
    forall k: nat | k < n' && k < |layers|
      ensures RightAt(H, later, config, ids', k, layers[k])
    {
      assert Parent(ids', k) == Parent(ids, k);
      assert k < n ==> RightAt(H, later, config, ids, k, layers[k]);
    }
  }

  /** The commit of a layer comes as far as looking up its identity. */
  predicate Attempted(ids: map<nat, string>, k: nat, info: LayerInfo) {
    k !in ids && (k == 0 || k - 1 in ids) && !info.emptyLayer
  }

  /** The identity of the layer is known, the config permits it, and the store answers like this. */
  predicate Answers(known: Known, config: Config, k: nat, info: LayerInfo, store: StoreResult, answer: StoreResult) {
    var t := TrustedIdentity(known, k, info.digest);
    t.Some? && Permitted(config, k, t.value) && store == answer
  }

  /** Why the final pass can not commit a layer. */
  predicate Fails(known: Known, config: Config, k: nat, info: LayerInfo, store: StoreResult, why: Failure) {
    match why
    case StoreFailure => Answers(known, config, k, info, store, StoreError)
    case NotReady => Defers(known, config, k, info) || Answers(known, config, k, info, store, NotYet)
    case _ => Refuses(known, config, k, info, why)
  }

  /** A layer that could be committed from the start can not be a reason to fail later. */
  lemma AnswersStay(known: Known, later: Known, config: Config, k: nat, info: LayerInfo, store: StoreResult, why: Failure)
    requires Grows(known, later) && Answers(known, config, k, info, store, Stored)
    ensures !Fails(later, config, k, info, store, why)
  {
    IdentityIsStable(known, later, k, info.digest);
  }

  class StorageDestination {
    const H: string -> string
    var ids: map<nat, string>
    var known: Known
    const config: Config

    constructor (H: string -> string, ids: map<nat, string>, known: Known, config: Config)
      ensures this.H == H && this.ids == ids && this.known == known && this.config == config
    {
      this.H, this.ids, this.known, this.config := H, ids, known, config;
    }

    /**
      Commits one layer. `found` is what the call learns about blobs on the way, from looking for
      a reusable layer or from reading one back; a digest already known keeps its value.
     */
    method CommitLayer(index: nat, info: LayerInfo, found: map<Digest, Digest>, store: StoreResult)
      returns (stopQueue: bool, err: Option<Failure>)
      modifies this
      ensures Grows(old(known), known)
      ensures known == if Attempted(old(ids), index, info)
                       then old(known).(blobDiffIDs := found + old(known).blobDiffIDs) else old(known)
      ensures stopQueue || err.Some? ==> ids == old(ids) && !(stopQueue && err.Some?)
      ensures !stopQueue && err.None? ==> index in ids && Keeps(old(ids), ids) && ids.Keys == old(ids).Keys + {index}
      ensures !stopQueue && err.None? && index !in old(ids) ==>
                RightID(H, known, config, index, info, Parent(old(ids), index), ids[index])
      ensures err == Some(PreviousNotCommitted) <==> index !in old(ids) && index > 0 && index - 1 !in old(ids)
      // What becomes of a layer whose commit was attempted, by what is known of it, the config and the store.
      ensures Attempted(old(ids), index, info) ==>
                && (stopQueue <==> Defers(known, config, index, info) || Answers(known, config, index, info, store, NotYet))
                && (!stopQueue && err.None? <==> Answers(known, config, index, info, store, Stored))
                && (err == Some(StoreFailure) <==> Answers(known, config, index, info, store, StoreError))
                && (forall why :: why in {UnknownIdentity, ConfigTooShort, DiffIDMismatch} ==>
                      (err == Some(why) <==> Refuses(known, config, index, info, why)))
      ensures !Attempted(old(ids), index, info) && err != Some(PreviousNotCommitted) ==> !stopQueue && err.None?
      ensures err.Some? ==> err.value in {PreviousNotCommitted, UnknownIdentity, ConfigTooShort, DiffIDMismatch, StoreFailure}
    {
      var c := BeginCommit(ids, index, info);
      if c.Identify? {
        var parent := c.parent;
        known := known.(blobDiffIDs := found + known.blobDiffIDs);
        IdentifyIsRight(H, known, config, index, info, parent);
        OneVerdict(known, config, index, info);
        c := IdentifyCommit(H, known, config, index, info, parent);
        if c.Create? {
          c := FinishCommit(ids, index, c.id, store);
        }
      }
      match c
      case Done(ids') => ids := ids'; return false, None;
      case Stop => return true, None;
      case Fail(why) => return false, Some(why);
      case _ => assert false;
    }

    /** The layer loop of CommitWithOptions, over the layers of the manifest; returns the last layer's ID. */
    method CommitWithOptions(layers: seq<LayerInfo>, found: seq<map<Digest, Digest>>, stores: seq<StoreResult>)
      returns (r: Result<string, Failure>)
      requires |found| == |stores| == |layers|
      requires exists m: nat :: Progress(H, known, config, ids, layers, m)
      modifies this
      ensures r.Err? ==> r.error != PreviousNotCommitted && r.error != TocWithoutConfig
      ensures Grows(old(known), known) && Keeps(old(ids), ids)
      ensures r.Ok? ==> Progress(H, known, config, ids, layers, |layers|)
      ensures r.Ok? ==> r.value == ChainID(H, Identities(known, layers))
      // It fails only because of a layer that can not be committed, and so not if all could be from the start.
      ensures r.Err? ==>
                exists i: nat :: i < |layers| && i !in old(ids) && !layers[i].emptyLayer
                  && Fails(known, config, i, layers[i], stores[i], r.error)
      ensures (forall i: nat :: i < |layers| ==>
                 i in old(ids) || layers[i].emptyLayer || Answers(old(known), config, i, layers[i], stores[i], Stored)) ==> r.Ok?
    {
      ghost var n: nat :| Progress(H, known, config, ids, layers, n);
      for i := 0 to |layers|
        invariant Grows(old(known), known) && Keeps(old(ids), ids)
        invariant i <= n && Progress(H, known, config, ids, layers, n)
      {
        ghost var before, ids0 := known, ids;
        var stopQueue, err := CommitLayer(i, layers[i], found[i], stores[i]);
        if stopQueue || err.Some? {
          ghost var why := if err.Some? then err.value else NotReady;
          assert Fails(known, config, i, layers[i], stores[i], why) && i !in old(ids) && !layers[i].emptyLayer;
          if Answers(old(known), config, i, layers[i], stores[i], Stored) {
            AnswersStay(old(known), known, config, i, layers[i], stores[i], why);
          }
        }
        if err.Some? { return Err(err.value); }
        if stopQueue { return Err(NotReady); }
        CommitMakesProgress(H, before, known, config, ids0, ids, layers, i, n);
        n := if n == i then i + 1 else n;
      }
      RightIDsAreChainIDs(H, known, config, ids, layers, |layers|);
      assert Identities(known, layers)[..|layers|] == Identities(known, layers);
      return Ok(if |layers| > 0 then ids[|layers| - 1] else "");
    }
  }

  // ----- The two phases together -----

  /** What any run of the concurrent phase leaves behind is what the final pass needs. */
  lemma RunHandsOver(H: string -> string, s: State, actions: seq<Action>, t: State, layers: seq<LayerInfo>)
    requires Init(s) && Run(H, s, actions, t)
    requires forall k :: k in t.shared.queue ==> k < |layers| && layers[k] == t.shared.queue[k]
    ensures exists m: nat :: Progress(H, t.known, t.config, t.shared.ids, layers, m)
  {
    assert CommittedBelow(s.shared.ids, 0);
    RunKeepsInv(H, s, actions, t);
    var m := Frontier(t.shared.current, OwnerPc(t));
    forall k: nat | k < m && k < |layers|
      ensures RightAt(H, t.known, t.config, t.shared.ids, k, layers[k])
    {
      assert RightAt(H, t.known, t.config, t.shared.ids, k, t.shared.queue[k]);
    }
    assert |layers| !in t.shared.ids;
    assert Progress(H, t.known, t.config, t.shared.ids, layers, m);
  }

  /** The chain ID of an image depends on its layers' identities only, not on when they became known. */
  lemma {:induction false} SameIdentitiesSameChain(H: string -> string, a: seq<Layer>, b: seq<Layer>)
    requires |a| == |b|
    requires forall i :: 0 <= i < |a| && a[i].Some? ==> Consistent(a[i].value)
    requires forall i :: 0 <= i < |b| && b[i].Some? ==> Consistent(b[i].value)
    requires forall i :: 0 <= i < |a| ==>
               (a[i].None? <==> b[i].None?) && (a[i].Some? ==> SameIdentity(a[i].value, b[i].value))
    ensures ChainID(H, a) == ChainID(H, b)
  {
    if a != [] {
      SameIdentitiesSameChain(H, a[..|a| - 1], b[..|b| - 1]);
    }
  }

  /** What is known gives every non-empty layer the same identity in both copies, where it gives one. */
  ghost predicate Agree(k1: Known, k2: Known, layers: seq<LayerInfo>) {
    forall i :: 0 <= i < |layers| && !layers[i].emptyLayer ==>
      var a, b := TrustedIdentity(k1, i, layers[i].digest), TrustedIdentity(k2, i, layers[i].digest);
      a.Some? && b.Some? ==> SameIdentity(a.value, b.value)
  }

  lemma SameIDAt(H: string -> string, layers: seq<LayerInfo>, k1: Known, c1: Config, ids1: map<nat, string>,
                 k2: Known, c2: Config, ids2: map<nat, string>, n: nat)
    requires n <= |layers| && Agree(k1, k2, layers)
    requires RightUpTo(H, k1, c1, ids1, layers, n) && RightUpTo(H, k2, c2, ids2, layers, n)
    ensures Parent(ids1, n) == Parent(ids2, n)
  {
    var a, b := Identities(k1, layers), Identities(k2, layers);
    RightIDsAreChainIDs(H, k1, c1, ids1, layers, n);
    RightIDsAreChainIDs(H, k2, c2, ids2, layers, n);
    forall i | 0 <= i < n
      ensures !layers[i].emptyLayer ==> a[i].Some? && b[i].Some? && SameIdentity(a[i].value, b[i].value)
    {
      assert RightAt(H, k1, c1, ids1, i, layers[i]) && RightAt(H, k2, c2, ids2, i, layers[i]);
    }
    SameIdentitiesSameChain(H, a[..n], b[..n]);
  }

  /**
    Scheduling does not matter: two copies of one image that end up with the same layer identities
    have stored it under the same IDs, however their goroutines were interleaved.
   */
  lemma SchedulingDoesNotMatter(H: string -> string, layers: seq<LayerInfo>,
                                k1: Known, c1: Config, ids1: map<nat, string>,
                                k2: Known, c2: Config, ids2: map<nat, string>)
    requires Progress(H, k1, c1, ids1, layers, |layers|) && Progress(H, k2, c2, ids2, layers, |layers|)
    requires Agree(k1, k2, layers)
    ensures ids1 == ids2
  {
    forall k: nat | k < |layers|
      ensures ids1[k] == ids2[k]
    {
      SameIDAt(H, layers, k1, c1, ids1, k2, c2, ids2, k + 1);
    }
    assert ids1.Keys == ids2.Keys;
  }

  /** When all layers are committed, the identities that the image ID needs of non-empty layers are known. */
  lemma CommittedLayersAreKnown(H: string -> string, known: Known, config: Config, ids: map<nat, string>, layers: seq<LayerInfo>)
    requires Progress(H, known, config, ids, layers, |layers|)
    ensures LayersKnown(known, layers, 0)
  {
    forall i | 0 <= i < |layers| && !layers[i].emptyLayer
      ensures TrustedIdentity(known, i, layers[i].digest).Some?
    {
      assert RightAt(H, known, config, ids, i, layers[i]);
    }
  }

  /**
    So after the final pass the only "internal inconsistency" of an image ID is the one of a schema1
    image, none of whose layers lacks a DiffID, with an empty layer whose blob is not known.
   */
  lemma CommittedImageHasID(H: string -> string, known: Known, config: Config, ids: map<nat, string>,
                            layers: seq<LayerInfo>, m: Manifest)
    requires Progress(H, known, config, ids, layers, |layers|) && ListsLayers(m, layers)
    ensures ComputeID(H, known, m, layers) == Inconsistent <==>
              m.Schema1? && OrdinaryID(H, known, m, layers).Computed? && !EmptyLayersKnown(known, layers)
    ensures m.Schema1? ==> (ComputeID(H, known, m, layers) == Random <==> LacksDiffID(known, layers, 0))
  {
    CommittedLayersAreKnown(H, known, config, ids, layers);
    InconsistentIff(H, known, m, layers);
  }

  /**
    That can happen: a schema1 image with one layer and an empty one on top of it, which a caller
    never handed over. All layers are committed, and then the image ID can not be computed.
   */
  lemma ForgottenEmptyLayer(H: string -> string, base: Digest, diffID: Digest, empty: Digest, image: string)
    requires base != empty
    ensures var known := Known(map[], map[], map[base := diffID]);
            var ids := map[0 := diffID.encoded, 1 := diffID.encoded];
            var layers := [LayerInfo(base, false), LayerInfo(empty, true)];
            && Progress(H, known, Some([None]), ids, layers, |layers|)
            && ComputeID(H, known, Schema1(_ => Some(image)), layers) == Inconsistent
  {
    var known := Known(map[], map[], map[base := diffID]);
    var ids := map[0 := diffID.encoded, 1 := diffID.encoded];
    var layers := [LayerInfo(base, false), LayerInfo(empty, true)];
    var m := Schema1(_ => Some(image));
    forall k: nat | k < 2
      ensures RightAt(H, known, Some([None]), ids, k, layers[k])
    {
    }
    assert Progress(H, known, Some([None]), ids, layers, |layers|);
    assert DiffIDsFrom(known, layers, 2) == AllDiffIDs([]);
    assert DiffIDsFrom(known, layers, 1) == AllDiffIDs([]);
    assert OrdinaryID(H, known, m, layers).Computed?;
    assert TrustedIdentity(known, 1, layers[1].digest).None?;
    CommittedImageHasID(H, known, Some([None]), ids, layers, m);
  }
}
