/**
  The buffered network reader: a goroutine fills buffers from a stream while a caller reads from
  them, and the buffers travel between the two over a channel of empty and a channel of ready ones.

  A step system over single actions of the constructor, the goroutine and the caller. Buffers are
  shared objects, named by number; the stream ends in EOF, is not closed early, and is read with
  non-empty destination slices.
 */
module BufferedReader {
  import opened Common

  type Id = nat

  /** `data` is data[:len]; `consumed` is left over from the previous use until the caller resets it. */
  datatype Buffer = Buffer(data: Bytes, eof: bool, consumed: nat)

  datatype Filler = Waiting | Filling(b: Id) | Filled(b: Id) | Finished

  datatype Caller =
    | Idle
    | AtTop(n: nat)             // at the start of read(p), with len(p) == n
    | AfterCurrent(n: nat)      // about to look at gotEOF
    | Receiving(n: nat)         // receiving from readyBuffer

  datatype Current = Nothing | Holding(b: Id)

  /** Where the buffers are. */
  datatype Places = Places(
    toPush: seq<Id>,            // buffers that the constructor has yet to send
    empty: seq<Id>,             // emptyBuffer
    filler: Filler,
    ready: seq<Id>,             // readyBuffer
    current: Current)

  datatype State = State(
    capacity: nat,              // nBuffers
    size: nat,                  // bufferSize
    rest: Bytes,                // what the stream has not delivered
    buffers: seq<Buffer>,
    at: Places,
    gotEOF: bool,
    caller: Caller,
    delivered: Bytes,           // what Read calls have returned
    sawEOF: bool)               // whether some Read call has returned EOF

  datatype Action =
    | Push
    | Take
    | StreamRead(n: nat, eof: bool)
    | Send
    | Call(n: nat)
    | Copy
    | CheckEOF
    | Receive

  function Get(buffers: seq<Buffer>, id: Id): Buffer {
    if id < |buffers| then buffers[id] else Buffer("", false, 0)
  }

  function Set(buffers: seq<Buffer>, id: Id, b: Buffer): seq<Buffer> {
    if id < |buffers| then buffers[id := b] else buffers
  }

  function Min(a: nat, b: nat): nat { if a < b then a else b }

  predicate HasData(buffers: seq<Buffer>, c: Current) {
    c.Holding? && Get(buffers, c.b).consumed <= |Get(buffers, c.b).data|
  }

  /** What is left in the current buffer. */
  function Left(buffers: seq<Buffer>, c: Current): Bytes {
    if HasData(buffers, c) then Get(buffers, c.b).data[Get(buffers, c.b).consumed..] else ""
  }

  /** What a Read call takes from the current buffer. */
  function Taken(s: State): nat {
    if s.caller.AtTop? then Min(s.caller.n, |Left(s.buffers, s.at.current)|) else 0
  }

  /** The caller is about to send the current buffer back. */
  predicate ReturnsBuffer(s: State) {
    s.caller.AtTop? && s.at.current.Holding? && Taken(s) == |Left(s.buffers, s.at.current)|
  }

  /** Sends wait for room in the channel, receives for an element. */
  predicate Enabled(s: State, a: Action) {
    match a
    case Push => s.at.toPush != [] && |s.at.empty| < s.capacity
    case Take => s.at.filler.Waiting? && s.at.empty != []
    case StreamRead(n, eof) => s.at.filler.Filling? && n <= s.size && n <= |s.rest| && (eof ==> n == |s.rest|)
    case Send => s.at.filler.Filled? && |s.at.ready| < s.capacity
    case Call(n) => s.caller.Idle? && s.at.toPush == [] && n > 0
    case Copy => s.caller.AtTop? && (ReturnsBuffer(s) ==> |s.at.empty| < s.capacity)
    case CheckEOF => s.caller.AfterCurrent?
    case Receive => s.caller.Receiving? && s.at.ready != []
  }

  /** How an action moves the buffers. */
  function Move(s: State, a: Action): Places
    requires Enabled(s, a)
  {
    var p := s.at;
    match a
    case Push => p.(toPush := p.toPush[1..], empty := p.empty + [p.toPush[0]])
    case Take => p.(empty := p.empty[1..], filler := Filling(p.empty[0]))
    case StreamRead(_, _) => p.(filler := Filled(p.filler.b))
    case Send => p.(filler := if Get(s.buffers, p.filler.b).eof then Finished else Waiting, ready := p.ready + [p.filler.b])
    case Copy => if ReturnsBuffer(s) then p.(current := Nothing, empty := p.empty + [p.current.b]) else p
    case Receive => p.(ready := p.ready[1..], current := Holding(p.ready[0]))
    case _ => p
  }

  /** The buffer with n more bytes consumed. */
  function Consume(buffers: seq<Buffer>, id: Id, n: nat): seq<Buffer> {
    Set(buffers, id, Get(buffers, id).(consumed := Get(buffers, id).consumed + n))
  }

  /** How an action changes the buffers. */
  function Change(s: State, a: Action): seq<Buffer>
    requires Enabled(s, a)
  {
    match a
    case StreamRead(n, eof) =>
      var id := s.at.filler.b;
      Set(s.buffers, id, Get(s.buffers, id).(data := s.rest[..n], eof := eof))
    case Copy =>
      if s.at.current.Nothing? then s.buffers else Consume(s.buffers, s.at.current.b, Taken(s))
    case Receive =>
      var id := s.at.ready[0];
      Set(s.buffers, id, Get(s.buffers, id).(consumed := 0))
    case _ => s.buffers
  }

  function Apply(s: State, a: Action): State
    requires Enabled(s, a)
  {
    var t := s.(at := Move(s, a), buffers := Change(s, a));
    match a
    case StreamRead(n, _) => t.(rest := s.rest[n..])
    case Call(n) => t.(caller := AtTop(n))
    case Copy =>
      t.(delivered := s.delivered + Left(s.buffers, s.at.current)[..Taken(s)],
         caller := if Taken(s) > 0 then Idle else AfterCurrent(s.caller.n))
    case CheckEOF => if s.gotEOF then t.(caller := Idle, sawEOF := true) else t.(caller := Receiving(s.caller.n))
    case Receive => t.(gotEOF := s.gotEOF || Get(s.buffers, s.at.ready[0]).eof, caller := AtTop(s.caller.n))
    case _ => t
  }

  // ----- Ownership -----

  function FillerHas(f: Filler): seq<Id> { if f.Filling? || f.Filled? then [f.b] else [] }

  function CallerHas(c: Current): seq<Id> { if c.Holding? then [c.b] else [] }

  /** The buffers that someone has or that are in a channel, in the order in which the caller gets them. */
  function Ring(p: Places): seq<Id> {
    CallerHas(p.current) + p.ready + FillerHas(p.filler) + p.empty + p.toPush
  }

  ghost predicate Distinct(ids: seq<Id>, n: nat) {
    && (forall i :: 0 <= i < |ids| ==> ids[i] < n)
    && (forall i, j :: 0 <= i < j < |ids| ==> ids[i] != ids[j])
  }

  /** No buffer is lost, and none is in two places. */
  ghost predicate Ownership(s: State) {
    && |s.buffers| == |Ring(s.at)| == s.capacity
    && Distinct(Ring(s.at), s.capacity)
    && (s.caller.AfterCurrent? || s.caller.Receiving? ==> s.at.current.Nothing?)
    && (!s.caller.Idle? ==> s.caller.n > 0)
    && (s.at.toPush != [] ==> s.caller.Idle? && s.at.current.Nothing?)
  }

  lemma ReturnTurnsRing(p: Places)
    requires p.current.Holding? && p.toPush == []
    ensures Ring(p.(current := Nothing, empty := p.empty + [p.current.b])) == Ring(p)[1..] + Ring(p)[..1]
  {
    var rest := p.ready + FillerHas(p.filler) + p.empty;
    assert Ring(p) == [p.current.b] + rest;
    assert Ring(p.(current := Nothing, empty := p.empty + [p.current.b])) == rest + [p.current.b];
  }

  lemma PushKeepsRing(p: Places)
    requires p.toPush != []
    ensures Ring(p.(toPush := p.toPush[1..], empty := p.empty + [p.toPush[0]])) == Ring(p)
  {
    Shift(p.empty, p.toPush);
    Assoc(CallerHas(p.current) + p.ready + FillerHas(p.filler), p.empty, p.toPush);
    Assoc(CallerHas(p.current) + p.ready + FillerHas(p.filler), p.empty + [p.toPush[0]], p.toPush[1..]);
  }

  lemma TakeKeepsRing(p: Places)
    requires p.filler.Waiting? && p.empty != []
    ensures Ring(p.(empty := p.empty[1..], filler := Filling(p.empty[0]))) == Ring(p)
  {
    var front := CallerHas(p.current) + p.ready;
    assert front + FillerHas(p.filler) == front;
    assert front + [p.empty[0]] + p.empty[1..] == front + p.empty;
  }

  lemma SendKeepsRing(p: Places, f: Filler)
    requires p.filler.Filled? && FillerHas(f) == []
    ensures Ring(p.(filler := f, ready := p.ready + [p.filler.b])) == Ring(p)
  {
    var front := CallerHas(p.current) + p.ready;
    assert CallerHas(p.current) + (p.ready + [p.filler.b]) + FillerHas(f) == front + FillerHas(p.filler);
  }

  lemma ReceiveKeepsRing(p: Places)
    requires p.current.Nothing? && p.ready != []
    ensures Ring(p.(ready := p.ready[1..], current := Holding(p.ready[0]))) == Ring(p)
  {
    assert [p.ready[0]] + p.ready[1..] == [] + p.ready;
  }

  lemma Shift(a: seq<Id>, b: seq<Id>)
    requires b != []
    ensures a + [b[0]] + b[1..] == a + b
  {
  }

  lemma Assoc<T>(a: seq<T>, b: seq<T>, c: seq<T>)
    ensures a + (b + c) == a + b + c
  {
  }

  /** Buffers go round: the order changes only when the caller sends one back, to the end of the line. */
  lemma StepTurnsRing(s: State, a: Action)
    requires Ownership(s) && Enabled(s, a)
    ensures Ring(Move(s, a)) == if a.Copy? && ReturnsBuffer(s) then Ring(s.at)[1..] + Ring(s.at)[..1] else Ring(s.at)
  {
    match a
    case Push => PushKeepsRing(s.at);
    case Take => TakeKeepsRing(s.at);
    case Send => SendKeepsRing(s.at, Move(s, a).filler);
    case Copy => if ReturnsBuffer(s) { ReturnTurnsRing(s.at); }
    case Receive => ReceiveKeepsRing(s.at);
    case _ =>
  }

  lemma TurningKeepsDistinct(ids: seq<Id>, n: nat)
    requires Distinct(ids, n) && ids != []
    ensures Distinct(ids[1..] + ids[..1], n)
  {
  }

  lemma StepOwnership(s: State, a: Action)
    requires Ownership(s) && Enabled(s, a)
    ensures Ownership(Apply(s, a))
  {
    StepTurnsRing(s, a);
    if a.Copy? && ReturnsBuffer(s) {
      assert Ring(s.at)[0] == s.at.current.b;
      TurningKeepsDistinct(Ring(s.at), s.capacity);
    }
  }

  /** The goroutine, the caller and the ready channel never share a buffer. */
  ghost predicate Apart(p: Places, n: nat) {
    && Distinct(p.ready, n)
    && (forall i :: 0 <= i < |p.ready| ==> p.ready[i] !in FillerHas(p.filler) && p.ready[i] !in CallerHas(p.current))
    && (p.current.Holding? ==> p.current.b < n && p.current.b !in FillerHas(p.filler))
    && (p.filler.Filling? || p.filler.Filled? ==> p.filler.b < n)
  }

  lemma OwnershipKeepsApart(s: State)
    requires Ownership(s)
    ensures Apart(s.at, |s.buffers|)
  {
    var p := s.at;
    var ring := Ring(p);
    var k := |CallerHas(p.current)|;
    assert forall i :: 0 <= i < |p.ready| ==> p.ready[i] == ring[k + i];
    assert forall i :: 0 <= i < |FillerHas(p.filler)| ==> FillerHas(p.filler)[i] == ring[k + |p.ready| + i];
    assert k > 0 ==> ring[0] == p.current.b;
    assert p.filler.Filling? || p.filler.Filled? ==> FillerHas(p.filler)[0] == p.filler.b;
  }

  // ----- Exactness -----

  function DataOf(buffers: seq<Buffer>, ids: seq<Id>): Bytes {
    if ids == [] then "" else Get(buffers, ids[0]).data + DataOf(buffers, ids[1..])
  }

  function FilledData(buffers: seq<Buffer>, f: Filler): Bytes {
    if f.Filled? then Get(buffers, f.b).data else ""
  }

  /** What is still to be delivered: the rest of the current buffer, the ready ones, the one being sent, the stream. */
  function Pending(buffers: seq<Buffer>, p: Places, rest: Bytes): Bytes {
    Left(buffers, p.current) + (DataOf(buffers, p.ready) + (FilledData(buffers, p.filler) + rest))
  }

  ghost predicate Exact(s: State, whole: Bytes) {
    && (s.at.current.Holding? ==> HasData(s.buffers, s.at.current))
    && s.delivered + Pending(s.buffers, s.at, s.rest) == whole
  }

  /** The EOF marker is in the last buffer the goroutine sends, and the caller takes it last. */
  ghost predicate EofLast(s: State) {
    var p := s.at;
    && (p.filler.Filled? && Get(s.buffers, p.filler.b).eof ==> s.rest == "")
    && (forall i :: 0 <= i < |p.ready| ==> (Get(s.buffers, p.ready[i]).eof <==> p.filler.Finished? && i == |p.ready| - 1))
    && (s.gotEOF <==> p.filler.Finished? && p.ready == [])
    && (p.filler.Finished? ==> s.rest == "")
    && (s.caller.Receiving? ==> !s.gotEOF)
    && (s.sawEOF ==> s.gotEOF && p.current.Nothing?)
  }

  ghost predicate Inv(s: State, whole: Bytes) {
    Ownership(s) && Exact(s, whole) && EofLast(s)
  }

  lemma FillerEofLast(s: State, a: Action)
    requires Apart(s.at, |s.buffers|) && EofLast(s) && Enabled(s, a) && !a.Copy? && !a.CheckEOF? && !a.Receive?
    ensures EofLast(Apply(s, a))
  {
  }

  lemma CopyEofLast(s: State, a: Action)
    requires Apart(s.at, |s.buffers|) && EofLast(s) && Enabled(s, a) && a.Copy?
    ensures EofLast(Apply(s, a))
  {
    if s.at.current.Holding? {
      var id := s.at.current.b;
      assert id in CallerHas(s.at.current);
      forall i | 0 <= i < |s.at.ready| ensures Get(Change(s, a), s.at.ready[i]) == Get(s.buffers, s.at.ready[i]) {
        SetElsewhere(s.buffers, id, Get(s.buffers, id).(consumed := Get(s.buffers, id).consumed + Taken(s)), s.at.ready[i]);
      }
    }
  }

  lemma ReceiveEofLast(s: State, a: Action)
    requires Ownership(s) && Apart(s.at, |s.buffers|) && EofLast(s) && Enabled(s, a) && a.Receive?
    ensures EofLast(Apply(s, a))
  {
    var (id, later) := (s.at.ready[0], s.at.ready[1..]);
    forall i | 0 <= i < |later| ensures Get(Change(s, a), later[i]) == Get(s.buffers, s.at.ready[i + 1]) {
      SetElsewhere(s.buffers, id, Get(s.buffers, id).(consumed := 0), later[i]);
    }
  }

  lemma SetElsewhere(buffers: seq<Buffer>, id: Id, b: Buffer, other: Id)
    requires other != id
    ensures Get(Set(buffers, id, b), other) == Get(buffers, other)
  {
  }

  /** Changing one buffer leaves the data in the others. */
  lemma {:induction false} SameData(buffers: seq<Buffer>, id: Id, b: Buffer, ids: seq<Id>)
    requires id !in ids || b.data == Get(buffers, id).data
    ensures DataOf(Set(buffers, id, b), ids) == DataOf(buffers, ids)
  {
    if ids != [] {
      if ids[0] != id { SetElsewhere(buffers, id, b, ids[0]); }
      SameData(buffers, id, b, ids[1..]);
    }
  }

  lemma {:induction false} DataAppends(buffers: seq<Buffer>, ids: seq<Id>, id: Id)
    ensures DataOf(buffers, ids + [id]) == DataOf(buffers, ids) + Get(buffers, id).data
  {
    if ids == [] {
      assert ids + [id] == [id] && [id][1..] == [];
    } else {
      assert (ids + [id])[1..] == ids[1..] + [id];
      DataAppends(buffers, ids[1..], id);
    }
  }

  lemma SameLeft(buffers: seq<Buffer>, id: Id, b: Buffer, c: Current)
    requires c != Holding(id)
    ensures Left(Set(buffers, id, b), c) == Left(buffers, c) && HasData(Set(buffers, id, b), c) == HasData(buffers, c)
  {
    if c.Holding? { SetElsewhere(buffers, id, b, c.b); }
  }

  lemma FillingKeepsPending(buffers: seq<Buffer>, p: Places, rest: Bytes, n: nat, eof: bool)
    requires p.filler.Filling? && p.filler.b < |buffers| && p.filler.b !in p.ready && p.current != Holding(p.filler.b)
    requires n <= |rest|
    ensures var id := p.filler.b;
            Pending(Set(buffers, id, Get(buffers, id).(data := rest[..n], eof := eof)), p.(filler := Filled(id)), rest[n..])
              == Pending(buffers, p, rest)
  {
    var id := p.filler.b;
    var b := Get(buffers, id).(data := rest[..n], eof := eof);
    SameData(buffers, id, b, p.ready);
    SameLeft(buffers, id, b, p.current);
    assert FilledData(Set(buffers, id, b), Filled(id)) == rest[..n];
    assert FilledData(buffers, p.filler) + rest == rest[..n] + rest[n..];
  }

  lemma StreamReadExact(s: State, a: Action, whole: Bytes)
    requires Ownership(s) && Apart(s.at, |s.buffers|) && Exact(s, whole) && Enabled(s, a) && a.StreamRead?
    ensures Exact(Apply(s, a), whole)
  {
    var id := s.at.filler.b;
    assert FillerHas(s.at.filler) == [id] && id in FillerHas(s.at.filler);
    FillingKeepsPending(s.buffers, s.at, s.rest, a.n, a.eof);
    SameLeft(s.buffers, id, Get(s.buffers, id).(data := s.rest[..a.n], eof := a.eof), s.at.current);
  }

  lemma SendingKeepsPending(buffers: seq<Buffer>, p: Places, rest: Bytes, f: Filler)
    requires p.filler.Filled? && !f.Filled?
    ensures Pending(buffers, p.(filler := f, ready := p.ready + [p.filler.b]), rest) == Pending(buffers, p, rest)
  {
    DataAppends(buffers, p.ready, p.filler.b);
    Assoc(DataOf(buffers, p.ready), Get(buffers, p.filler.b).data, rest);
    assert "" + rest == rest;
  }

  lemma SendExact(s: State, a: Action, whole: Bytes)
    requires Exact(s, whole) && Enabled(s, a) && a.Send?
    ensures Exact(Apply(s, a), whole)
  {
    SendingKeepsPending(s.buffers, s.at, s.rest, Move(s, a).filler);
  }

  /** Marking data as consumed leaves what the goroutine filled in. */
  lemma SameFilled(buffers: seq<Buffer>, id: Id, b: Buffer, f: Filler)
    requires b.data == Get(buffers, id).data
    ensures FilledData(Set(buffers, id, b), f) == FilledData(buffers, f)
  {
    if f.Filled? && f.b != id { SetElsewhere(buffers, id, b, f.b); }
  }

  lemma LeftAfterConsuming(buffers: seq<Buffer>, id: Id, n: nat)
    requires id < |buffers| && HasData(buffers, Holding(id)) && n <= |Left(buffers, Holding(id))|
    ensures HasData(Consume(buffers, id, n), Holding(id))
    ensures Left(Consume(buffers, id, n), Holding(id)) == Left(buffers, Holding(id))[n..]
  {
  }

  lemma TakeFront(left: Bytes, n: nat, z: Bytes)
    requires n <= |left|
    ensures left + z == left[..n] + (left[n..] + z)
  {
    assert left == left[..n] + left[n..];
    Assoc(left[..n], left[n..], z);
  }

  /** Consuming n bytes takes them off the front of what is pending; an empty buffer may go back then. */
  lemma ConsumingTakesFront(buffers: seq<Buffer>, id: Id, p: Places, q: Places, rest: Bytes, n: nat)
    requires p.current == Holding(id) && id < |buffers| && HasData(buffers, p.current) && n <= |Left(buffers, p.current)|
    requires q.ready == p.ready && q.filler == p.filler
    requires q.current == p.current || (q.current == Nothing && n == |Left(buffers, p.current)|)
    ensures HasData(Consume(buffers, id, n), p.current)
    ensures Pending(buffers, p, rest) == Left(buffers, p.current)[..n] + Pending(Consume(buffers, id, n), q, rest)
  {
    var b := Get(buffers, id).(consumed := Get(buffers, id).consumed + n);
    SameData(buffers, id, b, p.ready);
    SameFilled(buffers, id, b, p.filler);
    LeftAfterConsuming(buffers, id, n);
    assert Left(Consume(buffers, id, n), q.current) == Left(buffers, p.current)[n..];
    TakeFront(Left(buffers, p.current), n, DataOf(buffers, p.ready) + (FilledData(buffers, p.filler) + rest));
  }

  lemma CopyExact(s: State, a: Action, whole: Bytes)
    requires Apart(s.at, |s.buffers|) && Exact(s, whole) && Enabled(s, a) && a.Copy?
    ensures Exact(Apply(s, a), whole)
  {
    if s.at.current.Holding? {
      var q := Move(s, a);
      ConsumingTakesFront(s.buffers, s.at.current.b, s.at, q, s.rest, Taken(s));
      Assoc(s.delivered, Left(s.buffers, s.at.current)[..Taken(s)], Pending(Change(s, a), q, s.rest));
    } else {
      assert s.delivered + "" == s.delivered;
    }
  }

  lemma ReceivingKeepsPending(buffers: seq<Buffer>, p: Places, rest: Bytes)
    requires p.current.Nothing? && p.ready != [] && p.ready[0] < |buffers|
    ensures var id := p.ready[0];
            var buffers' := Set(buffers, id, Get(buffers, id).(consumed := 0));
            && HasData(buffers', Holding(id))
            && Pending(buffers', p.(ready := p.ready[1..], current := Holding(id)), rest) == Pending(buffers, p, rest)
  {
    var (id, later) := (p.ready[0], p.ready[1..]);
    var b := Get(buffers, id).(consumed := 0);
    SameData(buffers, id, b, later);
    SameFilled(buffers, id, b, p.filler);
    assert Left(Set(buffers, id, b), Holding(id)) == b.data && Left(buffers, p.current) == "";
    var z := FilledData(buffers, p.filler) + rest;
    Assoc(b.data, DataOf(buffers, later), z);
    assert "" + (b.data + (DataOf(buffers, later) + z)) == b.data + (DataOf(buffers, later) + z);
  }

  lemma ReceiveExact(s: State, a: Action, whole: Bytes)
    requires Ownership(s) && Apart(s.at, |s.buffers|) && Exact(s, whole) && Enabled(s, a) && a.Receive?
    ensures Exact(Apply(s, a), whole)
  {
    ReceivingKeepsPending(s.buffers, s.at, s.rest);
  }

  lemma InvStep(s: State, a: Action, whole: Bytes)
    requires Inv(s, whole) && Enabled(s, a)
    ensures Inv(Apply(s, a), whole)
  {
    OwnershipKeepsApart(s);
    StepOwnership(s, a);
    if !a.Copy? && !a.Receive? && !a.CheckEOF? { FillerEofLast(s, a); }
    match a
    case StreamRead(_, _) => StreamReadExact(s, a, whole);
    case Send => SendExact(s, a, whole);
    case Copy => CopyExact(s, a, whole); CopyEofLast(s, a);
    case Receive => ReceiveExact(s, a, whole); ReceiveEofLast(s, a);
    case _ =>
  }

  // ----- Whole runs -----

  /** A reader whose constructor has started: nothing sent yet, and the stream untouched. */
  ghost predicate Init(s: State, whole: Bytes) {
    && s.capacity > 0 && s.size > 0 && s.rest == whole
    && |s.buffers| == |s.at.toPush| == s.capacity && Distinct(s.at.toPush, s.capacity)
    && s.at == Places(s.at.toPush, [], Waiting, [], Nothing)
    && !s.gotEOF && s.caller.Idle? && s.delivered == "" && !s.sawEOF
  }

  ghost predicate Run(s: State, actions: seq<Action>, t: State)
    decreases |actions|
  {
    if actions == [] then s == t
    else Enabled(s, actions[0]) && Run(Apply(s, actions[0]), actions[1..], t)
  }

  lemma InitInv(s: State, whole: Bytes)
    requires Init(s, whole)
    ensures Inv(s, whole)
  {
    assert Ring(s.at) == s.at.toPush;
    assert "" + ("" + ("" + ("" + whole))) == whole;
  }

  lemma {:induction false} RunInv(s: State, actions: seq<Action>, t: State, whole: Bytes)
    requires Inv(s, whole) && Run(s, actions, t)
    ensures Inv(t, whole) && t.capacity == s.capacity && t.size == s.size
    decreases |actions|
  {
    if actions != [] {
      InvStep(s, actions[0], whole);
      RunInv(Apply(s, actions[0]), actions[1..], t, whole);
    }
  }

  /**
    In every interleaving the caller has got a prefix of the stream, all of it when it is told EOF;
    and empty, ready, current and being-filled buffers, with those not yet sent, number nBuffers.
   */
  lemma DeliversTheStream(s: State, actions: seq<Action>, t: State, whole: Bytes)
    requires Init(s, whole) && Run(s, actions, t)
    ensures t.delivered <= whole
    ensures t.sawEOF ==> t.delivered == whole
    ensures |t.at.empty| + |t.at.ready| + |CallerHas(t.at.current)| + |FillerHas(t.at.filler)| + |t.at.toPush| == s.capacity
    ensures Distinct(Ring(t.at), s.capacity)
  {
    InitInv(s, whole);
    RunInv(s, actions, t, whole);
    if t.sawEOF {
      assert t.delivered + ("" + ("" + ("" + ""))) == t.delivered;
    }
  }

  /** A Read call returns once, with at least one byte and no more than it has room for, or with EOF. */
  lemma EachReadFits(s: State, a: Action)
    requires Enabled(s, a) && (!s.caller.Idle? ==> s.caller.n > 0)
    ensures var t := Apply(s, a);
            && (t.delivered != s.delivered ==> a.Copy? && t.caller.Idle? && |t.delivered| <= |s.delivered| + s.caller.n)
            && (!s.caller.Idle? && t.caller.Idle? ==> |t.delivered| > |s.delivered| || (t.sawEOF && t.delivered == s.delivered))
            && (t.sawEOF && !s.sawEOF ==> !s.caller.Idle? && t.caller.Idle?)
  {
    if a.Copy? && Taken(s) == 0 {
      assert s.delivered + Left(s.buffers, s.at.current)[..0] == s.delivered;
    }
  }

  /** Sends to either channel never find it full. */
  lemma SendsNeverBlock(s: State, actions: seq<Action>, t: State, whole: Bytes)
    requires Init(s, whole) && Run(s, actions, t)
    ensures t.at.filler.Filled? ==> Enabled(t, Send)
    ensures t.caller.AtTop? ==> Enabled(t, Copy)
    ensures t.at.toPush != [] ==> Enabled(t, Push)
  {
    DeliversTheStream(s, actions, t, whole);
    InitInv(s, whole);
    RunInv(s, actions, t, whole);
  }

  /** An action that makes the stream progress: a read of no bytes is allowed only at the end. */
  predicate Progresses(a: Action) { !a.Call? && (a.StreamRead? ==> a.n > 0 || a.eof) }

  /**
    A Read call in progress is never stuck: some process can move. In particular the caller never
    receives from a ready channel that the goroutine has closed.
   */
  lemma NeverDeadlocks(s: State, actions: seq<Action>, t: State, whole: Bytes)
    requires Init(s, whole) && Run(s, actions, t)
    requires !t.caller.Idle?
    ensures exists a :: Progresses(a) && Enabled(t, a)
    ensures t.caller.Receiving? && t.at.filler.Finished? ==> t.at.ready != []
  {
    InitInv(s, whole);
    RunInv(s, actions, t, whole);
    SendsNeverBlock(s, actions, t, whole);
    match t.caller
    case AtTop(_) => assert Enabled(t, Copy) && Progresses(Copy);
    case AfterCurrent(_) => assert Enabled(t, CheckEOF) && Progresses(CheckEOF);
    case Receiving(_) =>
      if t.at.ready != [] {
        assert Enabled(t, Receive) && Progresses(Receive);
      } else {
        match t.at.filler
        case Waiting => assert Enabled(t, Take) && Progresses(Take);
        case Filling(_) =>
          var n := Min(t.size, |t.rest|);
          assert Enabled(t, StreamRead(n, n == |t.rest|)) && Progresses(StreamRead(n, n == |t.rest|));
        case Filled(_) => assert Enabled(t, Send) && Progresses(Send);
        case Finished =>
      }
  }

  function FillerRank(f: Filler): nat { if f.Filling? then 1 else if f.Filled? then 9 else 0 }

  function CallerRank(c: Caller): nat { if c.AtTop? then 2 else if c.AfterCurrent? then 1 else 0 }

  /** How much can still happen before the next Read call. */
  function Rank(s: State): nat {
    10 * |s.rest| + (if StreamOpen(s) then 10 else 0)
    + 3 * |s.at.toPush| + 2 * |s.at.empty| + FillerRank(s.at.filler) + 8 * |s.at.ready| + 4 * |CallerHas(s.at.current)|
    + CallerRank(s.caller)
  }

  predicate StreamOpen(s: State) {
    !s.at.filler.Finished? && !(s.at.filler.Filled? && Get(s.buffers, s.at.filler.b).eof)
  }

  lemma FillerLowersRank(s: State, a: Action)
    requires Apart(s.at, |s.buffers|) && Enabled(s, a) && Progresses(a) && (a.Push? || a.Take? || a.StreamRead? || a.Send?)
    ensures Rank(Apply(s, a)) < Rank(s)
  {
  }

  lemma CallerLowersRank(s: State, a: Action)
    requires Ownership(s) && Apart(s.at, |s.buffers|) && Enabled(s, a) && (a.Copy? || a.CheckEOF? || a.Receive?)
    ensures Rank(Apply(s, a)) < Rank(s)
  {
    assert StreamOpen(Apply(s, a)) == StreamOpen(s);
  }

  lemma StepLowersRank(s: State, a: Action, whole: Bytes)
    requires Inv(s, whole) && Enabled(s, a) && Progresses(a)
    ensures Rank(Apply(s, a)) < Rank(s)
  {
    OwnershipKeepsApart(s);
    if a.Copy? || a.CheckEOF? || a.Receive? { CallerLowersRank(s, a); } else { FillerLowersRank(s, a); }
  }

  /** Without a new call only so many actions can happen; as none is stuck, every Read call returns. */
  lemma {:induction false} EveryCallReturns(s: State, actions: seq<Action>, t: State, whole: Bytes)
    requires Inv(s, whole) && Run(s, actions, t)
    requires forall i :: 0 <= i < |actions| ==> Progresses(actions[i])
    ensures |actions| + Rank(t) <= Rank(s)
    decreases |actions|
  {
    if actions != [] {
      var s' := Apply(s, actions[0]);
      InvStep(s, actions[0], whole);
      StepLowersRank(s, actions[0], whole);
      EveryCallReturns(s', actions[1..], t, whole);
    }
  }
}
