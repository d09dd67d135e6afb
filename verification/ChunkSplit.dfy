/**
  Splitting the body of a 200 response into one stream per requested chunk. A stream that is closed
  early is read to its end first, so that the next one starts at the right place.
 */
module ChunkSplit {
  import opened Common

  const TWO_63 := 0x8000_0000_0000_0000
  const TWO_64 := 0x1_0000_0000_0000_0000
  const MAX_UINT64 := TWO_64 - 1

  newtype uint64 = x: int | 0 <= x < TWO_64

  /** The conversion of a uint64 to an int64. */
  function AsInt64(x: uint64): (r: int)
    ensures -TWO_63 <= r < TWO_63 && (r - x as int) % TWO_64 == 0
  {
    if x as int < TWO_63 then x as int else x as int - TWO_64
  }

  /** Addition of uint64 values wraps around. */
  function WrappingAdd(x: uint64, y: uint64): (r: uint64)
    ensures r as int == (x as int + y as int) % TWO_64
  {
    if x as int + y as int < TWO_64 then x + y else (x as int + y as int - TWO_64) as uint64
  }

  /** The first n bytes, or none if n is negative, as io.LimitReader gives them. */
  function Limited(s: Bytes, n: int): Bytes {
    if n <= 0 then "" else if n >= |s| then s else s[..n]
  }

  /** A chunk of a blob; a length of MAX_UINT64 means all the rest. */
  datatype Chunk = Chunk(offset: uint64, length: uint64)

  predicate UntilEOF(c: Chunk) { c.length as int == MAX_UINT64 }

  /** Where a reader is that was to go to an offset. */
  function Clamp(blob: Bytes, n: int): nat
    requires n >= 0
  {
    if n < |blob| then n else |blob|
  }

  /** The bytes [offset, offset + length) of the blob, as far as it has them. */
  function Clip(blob: Bytes, c: Chunk): Bytes {
    var rest := blob[Clamp(blob, c.offset as int)..];
    if UntilEOF(c) then rest else Limited(rest, c.length as int)
  }

  class Body {
    const data: Bytes
    var pos: nat

    ghost predicate Valid() reads this { pos <= |data| }

    constructor (data: Bytes)
      ensures Valid() && this.data == data && pos == 0
    {
      this.data, pos := data, 0;
    }
  }

  /** A stream over the next part of a body; without a limit it goes to the end. */
  class PartStream {
    const body: Body
    var limit: Option<int>

    /** What the stream has yet to deliver. */
    ghost function Rest(): Bytes
      requires body.Valid()
      reads this, body
    {
      if limit.None? then body.data[body.pos..] else Limited(body.data[body.pos..], limit.value)
    }

    constructor (body: Body, limit: Option<int>)
      ensures this.body == body && this.limit == limit
    {
      this.body, this.limit := body, limit;
    }

    /** Reads up to n bytes. */
    method Read(n: nat) returns (data: Bytes)
      requires body.Valid()
      modifies this, body
      ensures body.Valid() && body.pos == old(body.pos) + |data|
      ensures data + Rest() == old(Rest()) && (|data| == n || Rest() == "")
      ensures |data| <= n
    {
      var rest := body.data[body.pos..];
      var k := if n <= |rest| then n else |rest|;
      if limit.Some? && limit.value < k { k := if limit.value < 0 then 0 else limit.value; }
      data := rest[..k];
      body.pos := body.pos + k;
      if limit.Some? { limit := Some(limit.value - k); }
    }

    /** Reads the rest of the stream. */
    method Close()
      requires body.Valid()
      modifies this, body
      ensures body.Valid() && Rest() == "" && body.pos == old(body.pos) + |old(Rest())|
    {
      var data := Read(1);
      while data != ""
        invariant body.Valid()
        invariant body.pos + |Rest()| == old(body.pos) + |old(Rest())|
        invariant data == "" ==> Rest() == ""
        decreases |Rest()| + |data|
      {
        data := Read(1);
      }
    }
  }

  /** Chunks with sizes below 2^63, except that the last one may go to the end of the blob. */
  predicate SizesFit(chunks: seq<Chunk>) {
    forall i :: 0 <= i < |chunks| ==> Fits(chunks[i]) && (UntilEOF(chunks[i]) ==> i == |chunks| - 1)
  }

  /** Where the chunk before the i-th ends. */
  function End(chunks: seq<Chunk>, i: nat): int
    requires i <= |chunks|
  {
    if i == 0 then 0 else chunks[i - 1].offset as int + chunks[i - 1].length as int
  }

  // ----- What the streams deliver -----

  /** What a stream with this limit delivers from a position of the blob on. */
  function Part(blob: Bytes, pos: nat, limit: Option<int>): (r: Bytes)
    requires pos <= |blob|
    ensures pos + |r| <= |blob|
  {
    if limit.None? then blob[pos..] else Limited(blob[pos..], limit.value)
  }

  function LimitOf(c: Chunk): Option<int> {
    if UntilEOF(c) then None else Some(AsInt64(c.length))
  }

  /** Where the body is, and where the splitter believes it is. */
  datatype At = At(pos: nat, current: uint64)

  /** Where the stream of a chunk starts. */
  function Start(blob: Bytes, at: At, c: Chunk): (r: nat)
    requires at.pos <= |blob| && at.current <= c.offset
    ensures r <= |blob|
  {
    at.pos + |Part(blob, at.pos, Some(AsInt64(c.offset - at.current)))|
  }

  function Offered(blob: Bytes, at: At, c: Chunk): Bytes
    requires at.pos <= |blob| && at.current <= c.offset
  {
    Part(blob, Start(blob, at, c), LimitOf(c))
  }

  function After(blob: Bytes, at: At, c: Chunk): (r: At)
    requires at.pos <= |blob| && at.current <= c.offset
    ensures r.pos <= |blob|
  {
    At(Start(blob, at, c) + |Offered(blob, at, c)|, WrappingAdd(c.offset, c.length))
  }

  datatype Streams = Streams(offered: seq<Bytes>, failed: bool)

  function Prepend(x: Bytes, s: Streams): Streams { Streams([x] + s.offered, s.failed) }

  /** The streams from the i-th chunk on, for chunks of any sizes. */
  function StreamsFrom(blob: Bytes, at: At, chunks: seq<Chunk>, i: nat): Streams
    requires at.pos <= |blob| && i <= |chunks|
    decreases |chunks| - i
  {
    if i == |chunks| then Streams([], false)
    else if chunks[i].offset < at.current then Streams([], true)
    else Prepend(Offered(blob, at, chunks[i]), StreamsFrom(blob, After(blob, at, chunks[i]), chunks, i + 1))
  }

  /** Reads and discards the bytes before a chunk. */
  method Skip(body: Body, toSkip: uint64)
    requires body.Valid()
    modifies body
    ensures body.Valid() && body.pos == old(body.pos) + |Part(body.data, old(body.pos), Some(AsInt64(toSkip)))|
  {
    var skipped := new PartStream(body, Some(AsInt64(toSkip)));
    skipped.Close();
  }

  /** Offers the stream of one chunk to a consumer that reads n bytes and closes it. */
  method Offer(body: Body, c: Chunk, n: nat) returns (offered: Bytes, got: Bytes)
    requires body.Valid()
    modifies body
    ensures body.Valid() && offered == Part(body.data, old(body.pos), LimitOf(c)) && got == Limited(offered, n)
    ensures body.pos == old(body.pos) + |offered|
  {
    var s := new PartStream(body, if c.length as int == MAX_UINT64 then None else Some(AsInt64(c.length)));
    offered := Part(body.data, body.pos, s.limit);
    got := s.Read(n);
    assert got == Limited(offered, n) by {
      assert got == offered[..|got|] && (|got| == n || |got| == |offered|);
    }
    s.Close();
  }

  /** Goes to a chunk that starts at the current offset or later, and offers it. */
  method Advance(body: Body, current: uint64, c: Chunk, n: nat) returns (offered: Bytes, got: Bytes, next: uint64)
    requires body.Valid() && current <= c.offset
    modifies body
    ensures body.Valid() && got == Limited(offered, n)
    ensures offered == Offered(body.data, At(old(body.pos), current), c)
    ensures At(body.pos, next) == After(body.data, At(old(body.pos), current), c)
  {
    if c.offset != current { Skip(body, c.offset - current); }
    offered, got := Offer(body, c, n);
    next := WrappingAdd(c.offset, c.length);
  }

  /** Each consumer got the first bytes of what its stream offered, as many as it wanted. */
  predicate Served(taken: seq<nat>, offered: seq<Bytes>, got: seq<Bytes>) {
    |offered| == |got| <= |taken| && forall i :: 0 <= i < |offered| ==> got[i] == Limited(offered[i], taken[i])
  }

  lemma OneMoreServed(taken: seq<nat>, offered: seq<Bytes>, got: seq<Bytes>, o: Bytes)
    requires Served(taken, offered, got) && |offered| < |taken|
    ensures Served(taken, offered + [o], got + [Limited(o, taken[|offered|])])
  {
  }

  /** The streams offered so far, followed by others, are all the streams. */
  ghost predicate SoFar(offered: seq<Bytes>, rest: Streams, whole: Streams) {
    whole == Streams(offered + rest.offered, rest.failed)
  }

  lemma OneMoreSoFar(offered: seq<Bytes>, o: Bytes, rest: Streams, whole: Streams)
    requires SoFar(offered, Prepend(o, rest), whole)
    ensures SoFar(offered + [o], rest, whole)
  {
    assert offered + ([o] + rest.offered) == offered + [o] + rest.offered;
  }

  /**
    Offers one stream per chunk; the consumer of stream i reads `taken[i]` bytes of it and closes it.
    `offered` is what each stream has to deliver when it is offered, `got` what its consumer took.
   */
  method Split(body: Body, chunks: seq<Chunk>, taken: seq<nat>) returns (offered: seq<Bytes>, got: seq<Bytes>, failed: bool)
    requires body.Valid() && body.pos == 0 && |taken| == |chunks|
    modifies body
    ensures Streams(offered, failed) == StreamsFrom(body.data, At(0, 0), chunks, 0) && Served(taken, offered, got)
  {
    offered, got := [], [];
    var current: uint64 := 0;
    ghost var whole := StreamsFrom(body.data, At(0, 0), chunks, 0);
    for i := 0 to |chunks|
      invariant |offered| == i && body.Valid() && Served(taken, offered, got)
      invariant SoFar(offered, StreamsFrom(body.data, At(body.pos, current), chunks, i), whole)
    {
      if chunks[i].offset < current {
        return offered, got, true;
      }
      ghost var at := At(body.pos, current);
      var o, g;
      o, g, current := Advance(body, current, chunks[i], taken[i]);
      OneMoreSoFar(offered, o, StreamsFrom(body.data, At(body.pos, current), chunks, i + 1), whole) by {
        assert StreamsFrom(body.data, at, chunks, i) == Prepend(o, StreamsFrom(body.data, At(body.pos, current), chunks, i + 1));
      }
      OneMoreServed(taken, offered, got, o);
      offered, got := offered + [o], got + [g];
    }
    return offered, got, false;
  }

  // ----- When the streams are the chunks -----

  predicate Fits(c: Chunk) { c.offset as int < TWO_63 && (c.length as int < TWO_63 || UntilEOF(c)) }

  /** A chunk that fits is offered as it should be, and the body is behind it afterwards. */
  lemma FittingChunk(blob: Bytes, at: At, c: Chunk)
    requires Fits(c) && at.pos == Clamp(blob, at.current as int) && at.current <= c.offset
    ensures Offered(blob, at, c) == Clip(blob, c)
    ensures !UntilEOF(c) ==>
              var next := c.offset as int + c.length as int;
              After(blob, at, c).current as int == next && After(blob, at, c).pos == Clamp(blob, next)
  {
    assert Start(blob, at, c) == Clamp(blob, c.offset as int);
  }

  predicate InPlace(chunks: seq<Chunk>, i: nat)
    requires i < |chunks|
  {
    End(chunks, i) <= chunks[i].offset as int
  }

  /** The first chunk from the i-th on that starts too early. */
  function FirstTooEarly(chunks: seq<Chunk>, i: nat): (m: nat)
    requires i <= |chunks|
    ensures i <= m <= |chunks| && (forall k :: i <= k < m ==> InPlace(chunks, k))
    ensures m < |chunks| ==> !InPlace(chunks, m)
    decreases |chunks| - i
  {
    if i < |chunks| && InPlace(chunks, i) then FirstTooEarly(chunks, i + 1) else i
  }

  function Clips(blob: Bytes, chunks: seq<Chunk>): seq<Bytes> {
    seq(|chunks|, k requires 0 <= k < |chunks| => Clip(blob, chunks[k]))
  }

  /** The streams that should be offered: the chunks' bytes, up to the first chunk that starts too early. */
  function Wanted(blob: Bytes, chunks: seq<Chunk>, i: nat): Streams
    requires i <= |chunks|
  {
    var m := FirstTooEarly(chunks, i);
    Streams(Clips(blob, chunks)[i..m], m < |chunks|)
  }

  lemma WantedStep(blob: Bytes, chunks: seq<Chunk>, i: nat)
    requires i < |chunks| && InPlace(chunks, i)
    ensures Wanted(blob, chunks, i) == Prepend(Clip(blob, chunks[i]), Wanted(blob, chunks, i + 1))
  {
    SliceStep(Clips(blob, chunks), i, FirstTooEarly(chunks, i));
  }

  lemma SliceStep(s: seq<Bytes>, i: nat, m: nat)
    requires i < m <= |s|
    ensures s[i..m] == [s[i]] + s[i + 1..m]
  {
  }

  lemma PrependIsInjective(x: Bytes, r: Streams, y: Bytes, s: Streams)
    ensures Prepend(x, r) == Prepend(y, s) <==> x == y && r == s
  {
    assert Prepend(x, r).offered[1..] == r.offered && Prepend(y, s).offered[1..] == s.offered;
    assert Prepend(x, r).offered[0] == x && Prepend(y, s).offered[0] == y;
  }

  lemma {:induction false} StreamsAreWanted(blob: Bytes, at: At, chunks: seq<Chunk>, i: nat)
    requires SizesFit(chunks) && i <= |chunks| && at.pos <= |blob|
    requires i < |chunks| ==> at.current as int == End(chunks, i) && at.pos == Clamp(blob, at.current as int)
    ensures StreamsFrom(blob, at, chunks, i) == Wanted(blob, chunks, i)
    decreases |chunks| - i
  {
    if i < |chunks| && at.current <= chunks[i].offset {
      FittingChunk(blob, at, chunks[i]);
      WantedStep(blob, chunks, i);
      StreamsAreWanted(blob, After(blob, at, chunks[i]), chunks, i + 1);
    }
  }

  /**
    For chunks with sizes below 2^63, and all the rest only in last place: the k-th stream offers
    exactly the bytes of the k-th chunk, clipped to the body, and splitting fails exactly at the
    first chunk that starts too early.
   */
  lemma SplitIsExact(blob: Bytes, chunks: seq<Chunk>)
    requires SizesFit(chunks)
    ensures StreamsFrom(blob, At(0, 0), chunks, 0) == Wanted(blob, chunks, 0)
  {
    StreamsAreWanted(blob, At(0, 0), chunks, 0);
  }

  // ----- Exactly when the streams are the chunks -----

  /** How far the body lags behind: a skip of 2^63 or more becomes a negative limit, and is not done. */
  function Lost(chunks: seq<Chunk>, i: nat): nat
    requires i <= |chunks|
  {
    if i == 0 then 0 else
      var skip := chunks[i - 1].offset as int - End(chunks, i - 1);
      Lost(chunks, i - 1) + if skip >= TWO_63 then skip else 0
  }

  predicate LengthFits(c: Chunk) { c.length as int < TWO_63 || UntilEOF(c) }

  /** The limit of the stream lets nothing through. */
  predicate EmptyLimit(c: Chunk) { c.length as int == 0 || !LengthFits(c) }

  /**
    The guard for one chunk of a body of n bytes. A chunk in its place is served right if its stream
    starts at the end of the body, or at its offset with a length that fits, or, lagging behind, with
    a limit that lets nothing through. A chunk out of place is refused, unless the counter wrapped.
   */
  predicate Guard(n: nat, chunks: seq<Chunk>, i: nat)
    requires i < |chunks|
  {
    var (c, lost, end) := (chunks[i], Lost(chunks, i + 1), End(chunks, i));
    if InPlace(chunks, i) then n <= c.offset as int - lost || (if lost == 0 then LengthFits(c) else EmptyLimit(c))
    else end < TWO_64 || c.offset as int < end - TWO_64
  }

  /** The guards of the chunks up to the first one that is out of place. */
  predicate Guarded(n: nat, chunks: seq<Chunk>, i: nat)
    requires i <= |chunks|
    decreases |chunks| - i
  {
    i == |chunks| || (Guard(n, chunks, i) && (InPlace(chunks, i) ==> Guarded(n, chunks, i + 1)))
  }

  /** Where the body and the counter are before the i-th chunk if all was right so far. */
  ghost predicate Arrived(blob: Bytes, at: At, chunks: seq<Chunk>, i: nat)
    requires i <= |chunks|
  {
    && at.pos <= |blob|
    && (i < |chunks| ==> at.current as int == if End(chunks, i) < TWO_64 then End(chunks, i) else End(chunks, i) - TWO_64)
    && (i < |chunks| && InPlace(chunks, i) ==> ArrivedAt(blob, at.pos, End(chunks, i), Lost(chunks, i)))
  }

  /** The body lags behind the end of the previous chunk by what was lost; only far behind the body's end. */
  predicate ArrivedAt(blob: Bytes, pos: nat, end: int, lost: nat) {
    lost <= end && pos == Clamp(blob, end - lost) && (lost > 0 ==> end >= TWO_63)
  }

  lemma StartsAt(blob: Bytes, at: At, chunks: seq<Chunk>, i: nat)
    requires |blob| < TWO_63 && i < |chunks| && InPlace(chunks, i) && Arrived(blob, at, chunks, i)
    ensures var (c, lost) := (chunks[i], Lost(chunks, i + 1));
            && at.current <= c.offset && lost <= c.offset as int && (lost > 0 ==> c.offset as int >= TWO_63)
            && Start(blob, at, c) == Clamp(blob, c.offset as int - lost)
  {
  }

  /** From its start the stream offers the right bytes exactly if the guard holds. */
  lemma OfferedIff(blob: Bytes, c: Chunk, lost: nat)
    requires |blob| < TWO_63 && lost <= c.offset as int && (lost > 0 ==> c.offset as int >= TWO_63)
    ensures Part(blob, Clamp(blob, c.offset as int - lost), LimitOf(c)) == Clip(blob, c) <==>
              |blob| <= c.offset as int - lost || (if lost == 0 then LengthFits(c) else EmptyLimit(c))
  {
    var start := Clamp(blob, c.offset as int - lost);
    assert |blob[start..]| == |blob| - start;
    if lost > 0 || !LengthFits(c) {
      assert |Part(blob, start, LimitOf(c))| == 0 <==> start == |blob| || EmptyLimit(c);
    }
  }

  lemma EndsAt(blob: Bytes, c: Chunk, lost: nat)
    requires |blob| < TWO_63 && lost <= c.offset as int && (lost > 0 ==> c.offset as int >= TWO_63)
    requires |blob| <= c.offset as int - lost || (if lost == 0 then LengthFits(c) else EmptyLimit(c))
    requires c.offset as int + c.length as int < TWO_64
    ensures var start := Clamp(blob, c.offset as int - lost);
            ArrivedAt(blob, start + |Part(blob, start, LimitOf(c))|, c.offset as int + c.length as int, lost)
  {
  }

  /** A chunk in its place is served right exactly if its guard holds. */
  lemma ChunkIsServedIff(blob: Bytes, at: At, chunks: seq<Chunk>, i: nat)
    requires |blob| < TWO_63 && i < |chunks| && InPlace(chunks, i) && Arrived(blob, at, chunks, i)
    ensures at.current <= chunks[i].offset
    ensures Offered(blob, at, chunks[i]) == Clip(blob, chunks[i]) <==> Guard(|blob|, chunks, i)
  {
    StartsAt(blob, at, chunks, i);
    OfferedIff(blob, chunks[i], Lost(chunks, i + 1));
  }

  /** Then the body and the counter arrive at the next one. */
  lemma ArrivesAtNext(blob: Bytes, at: At, chunks: seq<Chunk>, i: nat)
    requires |blob| < TWO_63 && i < |chunks| && InPlace(chunks, i) && Arrived(blob, at, chunks, i) && Guard(|blob|, chunks, i)
    requires at.current <= chunks[i].offset
    ensures Arrived(blob, After(blob, at, chunks[i]), chunks, i + 1)
  {
    var (c, lost) := (chunks[i], Lost(chunks, i + 1));
    StartsAt(blob, at, chunks, i);
    if c.offset as int + c.length as int < TWO_64 {
      EndsAt(blob, c, lost);
    }
  }

  /** A chunk out of its place is refused exactly if its guard holds. */
  lemma RefusedIff(blob: Bytes, at: At, chunks: seq<Chunk>, i: nat)
    requires i < |chunks| && !InPlace(chunks, i) && Arrived(blob, at, chunks, i)
    ensures chunks[i].offset < at.current <==> Guard(|blob|, chunks, i)
  {
  }

  lemma {:induction false} WantedIffGuarded(blob: Bytes, at: At, chunks: seq<Chunk>, i: nat)
    requires |blob| < TWO_63 && i <= |chunks| && Arrived(blob, at, chunks, i)
    ensures StreamsFrom(blob, at, chunks, i) == Wanted(blob, chunks, i) <==> Guarded(|blob|, chunks, i)
    decreases |chunks| - i
  {
    if i < |chunks| && !InPlace(chunks, i) {
      RefusedIff(blob, at, chunks, i);
    } else if i < |chunks| {
      ChunkIsServedIff(blob, at, chunks, i);
      WantedStep(blob, chunks, i);
      var after, o := After(blob, at, chunks[i]), Offered(blob, at, chunks[i]);
      PrependIsInjective(o, StreamsFrom(blob, after, chunks, i + 1), Clip(blob, chunks[i]), Wanted(blob, chunks, i + 1));
      if Guard(|blob|, chunks, i) {
        ArrivesAtNext(blob, at, chunks, i);
        WantedIffGuarded(blob, after, chunks, i + 1);
      }
    }
  }

  /**
    For chunks of any sizes, in any order: every stream offers exactly the bytes of its chunk, and
    the first chunk that starts too early is refused, if and only if the guards of the chunks hold.
   */
  lemma SplitIsExactIff(blob: Bytes, chunks: seq<Chunk>)
    requires |blob| < TWO_63
    ensures StreamsFrom(blob, At(0, 0), chunks, 0) == Wanted(blob, chunks, 0) <==> Guarded(|blob|, chunks, 0)
  {
    WantedIffGuarded(blob, At(0, 0), chunks, 0);
  }

  // ----- Inputs for which they are not -----

  /** A chunk with a length of 2^63 or more is offered as empty. */
  lemma LongChunkIsEmpty()
    ensures var c := Chunk(0, 0x8000_0000_0000_0000);
            StreamsFrom("x", At(0, 0), [c], 0) == Streams([""], false) && Clip("x", c) == "x"
  {
    var c := Chunk(0, 0x8000_0000_0000_0000);
    assert StreamsFrom("x", After("x", At(0, 0), c), [c], 1) == Streams([], false);
  }

  /** A distance of 2^63 or more is not skipped, and a chunk far behind the end gets the first bytes. */
  lemma LongSkipIsNotDone()
    ensures var c := Chunk(0x8000_0000_0000_0000, 1);
            StreamsFrom("x", At(0, 0), [c], 0) == Streams(["x"], false) && Clip("x", c) == ""
  {
    var c := Chunk(0x8000_0000_0000_0000, 1);
    assert StreamsFrom("x", After("x", At(0, 0), c), [c], 1) == Streams([], false);
  }

  /** After a chunk that goes to the end the counter wraps around, and an earlier chunk is not refused. */
  lemma EarlierChunkIsNotRefused()
    ensures var chunks := [Chunk(1, 0xffff_ffff_ffff_ffff), Chunk(0, 1)];
            && StreamsFrom("ab", At(0, 0), chunks, 0) == Streams(["b", ""], false)
            && !InPlace(chunks, 1) && Clip("ab", chunks[1]) == "a"
  {
    var chunks := [Chunk(1, 0xffff_ffff_ffff_ffff), Chunk(0, 1)];
    assert "ab"[1..] == "b";
    assert StreamsFrom("ab", At(2, 1), chunks, 2) == Streams([], false);
    assert StreamsFrom("ab", At(2, 0), chunks, 1) == Streams([""], false);
  }
}
