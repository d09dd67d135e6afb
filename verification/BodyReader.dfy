/**
  The blob body reader that resumes aborted connections with a Range request. The network is a
  parameter of each call: what the open body returned, the clock, and the response to a reconnect.
 */
module BodyReader {
  import opened Common
  import ContentRange

  type Range = ContentRange.Range

  const MINIMUM_PROGRESS := 1024 * 1024
  const NS_SINCE_LAST_RETRY := 60_000 * 1_000_000    // 60 seconds, in nanoseconds

  /** How a read of the open body ended. */
  datatype BodyError = NoError | EOF | Aborted | OtherError

  /** The response to a reconnect; a partial one has a body, and a Content-Range that may be missing or invalid. */
  datatype Response = RequestFailed | Complete | OtherStatus | Partial(range: Option<Range>, content: Bytes)

  datatype Outcome = Success | AtEOF | Closed | NotReconnecting | ReconnectFailed | Failed

  function RangeOf(r: Response): Option<Range> { if r.Partial? then r.range else None }

  /** A partial response as it arrives, with the values of its Content-Range header. */
  method PartialResponse(headers: seq<string>, content: Bytes) returns (r: Response)
    ensures r.Partial? && r.content == content
    ensures r.range.Some? ==> |headers| == 1 && ContentRange.Denotes(headers[0], r.range.value)
    ensures r.range.None? && |headers| == 1 ==> forall range :: !ContentRange.Denotes(headers[0], range)
  {
    var range := ContentRange.ParseContentRange(headers);
    if |headers| == 1 {
      forall x ensures range == Some(x) <==> ContentRange.Denotes(headers[0], x) {
        ContentRange.ParseIffDenotes(headers[0], x);
      }
    }
    return Partial(range, content);
  }

  /** A partial response carries the bytes of the blob that its Content-Range names, and its true length. */
  predicate Honest(blob: Bytes, r: Response) {
    var range := RangeOf(r);
    range.Some? ==>
      && range.value.first <= range.value.last + 1 <= |blob|
      && r.content == blob[range.value.first..range.value.last + 1]
      && (range.value.completeLength.Some? ==> range.value.completeLength.value == |blob|)
  }

  /** Whether a response continues a download at `offset`, and at most an unknown complete length is left open. */
  predicate Continues(r: Response, offset: nat) {
    var range := RangeOf(r);
    && range.Some? && range.value.first == offset
    && (range.value.completeLength.Some? ==> range.value.last + 1 == range.value.completeLength.value)
  }

  /** The range of a response that continues a download at `offset`. */
  method AcceptedRange(response: Response, offset: nat) returns (range: Option<Range>)
    ensures range == if Continues(response, offset) then RangeOf(response) else None
  {
    if !response.Partial? || response.range.None? { return None; }
    var r := response.range.value;
    if r.first != offset || (r.completeLength.Some? && r.last + 1 != r.completeLength.value) { return None; }
    return Some(r);
  }

  class BodyReader {
    var body: Option<Bytes>               // what the open connection has yet to deliver; None if there is none
    var lastRetryOffset: int              // -1 if N/A
    var lastRetryTime: Option<int>        // in nanoseconds
    var offset: nat

    ghost const blob: Bytes
    ghost var delivered: Bytes            // everything that Read has returned
    ghost var end: nat                    // where the range of the open connection ends
    ghost var stated: bool                // whether its response stated the complete length
    ghost var afterProgress: nat          // how many reconnects, after the first, had enough progress
    ghost var afterTime: nat              // how many had only waited long enough
    ghost var firstRetryTime: int

    /** The bytes handed out are the first `offset` bytes of the blob. */
    ghost predicate Exact() reads this {
      && offset <= end <= |blob| && (stated ==> end == |blob|)
      && delivered == blob[..offset]
      && (body.Some? ==> body.value == blob[offset..end])
    }

    ghost function Reconnects(): nat reads this {
      if lastRetryTime.None? then 0 else 1 + afterProgress + afterTime
    }

    /** Each reconnect but the first is paid for by progress or by time. */
    ghost predicate Paid() reads this {
      && (lastRetryTime.None? ==> lastRetryOffset == -1 && afterProgress == afterTime == 0)
      && (lastRetryTime.Some? ==>
            && MINIMUM_PROGRESS * afterProgress <= lastRetryOffset <= offset
            && NS_SINCE_LAST_RETRY * afterTime <= lastRetryTime.value - firstRetryTime)
    }

    ghost predicate Valid() reads this { Exact() && Paid() }

    constructor (ghost blob: Bytes, firstBody: Bytes)
      requires firstBody == blob
      ensures Valid() && body == Some(firstBody) && this.blob == blob && offset == 0 && delivered == "" && stated && Reconnects() == 0
    {
      body, lastRetryOffset, lastRetryTime, offset := Some(firstBody), -1, None, 0;
      this.blob, delivered, end, stated := blob, "", |blob|, true;
      afterProgress, afterTime, firstRetryTime := 0, 0, 0;
    }

    /** After n more bytes: a mebibyte since the last reconnect, no reconnect yet, or 60 seconds since the last one. */
    predicate HasReason(n: nat, now: int)
      reads this
    {
      lastRetryTime.Some? ==> offset + n - lastRetryOffset >= 0x10_0000 || now >= lastRetryTime.value + 60_000_000_000
    }

    /** Without a reconnect there is always a reason for the first one; the progress then plays no role. */
    lemma ReasonIsHeuristic(n: nat, now: int)
      ensures HasReason(n, now) <==> ReconnectingAfter(n, now)
    {
    }

    /** The heuristic decision whether to reconnect, n bytes further on. */
    predicate ReconnectingAfter(n: nat, now: int)
      reads this
    {
      || offset + n - lastRetryOffset >= MINIMUM_PROGRESS
      || lastRetryTime.None?
      || now - lastRetryTime.value >= NS_SINCE_LAST_RETRY
    }

    /** Resumes at `offset` after an aborted connection, or leaves the reader without a connection. */
    method Reconnect(response: Response, later: int) returns (ok: bool)
      requires Valid() && Honest(blob, response)
      requires lastRetryTime.Some? ==> lastRetryTime.value <= later
      requires offset - lastRetryOffset >= MINIMUM_PROGRESS || lastRetryTime.None? || later - lastRetryTime.value >= NS_SINCE_LAST_RETRY
      modifies `body, `lastRetryOffset, `lastRetryTime, `end, `stated, `afterProgress, `afterTime, `firstRetryTime
      ensures Valid()
      ensures ok <==> Continues(response, offset)
      ensures ok ==> Reconnects() == old(Reconnects()) + 1 && lastRetryTime == Some(later) && lastRetryOffset == offset
                     && body == Some(response.content) && end == RangeOf(response).value.last + 1
                     && stated == RangeOf(response).value.completeLength.Some?
                     && (old(lastRetryTime).Some? ==> firstRetryTime == old(firstRetryTime))
      ensures !ok ==> body.None? && Reconnects() == old(Reconnects()) && end == old(end) && stated == old(stated)
                      && lastRetryTime == old(lastRetryTime) && firstRetryTime == old(firstRetryTime)
    {
      body := None;
      var range := AcceptedRange(response, offset);
      if range.None? { return false; }
      if lastRetryTime.None? {
        firstRetryTime := later;
      } else if offset - lastRetryOffset >= MINIMUM_PROGRESS {
        afterProgress := afterProgress + 1;
      } else {
        afterTime := afterTime + 1;
      }
      body, end, stated := Some(response.content), range.value.last + 1, range.value.completeLength.Some?;
      lastRetryOffset, lastRetryTime := offset, Some(later);
      return true;
    }

    /**
      The open body returned its next n bytes and `err`; a body ends after its last byte.
      `now` is the time of the decision to reconnect, `later` the time after the response.
     */
    method Read(n: nat, err: BodyError, now: int, response: Response, later: int) returns (data: Bytes, outcome: Outcome)
      requires Valid() && Honest(blob, response)
      requires body.Some? ==> n <= |body.value| && (err == EOF ==> n == |body.value|)
      requires (lastRetryTime.Some? ==> lastRetryTime.value <= now) && now <= later
      modifies this
      ensures Valid()
      ensures delivered == old(delivered) + data && offset == old(offset) + |data|
      ensures |data| == if old(body).Some? then n else 0
      // EOF is reported exactly at the end of the range of the connection.
      ensures outcome == AtEOF <==> old(body).Some? && err == EOF
      ensures outcome == AtEOF ==> offset == end
      ensures outcome == Closed <==> old(body).None?
      ensures body.None? <==> old(body).None? || outcome == ReconnectFailed
      // A reconnect happens exactly if the connection was aborted, the heuristic agrees and the range fits.
      ensures Reconnects() == old(Reconnects()) +
                if old(body).Some? && err == Aborted && old(HasReason(n, now)) && Continues(response, offset) then 1 else 0
      ensures old(body).Some? && err != Aborted ==> outcome == match err case NoError => Success case EOF => AtEOF case _ => Failed
      ensures old(body).Some? && err == Aborted ==>
                outcome == if !old(HasReason(n, now)) then NotReconnecting
                           else if Continues(response, offset) then Success else ReconnectFailed
      ensures Reconnects() > old(Reconnects()) ==>
                lastRetryTime == Some(later) && end == RangeOf(response).value.last + 1 && outcome == Success
                && stated == RangeOf(response).value.completeLength.Some?
      ensures Reconnects() == old(Reconnects()) ==> end == old(end) && stated == old(stated) && lastRetryTime == old(lastRetryTime)
      ensures old(lastRetryTime).Some? ==> firstRetryTime == old(firstRetryTime)
    {
      if body.None? {
        assert delivered + "" == delivered;
        return "", Closed;
      }
      data := body.value[..n];
      assert blob[..offset] + blob[offset..end][..n] == blob[..offset + n];
      assert blob[offset..end][n..] == blob[offset + n..end];
      body := Some(body.value[n..]);
      offset := offset + n;
      delivered := delivered + data;
      match err {
        case NoError => return data, Success;
        case EOF => return data, AtEOF;
        case OtherError => return data, Failed;
        case Aborted =>
          if !ReconnectingAfter(0, now) { return data, NotReconnecting; }
          var ok := Reconnect(response, later);
          return data, if ok then Success else ReconnectFailed;
      }
    }

    method Close()
      requires Valid()
      modifies this
      ensures Valid() && body.None? && offset == old(offset) && delivered == old(delivered) && Reconnects() == old(Reconnects())
    {
      body := None;
    }

    /** The number of reconnects is bounded by the progress made and the time since the first one. */
    lemma ReconnectsAreBounded(now: int)
      requires Valid() && (lastRetryTime.Some? ==> lastRetryTime.value <= now)
      ensures Reconnects() > 0 ==>
                Reconnects() <= 1 + offset / MINIMUM_PROGRESS + (now - firstRetryTime) / 1_000_000 / 60_000
    {
      if lastRetryTime.Some? {
        assert afterProgress <= offset / MINIMUM_PROGRESS;
        assert (now - firstRetryTime) / 1_000_000 / 60_000 == (now - firstRetryTime) / NS_SINCE_LAST_RETRY;
      }
    }

    /**
      At EOF the whole blob was handed out if the last accepted response stated the complete length,
      or there was none; in any case exactly if its range went to the end of the blob.
     */
    lemma CompleteAtEOF()
      requires Valid() && offset == end
      ensures stated ==> delivered == blob
      ensures delivered == blob <==> end == |blob|
    {
      assert blob[..|blob|] == blob;
    }
  }

  /** Whatever blob the response is an honest answer about, it delivers that blob to its end. */
  ghost predicate ReachesTheEnd(r: Response)
    requires RangeOf(r).Some?
  {
    forall blob :: Honest(blob, r) ==> RangeOf(r).value.last + 1 == |blob|
  }

  /**
    An accepted response certainly goes to the end of the blob exactly if its Content-Range states
    the complete length: with "*" there is always a longer blob about which it is just as honest.
   */
  lemma CompleteIffLengthIsStated(blob: Bytes, r: Response, offset: nat)
    requires Honest(blob, r) && Continues(r, offset)
    ensures ReachesTheEnd(r) <==> RangeOf(r).value.completeLength.Some?
  {
    var range := RangeOf(r).value;
    if range.completeLength.None? {
      var longer := blob[..range.last + 1] + "x";
      assert longer[range.first..range.last + 1] == blob[range.first..range.last + 1];
      assert Honest(longer, r);
    }
  }

  /** A range with an unknown complete length is accepted even if it ends early, and so does the blob then. */
  method UnknownLengthMayEndEarly() returns (data: Bytes, outcome: Outcome, r: BodyReader)
    ensures r.Valid() && outcome == AtEOF && r.delivered == "ab" && r.blob == "abc"
  {
    r := new BodyReader("abc", "abc");
    data, outcome := r.Read(1, Aborted, 0, Partial(Some(ContentRange.Range(1, 1, None)), "b"), 0);
    data, outcome := r.Read(1, EOF, 0, RequestFailed, 0);
    assert r.offset == 2 && "abc"[..2] == "ab";
  }
}
