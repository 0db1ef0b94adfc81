/**
  * Latest-sample selection (`read_latest_packet` in mod3d.py) as a pure
  * specification: draining the socket is a left fold over the datagrams it
  * hands out, in arrival order, in which the last datagram of at least six
  * bytes wins and is cut down to its first six bytes.
  */
module LatestSample {
  import opened Wrappers
  import opened Int16Codec

  type Datagram = seq<byte>

  /** The buffer size passed to `recvfrom`. */
  const RecvBufferSize: nat := 1024

  /** What the script keeps in `last_sample`: nothing yet, or one record. */
  predicate IsSampleSlot(last: Option<seq<byte>>) {
    last.Some? ==> |last.value| == RecordSize
  }

  /**
    * What `recvfrom(bufsize)` returns for a queued datagram: its first
    * `bufsize` bytes (the rest of a longer datagram is discarded).
    */
  function Received(d: Datagram, bufsize: nat): (r: Datagram)
    ensures |r| <= bufsize && r <= d
    ensures |d| <= bufsize ==> r == d
    ensures |d| > bufsize ==> r == d[..bufsize]
  {
    if |d| <= bufsize then d else d[..bufsize]
  }

  /** One pass of the drain loop over the datagram `data` that `recvfrom` returned. */
  function Step(last: Option<seq<byte>>, data: Datagram): (next: Option<seq<byte>>)
    ensures |data| >= RecordSize ==> next == Some(data[..RecordSize])
    ensures |data| < RecordSize ==> next == last
  {
    if |data| >= RecordSize then Some(data[..RecordSize]) else last
  }

  /** `last_sample` after draining `queued`, in arrival order, starting from `last`. */
  function Drain(last: Option<seq<byte>>, queued: seq<Datagram>): (r: Option<seq<byte>>)
    ensures r == last || exists j :: 0 <= j < |queued| && |queued[j]| >= RecordSize && r == Some(queued[j][..RecordSize])
  {
    if queued == [] then last
    else
      var init, d := queued[..|queued| - 1], queued[|queued| - 1];
      ReceivedKeepsSample(d);
      assert forall j :: 0 <= j < |init| ==> init[j] == queued[j];
      Step(Drain(last, init), Received(d, RecvBufferSize))
  }

  /** Truncation by `recvfrom(1024)` changes neither whether a datagram is a sample nor its first six bytes. */
  lemma ReceivedKeepsSample(d: Datagram)
    ensures |Received(d, RecvBufferSize)| >= RecordSize <==> |d| >= RecordSize
    ensures |d| >= RecordSize ==> Received(d, RecvBufferSize)[..RecordSize] == d[..RecordSize]
  {
  }

  /** Draining in two goes is draining once: consecutive timer ticks compose. */
  lemma {:induction false} DrainAppend(last: Option<seq<byte>>, a: seq<Datagram>, b: seq<Datagram>)
    ensures Drain(last, a + b) == Drain(Drain(last, a), b)
    decreases |b|
  {
    if b == [] {
      assert a + b == a;
    } else {
      var b' := b[..|b| - 1];
      assert (a + b)[..|a + b| - 1] == a + b';
      assert (a + b)[|a + b| - 1] == b[|b| - 1];
      DrainAppend(last, a, b');
    }
  }

  /** If no datagram of six bytes or more arrives, `last_sample` keeps its value (None included). */
  lemma {:induction false} DrainWithoutSampleKeeps(last: Option<seq<byte>>, queued: seq<Datagram>)
    requires forall j :: 0 <= j < |queued| ==> |queued[j]| < RecordSize
    ensures Drain(last, queued) == last
    decreases |queued|
  {
    if queued != [] {
      var init := queued[..|queued| - 1];
      DrainWithoutSampleKeeps(last, init);
      ReceivedKeepsSample(queued[|queued| - 1]);
    }
  }

  /**
    * If the datagram at `k` has six bytes or more and none after it does,
    * `last_sample` ends as the first six bytes of that datagram.
    */
  lemma {:induction false} DrainLastSampleWins(last: Option<seq<byte>>, queued: seq<Datagram>, k: nat)
    requires k < |queued| && |queued[k]| >= RecordSize
    requires forall j :: k < j < |queued| ==> |queued[j]| < RecordSize
    ensures Drain(last, queued) == Some(queued[k][..RecordSize])
  {
    var head, tail := queued[..k + 1], queued[k + 1..];
    assert queued == head + tail;
    DrainAppend(last, head, tail);
    ReceivedKeepsSample(queued[k]);
    assert head[..|head| - 1] == queued[..k];
    assert Drain(last, head) == Some(queued[k][..RecordSize]);
    DrainWithoutSampleKeeps(Drain(last, head), tail);
  }

  /**
    * Starting from no sample, a drain still leaves no sample exactly when
    * none of the datagrams had six bytes or more.
    */
  lemma DrainNoneUntilSample(queued: seq<Datagram>)
    ensures Drain(None, queued) == None <==> forall j :: 0 <= j < |queued| ==> |queued[j]| < RecordSize
  {
    if forall j :: 0 <= j < |queued| ==> |queued[j]| < RecordSize {
      DrainWithoutSampleKeeps(None, queued);
    } else {
      var k :| 0 <= k < |queued| && |queued[k]| >= RecordSize;
      var head, tail := queued[..k + 1], queued[k + 1..];
      assert queued == head + tail;
      assert head[..|head| - 1] == queued[..k];
      ReceivedKeepsSample(queued[k]);
      DrainAppend(None, head, tail);
      DrainKeepsSampleSlot(Drain(None, head), tail);
    }
  }

  /** A datagram shorter than six bytes, wherever it arrives, never changes `last_sample`. */
  lemma ShortDatagramIgnored(last: Option<seq<byte>>, before: seq<Datagram>, d: Datagram, after: seq<Datagram>)
    requires |d| < RecordSize
    ensures Drain(last, before + [d] + after) == Drain(last, before + after)
  {
    DrainAppend(last, before + [d], after);
    DrainAppend(last, before, [d]);
    DrainWithoutSampleKeeps(Drain(last, before), [d]);
    DrainAppend(last, before, after);
  }

  /** Once set, `last_sample` is exactly one record long, and it is never reset to None. */
  lemma {:induction false} DrainKeepsSampleSlot(last: Option<seq<byte>>, queued: seq<Datagram>)
    requires IsSampleSlot(last)
    ensures IsSampleSlot(Drain(last, queued))
    ensures last.Some? ==> Drain(last, queued).Some?
    decreases |queued|
  {
    if queued != [] {
      DrainKeepsSampleSlot(last, queued[..|queued| - 1]);
    }
  }

  /** Hence decoding the stored sample, as `update` does, never raises. */
  lemma StoredSampleUnpacks(last: Option<seq<byte>>, queued: seq<Datagram>)
    requires IsSampleSlot(last)
    requires Drain(last, queued).Some?
    ensures Unpack(Drain(last, queued).value).Ok?
  {
    DrainKeepsSampleSlot(last, queued);
  }
}
