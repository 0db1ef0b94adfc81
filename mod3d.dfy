/**
  * The stateful part of mod3d.py: the non-blocking datagram socket, the
  * global `last_sample` that `read_latest_packet` refreshes on every timer
  * tick, and the board geometry that `update` redraws from it. Vertex
  * positions come out of floating-point trigonometry, so they enter as the
  * parameter `pose`, which maps a decoded sample to the eight rotated corners.
  */
module Mod3d {
  import opened Wrappers
  import opened Int16Codec
  import opened LatestSample
  import opened BoxMesh

  /** The bound, non-blocking UDP socket, seen as its queue of received datagrams, oldest first. */
  class DatagramSocket {
    var pending: seq<Datagram>

    constructor (queued: seq<Datagram>)
      ensures pending == queued
    {
      pending := queued;
    }

    /**
      * `recvfrom(bufsize)`: hands out the oldest datagram, cut to `bufsize`
      * bytes; `None` stands for the `BlockingIOError` raised when nothing is queued.
      */
    method RecvFrom(bufsize: nat) returns (r: Option<Datagram>)
      modifies this
      ensures old(pending) == [] ==> r == None && pending == []
      ensures old(pending) != [] ==>
        r == Some(Received(old(pending)[0], bufsize)) && pending == old(pending)[1..]
    {
      if pending == [] {
        r := None;
      } else {
        r := Some(Received(pending[0], bufsize));
        pending := pending[1..];
      }
    }
  }

  /** The script's module-level state: `last_sample` and what the two box collections show. */
  class Animation<V> {
    var lastSample: Option<seq<byte>>
    /** The polygons last given to the board's face collection. */
    var board: seq<seq<V>>
    /** The segments last given to the edge collection. */
    var edgeLines: seq<(V, V)>
    /** The eight box corners, rotated for a decoded sample. */
    const pose: Counts -> seq<V>

    ghost predicate Valid()
      reads this
    {
      IsSampleSlot(lastSample) && forall c :: |pose(c)| == VertexCount
    }

    /**
      * Start-up: no sample yet, the board drawn from the level corners
      * `initVerts`, and the edge collection holding one degenerate segment
      * at `origin`.
      */
    constructor (initVerts: seq<V>, origin: V, pose: Counts -> seq<V>)
      requires |initVerts| == VertexCount
      requires forall c :: |pose(c)| == VertexCount
      ensures Valid() && this.pose == pose
      ensures lastSample == None
      ensures board == FacePolygons(initVerts) && edgeLines == [(origin, origin)]
    {
      lastSample := None;
      board := FacePolygons(initVerts);
      edgeLines := [(origin, origin)];
      this.pose := pose;
    }

    /**
      * `read_latest_packet`: receive until the socket would block, keeping
      * the first six bytes of the latest datagram that has at least six.
      */
    method ReadLatestPacket(sock: DatagramSocket)
      requires Valid()
      modifies this`lastSample, sock
      ensures Valid()
      ensures sock.pending == []
      ensures lastSample == Drain(old(lastSample), old(sock.pending))
    {
      // The queue is fixed when the drain starts: nothing arrives while it
      // runs, which is what makes the loop terminate here.
      ghost var queued := sock.pending;
      ghost var n := 0;
      while true
        invariant n <= |queued| && sock.pending == queued[n..]
        invariant lastSample == Drain(old(lastSample), queued[..n])
        invariant IsSampleSlot(lastSample)
        decreases |sock.pending|
      {
        var r := sock.RecvFrom(RecvBufferSize);
        if r.None? {
          break;
        }
        var data := r.value;
        if |data| >= RecordSize {
          lastSample := Some(data[..RecordSize]);
        }
        assert queued[..n + 1][..n] == queued[..n];
        n := n + 1;
      }
      assert queued[..n] == queued;
    }

    /**
      * `update`: drain the socket; while no sample has ever arrived, leave
      * the geometry as it is; otherwise decode the stored sample (which
      * cannot fail, the sample being six bytes) and redraw faces and edges
      * from the corners it gives.
      */
    method Update(sock: DatagramSocket)
      requires Valid()
      modifies this`lastSample, this`board, this`edgeLines, sock
      ensures Valid()
      ensures sock.pending == []
      ensures lastSample == Drain(old(lastSample), old(sock.pending))
      ensures lastSample == None ==> board == old(board) && edgeLines == old(edgeLines)
      ensures lastSample != None ==>
        var verts := pose(Unpack(lastSample.value).value);
        board == FacePolygons(verts) && edgeLines == EdgeSegments(verts)
    {
      ReadLatestPacket(sock);
      if lastSample == None {
        return;
      }
      var counts := Unpack(lastSample.value).value;
      var verts := pose(counts);
      board := FacePolygons(verts);
      edgeLines := EdgeSegments(verts);
    }
  }
}
