# Orientation visualiser: verified model of the sample path

`mod3d.py` shows the live orientation of an accelerometer board. On every
redraw tick, `update` drains a non-blocking UDP socket, keeping as `last_sample` the
first six bytes of the latest datagram of at least six bytes. It decodes that sample as three
signed big-endian 16-bit counts (`struct.unpack("!hhh", ...)`) and redraws a box
mesh whose faces and edges are index tables into an eight-row vertex table.

This project models that integer-and-bytes path in Dafny:

- `Int16Codec` (`int16_codec.dfy`): the `"!hhh"` record. It has an explicit
  two's-complement decoder over bytes, the matching encoder (`struct.pack`),
  and the `struct.error` raised when the buffer is not exactly six bytes.
- `LatestSample` (`latest_sample.dfy`): the drain loop as a pure left fold,
  `Drain`, over the queued datagrams. Each datagram first goes through
  `recvfrom(1024)` truncation. The lemmas state the "last valid datagram wins"
  rule.
- `BoxMesh` (`box_mesh.dfy`): `faces_idx`, `edges_idx`, and the two
  comprehensions that index the vertex table with them.
- `Mod3d` (`mod3d.dfy`): the mutable state. `DatagramSocket` is the socket as
  a queue of pending datagrams; `BlockingIOError` is the empty queue.
  `Animation` holds `last_sample` and the geometry shown by the two box
  collections. `ReadLatestPacket` is the `while True` loop, proved against
  `Drain`. `Update` is the timer callback.
- `Wrappers` (`wrappers.dfy`): `Option` (for `None`) and `Result` (for a raised
  exception).

## Model

| member | source | states |
|---|---|---|
| Int16Codec.Unsigned16 | mod3d.py:127 | the big-endian reading of a byte pair is in [0, 65536), with `hi` its high byte and `lo` its low byte |
| Int16Codec.DecodeInt16 | mod3d.py:127 | format `h`, network order: the result lies in [-32768, 32767], is congruent to the unsigned reading modulo 65536, and is negative exactly when the top bit of the high byte is set |
| Int16Codec.EncodeInt16 | mod3d.py:127 | the inverse direction: two bytes, congruent to the value modulo 65536, high byte at least 128 exactly for negative values |
| Int16Codec.Int16ResidueUnique | mod3d.py:127 | two 16-bit signed values with the same residue modulo 65536 are equal, so the decoder's contract fixes its result |
| Int16Codec.DecodeInt16Value | mod3d.py:127 | a decoded count equals hi*256 + lo, minus 65536 when hi >= 128 |
| Int16Codec.DecodeEncodeInt16 | mod3d.py:127 | encoding a 16-bit value and decoding the two bytes gives back the value |
| Int16Codec.EncodeDecodeInt16 | mod3d.py:127 | decoding a byte pair and encoding the value gives back the same two bytes |
| Int16Codec.Pack | mod3d.py:127 | `struct.pack("!hhh")` gives six bytes, each count's two bytes in order X, Y, Z |
| Int16Codec.Unpack | mod3d.py:127 | `struct.unpack("!hhh")` succeeds exactly on six-byte buffers and otherwise raises `struct.error` (the model records both the expected and the actual size); on success each count is a 16-bit value and packing them gives back the buffer |
| Int16Codec.UnpackPack | mod3d.py:127 | round trip: packing three 16-bit counts and unpacking the record yields the same counts |
| Int16Codec.UnpackFields | mod3d.py:127 | each of the three decoded counts is its own big-endian byte pair read in two's complement |
| LatestSample.Received | mod3d.py:120 | `recvfrom(1024)` returns the whole datagram when it fits and exactly its first 1024 bytes when it does not |
| LatestSample.Step | mod3d.py:123-124 | one pass of the loop body: only a datagram of six bytes or more moves `last_sample`, and then to exactly its first six bytes; what this means over a whole drain is stated by the `Drain` lemmas below |
| LatestSample.Drain | mod3d.py:118-124 | the whole drain as a left fold of `Step` over the received datagrams: the result is the previous `last_sample` or the first six bytes of some datagram of six bytes or more; `DrainLastSampleWins`, `DrainWithoutSampleKeeps`, `DrainNoneUntilSample`, `ShortDatagramIgnored`, `DrainAppend` and `DrainKeepsSampleSlot` state its properties |
| LatestSample.IsSampleSlot | mod3d.py:114-124 | the invariant on `last_sample`: `None` at start-up or exactly six bytes once set; preserved by `DrainKeepsSampleSlot` and kept by `Animation.Valid` |
| LatestSample.ReceivedKeepsSample | mod3d.py:120-124 | truncation to 1024 bytes changes neither whether a datagram counts as a sample nor its first six bytes |
| LatestSample.DrainAppend | mod3d.py:118-124 | draining two batches one after the other gives the same sample as draining them together |
| LatestSample.DrainWithoutSampleKeeps | mod3d.py:118-124 | if no datagram has six bytes or more, `last_sample` keeps its previous value, `None` included |
| LatestSample.DrainLastSampleWins | mod3d.py:118-124 | if the datagram at k has six bytes or more and none after it does, `last_sample` ends as that datagram's first six bytes |
| LatestSample.DrainNoneUntilSample | mod3d.py:138-141 | starting from `None`, the sample stays `None` after a drain exactly when no datagram had six bytes or more |
| LatestSample.ShortDatagramIgnored | mod3d.py:123-124 | inserting a datagram shorter than six bytes anywhere in the queue does not change the resulting sample |
| LatestSample.DrainKeepsSampleSlot | mod3d.py:124 | a drain keeps `last_sample` either `None` or exactly six bytes, and never turns a stored sample back into `None` |
| LatestSample.StoredSampleUnpacks | mod3d.py:143 | the stored sample always unpacks without error |
| BoxMesh.Faces | mod3d.py:32-39 | `faces_idx`: bottom, top and four side faces as corner indices; `FacesAreQuads`, `IndicesInRange` and `FaceSidesAreEdges` state its properties |
| BoxMesh.Edges | mod3d.py:41-45 | `edges_idx`: the twelve box edges as index pairs; `IndicesInRange` and `EdgesAreFaceSides` state its properties |
| BoxMesh.IndicesInRange | mod3d.py:21-45 | every index in `faces_idx` and `edges_idx` is in [0, 8), the rows of `base_vertices` |
| BoxMesh.FacesAreQuads | mod3d.py:32-39 | six faces, each with four distinct corners |
| BoxMesh.FaceSidesAreEdges | mod3d.py:32-45 | each side of each face lies along an entry of `edges_idx` |
| BoxMesh.EdgesAreFaceSides | mod3d.py:32-45 | each entry of `edges_idx` is a side of some face, and no edge is listed twice |
| BoxMesh.FacePolygons | mod3d.py:150 | for an eight-vertex table: six polygons, and corner k of polygon f is the vertex that `faces_idx[f][k]` names |
| BoxMesh.EdgeSegments | mod3d.py:161 | for an eight-vertex table: twelve segments, segment e joining the two vertices that `edges_idx[e]` names |
| Mod3d.DatagramSocket.constructor | mod3d.py:11-13 | a socket whose receive queue holds the given datagrams |
| Mod3d.DatagramSocket.RecvFrom | mod3d.py:120-122 | an empty queue gives `None` (the `BlockingIOError`); otherwise the oldest datagram, truncated to the buffer size, is removed and returned |
| Mod3d.Animation.constructor | mod3d.py:87-114 | start-up state: no sample, the board drawn from the initial corners, one degenerate edge segment |
| Mod3d.Animation.ReadLatestPacket | mod3d.py:116-124 | the loop empties the socket; `last_sample` becomes `Drain` of its old value over the queued datagrams and stays `None` or six bytes long |
| Mod3d.Animation.Update | mod3d.py:137-161 | after draining: with no sample yet, faces and edges are unchanged; otherwise they are redrawn from the corners of the decoded sample |

## Left out

- Socket creation, `bind` to 10.10.10.1:4096 and non-blocking mode (mod3d.py:9-13). The socket is a queue of datagrams given to its constructor.
- Mod3d.Animation.ReadLatestPacket: the queue is fixed when the drain starts, so datagrams that arrive while the loop runs are not modelled. The script's `while True` (mod3d.py:118-122) stops only when `recvfrom` raises `BlockingIOError`, so a sender faster than the drain can keep it running indefinitely. The loop's termination (`decreases |sock.pending|`) is a property of the model, not of the script. The value contract is unaffected: such arrivals only lengthen the sequence that `Drain` folds over.
- Int16Codec.Unpack: the `actual` size in `WrongBufferSize` is the model's addition; Python's `struct.error` message names only the expected size (6 bytes).
- `recvfrom` on a platform that raises on a datagram longer than the buffer: the model follows the truncating behaviour. The sender address is dropped, as the script drops it.
- The `0.0039` g scaling and the `arctan2`/`sqrt` roll and pitch, `SENSITIVITY`, `rot_matrix`, `get_vertices` and the vertex coordinates (mod3d.py:16-30, 48-65, 128-134, 145-148). These are floating point. The rotated corners enter the model as the parameter `pose`, a function from decoded counts to eight vertices of an abstract type.
- All matplotlib work: figure and axes setup, face colours, the coordinate axes, the text label, `FuncAnimation` and the return of the artist tuple (mod3d.py:67-111, 152-182). This is UI and foreign library calls. `Update` keeps only the face polygons and edge segments it passes to `set_verts` and `set_segments`.
