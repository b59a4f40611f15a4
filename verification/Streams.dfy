/** The double-buffered byte stream behind pipes and sockets (kernel/ipc/double_buffer.cc), and the
    socket pairs made of two such streams (kernel/ipc/server_socket.cc, kernel/ipc/socket.cc). */
module Streams {
  import opened Arithmetic

  newtype byte = x: int | 0 <= x < 256

  // One half of the data: where it starts, and how much of it is filled.
  class Buffer {
    const start: nat
    var size: nat

    constructor (start: nat)
      ensures this.start == start && size == 0
    {
      this.start := start;
      size := 0;
    }
  }

  // Two stretches of the data, one after the other.
  ghost function Pending(data: seq<byte>, from: nat, to: nat, start: nat, end: nat): (r: seq<byte>)
    requires from <= to <= |data| && start <= end <= |data|
    ensures |r| == to - from + end - start
  {
    data[from..to] + data[start..end]
  }

  lemma TakeFront(data: seq<byte>, from: nat, n: nat, to: nat, start: nat, end: nat, taken: seq<byte>)
    requires from + n <= to <= |data| && start <= end <= |data|
    ensures data[from..from + n] + Pending(data, from + n, to, start, end) == Pending(data, from, to, start, end)
    ensures (taken + data[from..from + n]) + Pending(data, from + n, to, start, end)
      == taken + Pending(data, from, to, start, end)
  {
    assert data[from..to] == data[from..from + n] + data[from + n..to];
  }

  // The data after bytes have been copied to `end`.
  ghost function Stored(data: seq<byte>, end: nat, bytes: seq<byte>): (r: seq<byte>)
    requires end + |bytes| <= |data|
    ensures |r| == |data|
  {
    data[..end] + bytes + data[end + |bytes|..]
  }

  lemma PutBack(data: seq<byte>, from: nat, to: nat, start: nat, end: nat, bytes: seq<byte>, taken: seq<byte>)
    requires from <= to <= |data| && start <= end && end + |bytes| <= |data|
    requires to <= start || end + |bytes| <= from
    ensures var data' := Stored(data, end, bytes);
      && Pending(data', from, to, start, end + |bytes|) == Pending(data, from, to, start, end) + bytes
      && taken + Pending(data', from, to, start, end + |bytes|) == taken + Pending(data, from, to, start, end) + bytes
  {
    var data' := Stored(data, end, bytes);
    assert data'[from..to] == data[from..to];
    assert data'[start..end + |bytes|] == data[start..end] + bytes;
  }

  /** How many bytes are left in the half to read and in the half to write. */
  datatype Level = Level(front: nat, back: nat)

  // How much a read gets: what is left of the one half, or else of the other.
  function Readable(l: Level, want: nat): nat {
    Min(want, if l.front == 0 then l.back else l.front)
  }

  function AfterRead(l: Level, want: nat): Level {
    if l.front == 0 then Level(l.back - Readable(l, want), 0) else Level(l.front - Readable(l, want), l.back)
  }

  // How much a write puts in the half to write.
  function Writable(l: Level, size: nat, count: nat): nat
    requires l.back <= size
  {
    Min(count, size - l.back)
  }

  class DoubleBuffer {
    const data: array<byte>
    const size: nat
    const buffer1: Buffer
    const buffer2: Buffer
    var readBuffer: Buffer
    var writeBuffer: Buffer
    var readPosition: nat
    ghost var accepted: seq<byte>
    ghost var taken: seq<byte>

    ghost const Repr: set<object>

    /** The two pointers are always the two buffers, which are the two halves of the data. What has been
        taken, followed by what is buffered, is what has been accepted. */
    ghost predicate Valid()
      reads this, data, buffer1, buffer2
    {
      && Repr == {this, data, buffer1, buffer2}
      && data.Length == 2 * size && buffer1 != buffer2 && buffer1.start == size && buffer2.start == 0
      && ((readBuffer == buffer1 && writeBuffer == buffer2) || (readBuffer == buffer2 && writeBuffer == buffer1))
      && readPosition <= readBuffer.size <= size && writeBuffer.size <= size
      && taken + Buffered() == accepted
    }

    // What is still to be read: the rest of the one half, then the other.
    ghost function Buffered(): seq<byte>
      requires readBuffer.start + readBuffer.size <= data.Length && readPosition <= readBuffer.size
      requires writeBuffer.start + writeBuffer.size <= data.Length
      reads this, data, readBuffer, writeBuffer
    {
      Pending(data[..], readBuffer.start + readPosition, readBuffer.start + readBuffer.size,
              writeBuffer.start, writeBuffer.start + writeBuffer.size)
    }

    ghost function Levels(): Level
      requires readPosition <= readBuffer.size
      reads this, readBuffer, writeBuffer
    {
      Level(readBuffer.size - readPosition, writeBuffer.size)
    }

    constructor (size: nat)
      ensures Valid() && fresh(Repr) && this.size == size && accepted == [] && taken == [] && Levels() == Level(0, 0)
    {
      this.size := size;
      data := new byte[size * 2];
      buffer1 := new Buffer(size);
      buffer2 := new Buffer(0);
      readBuffer, writeBuffer := buffer1, buffer2;
      readPosition := 0;
      accepted, taken := [], [];
      Repr := {this, data, buffer1, buffer2};
    }

    method Empty() returns (b: bool)
      requires Valid()
      ensures b <==> Buffered() == []
    {
      b := readPosition >= readBuffer.size && writeBuffer.size == 0;
    }

    /** full: exactly when a write would accept nothing, whatever it brings. */
    method Full() returns (b: bool)
      requires Valid()
      ensures b <==> Accepts(1) == 0
      ensures b <==> forall n: nat :: Accepts(n) == 0
    {
      b := size - writeBuffer.size == 0;
      assert Accepts(1) == 0 <==> b;
    }

    // How many of `n` bytes a write takes.
    ghost function Accepts(n: nat): nat
      requires Valid()
      reads this, data, buffer1, buffer2
    {
      Min(n, size - writeBuffer.size)
    }

    // The other half becomes the one to read once this one has been read.
    method Turn()
      requires Valid()
      modifies this`readBuffer, this`writeBuffer, this`readPosition, buffer1, buffer2
      ensures Valid() && accepted == old(accepted) && taken == old(taken) && Buffered() == old(Buffered())
      ensures readPosition == readBuffer.size ==> Buffered() == []
      ensures Levels() == if old(Levels()).front == 0 then Level(old(Levels()).back, 0) else old(Levels())
    {
      if readPosition >= readBuffer.size && writeBuffer.size != 0 {
        readBuffer, writeBuffer := writeBuffer, readBuffer;
        readPosition := 0;
        writeBuffer.size := 0;
      }
    }

    /** read: the next bytes that were accepted, and none only if none were asked for or none are
        left. */
    method Read(want: nat) returns (r: seq<byte>)
      requires Valid()
      modifies Repr
      ensures Valid() && accepted == old(accepted) && taken == old(taken) + r
      ensures |r| <= want && (|r| == 0 <==> want == 0 || old(Buffered()) == [])
      ensures r + Buffered() == old(Buffered())
      ensures |r| == Readable(old(Levels()), want) && Levels() == AfterRead(old(Levels()), want)
    {
      hide Pending;
      Turn();
      if readPosition >= readBuffer.size {
        return [];
      }
      var n := Min(want, readBuffer.size - readPosition);
      var from := readBuffer.start + readPosition;
      r := data[..][from..from + n];
      TakeFront(data[..], from, n, readBuffer.start + readBuffer.size,
                writeBuffer.start, writeBuffer.start + writeBuffer.size, taken);
      readPosition := readPosition + n;
      taken := taken + r;
    }

    // Copies bytes to the end of the half to write.
    method Store(bytes: seq<byte>)
      requires Valid() && |bytes| <= size - writeBuffer.size
      modifies data
      ensures var end := writeBuffer.start + writeBuffer.size;
        data[..] == Stored(old(data[..]), end, bytes)
    {
      var end := writeBuffer.start + writeBuffer.size;
      forall i | 0 <= i < |bytes| {
        data[end + i] := bytes[i];
      }
    }

    /** write: accepts the first bytes, as many as there is room for. */
    method Write(bytes: seq<byte>) returns (n: nat)
      requires Valid()
      modifies Repr
      ensures Valid() && taken == old(taken)
      ensures n == old(Accepts(|bytes|)) && accepted == old(accepted) + bytes[..n]
      ensures Buffered() == old(Buffered()) + bytes[..n]
      ensures n == Writable(old(Levels()), size, |bytes|)
      ensures Levels() == old(Levels()).(back := old(Levels()).back + n)
    {
      hide Pending, Stored;
      n := Min(|bytes|, size - writeBuffer.size);
      PutBack(data[..], readBuffer.start + readPosition, readBuffer.start + readBuffer.size,
              writeBuffer.start, writeBuffer.start + writeBuffer.size, bytes[..n], taken);
      Store(bytes[..n]);
      writeBuffer.size := writeBuffer.size + n;
      accepted := accepted + bytes[..n];
    }
  }

  // ----- sockets -----

  const SOCKET_BUFFER: nat := 65536

  class Socket {
    const readBuffer: DoubleBuffer
    const writeBuffer: DoubleBuffer

    constructor (readBuffer: DoubleBuffer, writeBuffer: DoubleBuffer)
      ensures this.readBuffer == readBuffer && this.writeBuffer == writeBuffer
    {
      this.readBuffer, this.writeBuffer := readBuffer, writeBuffer;
    }

    /** Two streams that share nothing. */
    ghost predicate Valid()
      reads readBuffer, readBuffer.data, readBuffer.buffer1, readBuffer.buffer2
      reads writeBuffer, writeBuffer.data, writeBuffer.buffer1, writeBuffer.buffer2
    {
      readBuffer.Valid() && writeBuffer.Valid() && readBuffer.Repr !! writeBuffer.Repr
    }

    /** Reading leaves the other direction alone. */
    method Read(want: nat) returns (r: seq<byte>)
      requires Valid()
      modifies readBuffer.Repr
      ensures Valid() && readBuffer.accepted == old(readBuffer.accepted)
      ensures readBuffer.taken == old(readBuffer.taken) + r
      ensures |r| <= want && (|r| == 0 <==> want == 0 || old(readBuffer.taken == readBuffer.accepted))
      ensures |r| == Readable(old(readBuffer.Levels()), want)
      ensures readBuffer.Levels() == AfterRead(old(readBuffer.Levels()), want)
      ensures writeBuffer.Levels() == old(writeBuffer.Levels())
      ensures writeBuffer.accepted == old(writeBuffer.accepted) && writeBuffer.taken == old(writeBuffer.taken)
    {
      r := readBuffer.Read(want);
    }

    method Write(bytes: seq<byte>) returns (n: nat)
      requires Valid()
      modifies writeBuffer.Repr
      ensures Valid() && writeBuffer.taken == old(writeBuffer.taken)
      ensures n == old(writeBuffer.Accepts(|bytes|)) && writeBuffer.accepted == old(writeBuffer.accepted) + bytes[..n]
      ensures n == Writable(old(writeBuffer.Levels()), writeBuffer.size, |bytes|)
      ensures writeBuffer.Levels() == old(writeBuffer.Levels()).(back := old(writeBuffer.Levels()).back + n)
      ensures readBuffer.accepted == old(readBuffer.accepted) && readBuffer.taken == old(readBuffer.taken)
      ensures readBuffer.Levels() == old(readBuffer.Levels())
    {
      n := writeBuffer.Write(bytes);
    }
  }

  /** Two ends of one connection: each reads what the other writes. */
  ghost predicate Crossed(a: Socket, b: Socket) {
    a.readBuffer == b.writeBuffer && a.writeBuffer == b.readBuffer
  }

  /** What one end has read so far is the beginning of what the other has written so far, and the rest
      is in the buffer between them; both ways. */
  lemma CrossedStreams(a: Socket, b: Socket)
    requires a.Valid() && Crossed(a, b)
    ensures b.Valid()
    ensures a.readBuffer.taken + a.readBuffer.Buffered() == b.writeBuffer.accepted
    ensures b.readBuffer.taken + b.readBuffer.Buffered() == a.writeBuffer.accepted
  {
  }

  class ServerSocket {
    const capacity: nat
    var queue: seq<Socket>

    constructor (backlog: nat)
      ensures capacity == backlog && queue == []
    {
      capacity, queue := backlog, [];
    }

    /** queue_connection_from: busy already when one place is left. */
    method QueueConnectionFrom(socket: Socket) returns (busy: bool)
      modifies this
      ensures busy <==> old(|queue|) + 1 >= capacity
      ensures queue == if busy then old(queue) else old(queue) + [socket]
    {
      if |queue| + 1 >= capacity {
        return true;
      }
      queue := queue + [socket];
      return false;
    }

    /** accept: the other end for the client that has waited longest. */
    method Accept() returns (socket: Socket)
      requires queue != []
      modifies this
      ensures fresh(socket) && Crossed(socket, old(queue[0])) && queue == old(queue)[1..]
      ensures old(queue[0].Valid()) ==> socket.Valid()
    {
      var client := queue[0];
      queue := queue[1..];
      socket := new Socket(client.writeBuffer, client.readBuffer);
    }
  }

  /** connect: a client with two new streams in the queue, or an error. */
  method Connect(server: ServerSocket) returns (client: Socket?)
    modifies server
    ensures client == null <==> old(|server.queue|) + 1 >= server.capacity
    ensures client == null ==> server.queue == old(server.queue)
    ensures client != null ==>
      && fresh(client) && client.Valid() && server.queue == old(server.queue) + [client]
      && fresh(client.readBuffer.Repr) && fresh(client.writeBuffer.Repr)
      && client.readBuffer.accepted == [] && client.writeBuffer.accepted == []
      && client.readBuffer.taken == [] && client.writeBuffer.taken == []
      && client.readBuffer.Levels() == client.writeBuffer.Levels() == Level(0, 0)
      && client.readBuffer.size == client.writeBuffer.size == 65536
  {
    var incoming := new DoubleBuffer(SOCKET_BUFFER);
    var outgoing := new DoubleBuffer(SOCKET_BUFFER);
    client := new Socket(incoming, outgoing);
    var busy := server.QueueConnectionFrom(client);
    if busy {
      return null;
    }
  }

  // ----- a conversation -----

  /** What the two ends do: the one that connected, or the one that accepted, writes or reads. */
  datatype Action = Writes(connected: bool, bytes: seq<byte>) | Reads(connected: bool, want: nat)

  /** How full the two directions are, and how many bytes each action moved. */
  datatype Talk = Talk(up: Level, down: Level, counts: seq<nat>)

  // The direction in which an action moves bytes: up is from the end that connected.
  predicate Upward(a: Action) { a.Writes? == a.connected }

  ghost function Moved(a: Action, l: Level): nat
    requires l.back <= SOCKET_BUFFER
  {
    match a
    case Writes(_, bytes) => Writable(l, SOCKET_BUFFER, |bytes|)
    case Reads(_, want) => Readable(l, want)
  }

  ghost function Next(a: Action, l: Level): (l': Level)
    requires l.back <= SOCKET_BUFFER
    ensures l'.back <= SOCKET_BUFFER
  {
    match a
    case Writes(_, _) => l.(back := l.back + Moved(a, l))
    case Reads(_, want) => AfterRead(l, want)
  }

  /** A conversation on the numbers alone. */
  ghost function Talked(actions: seq<Action>): (t: Talk)
    ensures t.up.back <= SOCKET_BUFFER && t.down.back <= SOCKET_BUFFER && |t.counts| == |actions|
    ensures forall i :: 0 <= i < |actions| && actions[i].Writes? ==> t.counts[i] <= |actions[i].bytes|
  {
    if actions == [] then Talk(Level(0, 0), Level(0, 0), [])
    else
      var t, a := Talked(actions[..|actions| - 1]), actions[|actions| - 1];
      if Upward(a) then Talk(Next(a, t.up), t.down, t.counts + [Moved(a, t.up)])
      else Talk(t.up, Next(a, t.down), t.counts + [Moved(a, t.down)])
  }

  // The bytes that were accepted from one end, in order.
  ghost function Sent(actions: seq<Action>, up: bool): seq<byte> {
    if actions == [] then []
    else
      var n := |actions| - 1;
      Sent(actions[..n], up)
      + if actions[n].Writes? && Upward(actions[n]) == up then actions[n].bytes[..Talked(actions).counts[n]] else []
  }

  // How many bytes were read at the other end.
  ghost function ReadSoFar(actions: seq<Action>, up: bool): nat {
    if actions == [] then 0
    else
      var n := |actions| - 1;
      ReadSoFar(actions[..n], up)
      + if actions[n].Reads? && Upward(actions[n]) == up then Talked(actions).counts[n] else 0
  }

  // One action, in the direction that it moves bytes.
  method Act(client: Socket, other: Socket, a: Action) returns (count: nat, read: seq<byte>)
    requires client.Valid() && other.Valid() && Crossed(client, other)
    requires client.readBuffer.size == client.writeBuffer.size == 65536
    modifies client.readBuffer.Repr, client.writeBuffer.Repr
    ensures client.Valid() && other.Valid()
    ensures var d := if Upward(a) then client.writeBuffer else client.readBuffer;
      var e := if Upward(a) then client.readBuffer else client.writeBuffer;
      && count == Moved(a, old(d.Levels())) && d.Levels() == Next(a, old(d.Levels()))
      && d.accepted == old(d.accepted) + (if a.Writes? then a.bytes[..count] else [])
      && d.taken == old(d.taken) + read && |read| == (if a.Reads? then count else 0)
      && e.accepted == old(e.accepted) && e.taken == old(e.taken) && e.Levels() == old(e.Levels())
  {
    hide DoubleBuffer.Buffered;
    count, read := 0, [];
    match a
    case Writes(true, bytes) => count := client.Write(bytes);
    case Writes(false, bytes) => count := other.Write(bytes);
    case Reads(true, want) => read := client.Read(want); count := |read|;
    case Reads(false, want) => read := other.Read(want); count := |read|;
  }

  // What one direction has come to.
  ghost predicate Agrees(accepted: seq<byte>, level: Level, got: seq<byte>, actions: seq<Action>, up: bool) {
    && accepted == Sent(actions, up) && |got| == ReadSoFar(actions, up)
    && level == if up then Talked(actions).up else Talked(actions).down
  }

  lemma OneMore(actions: seq<Action>, a: Action, up: bool, accepted: seq<byte>, level: Level, got: seq<byte>,
                read: seq<byte>)
    requires Agrees(accepted, level, got, actions, up) && Upward(a) == up && level.back <= SOCKET_BUFFER
    requires |read| == if a.Reads? then Moved(a, level) else 0
    ensures Talked(actions + [a]).counts == Talked(actions).counts + [Moved(a, level)]
    ensures (a.Writes? ==> Moved(a, level) <= |a.bytes|)
      && Agrees(accepted + (if a.Writes? then a.bytes[..Moved(a, level)] else []), Next(a, level), got + read,
                actions + [a], up)
  {
    assert (actions + [a])[..|actions|] == actions;
  }

  lemma OtherWay(actions: seq<Action>, a: Action, up: bool, accepted: seq<byte>, level: Level, got: seq<byte>)
    requires Agrees(accepted, level, got, actions, up) && Upward(a) != up
    ensures Agrees(accepted, level, got, actions + [a], up)
  {
    assert (actions + [a])[..|actions|] == actions;
  }

  lemma NothingSaid()
    ensures Talked([]).counts == []
    ensures Agrees([], Level(0, 0), [], [], true) && Agrees([], Level(0, 0), [], [], false)
  {
  }

  /** connect, accept, and then any sequence of reads and writes on both ends: every action moves as many
      bytes as the numbers alone say; what one end has read is the beginning of what was accepted from the
      other, in order, and the rest is in the buffer between them. The two directions never mix. */
  method Converse(server: ServerSocket, actions: seq<Action>)
    returns (client: Socket?, counts: seq<nat>, up: seq<byte>, down: seq<byte>)
    requires server.queue == []
    modifies server
    ensures client == null <==> server.capacity <= 1
    ensures client != null ==>
      && client.Valid() && counts == Talked(actions).counts
      && Sent(actions, true) == up + client.writeBuffer.Buffered() && |up| == ReadSoFar(actions, true)
      && Sent(actions, false) == down + client.readBuffer.Buffered() && |down| == ReadSoFar(actions, false)
  {
    hide Sent, ReadSoFar, Talked, Agrees, Next, Moved, DoubleBuffer.Buffered;
    counts, up, down := [], [], [];
    client := Connect(server);
    if client == null {
      return;
    }
    var other := server.Accept();
    NothingSaid();
    ghost var w, r := client.writeBuffer, client.readBuffer;
    for i := 0 to |actions|
      invariant fresh(r.Repr) && fresh(w.Repr) && client.Valid() && other.Valid() && Crossed(client, other)
      invariant r.size == w.size == SOCKET_BUFFER && w.taken == up && r.taken == down
      invariant counts == Talked(actions[..i]).counts
      invariant Agrees(w.accepted, w.Levels(), up, actions[..i], true)
      invariant Agrees(r.accepted, r.Levels(), down, actions[..i], false)
    {
      ghost var wa, wl, ra, rl := w.accepted, w.Levels(), r.accepted, r.Levels();
      var count, read := Act(client, other, actions[i]);
      assert actions[..i + 1] == actions[..i] + [actions[i]];
      counts := counts + [count];
      if Upward(actions[i]) {
        OneMore(actions[..i], actions[i], true, wa, wl, up, read);
        OtherWay(actions[..i], actions[i], false, ra, rl, down);
        up := up + read;
      } else {
        OneMore(actions[..i], actions[i], false, ra, rl, down, read);
        OtherWay(actions[..i], actions[i], true, wa, wl, up);
        down := down + read;
      }
    }
    assert actions[..|actions|] == actions;
    CrossedStreams(client, other);
    WhatAgrees(actions, true, w.accepted, w.Levels(), up);
    WhatAgrees(actions, false, r.accepted, r.Levels(), down);
  }

  lemma WhatAgrees(actions: seq<Action>, up: bool, accepted: seq<byte>, level: Level, got: seq<byte>)
    requires Agrees(accepted, level, got, actions, up)
    ensures accepted == Sent(actions, up) && |got| == ReadSoFar(actions, up)
  {
  }
}
