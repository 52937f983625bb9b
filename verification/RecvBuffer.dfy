/**
  The per-connection read buffer: a cursor over a vector, compacted only before
  the next read. Every operation is stated on `Unread()`, the plain byte queue
  that the buffer stands for.
 */
module RecvBuffers {
  import opened Bytes

  const READ_CHUNK_BYTES: nat := 8 * 1024
  const MAX_RETAINED_CAPACITY: nat := 64 * 1024

  datatype IoError = IoError

  type Fragment = f: Text | |f| > 0 witness [0]

  /** The peer: what it will still send, cut into fragments, then end of file or a failure. */
  class Socket {
    var incoming: seq<Fragment>
    const broken: bool

    constructor (incoming: seq<Fragment>, broken: bool)
      ensures this.incoming == incoming && this.broken == broken
    {
      this.incoming := incoming;
      this.broken := broken;
    }

    ghost function Rest(): Text
      reads this
    {
      Concat(incoming)
    }

    /** Reads at most `limit` bytes; none at all means end of file. */
    method Read(limit: nat) returns (data: Result<Text, IoError>)
      requires limit > 0
      modifies this
      ensures data.Ok? ==> old(Rest()) == data.value + Rest() && |data.value| <= limit
      ensures data.Ok? && data.value == [] <==> old(Rest()) == [] && !broken
      ensures data.Err? <==> old(Rest()) == [] && broken
      ensures data.Err? ==> Rest() == []
    {
      if incoming == [] {
        return if broken then Err(IoError) else Ok([]);
      }
      var f := incoming[0];
      if |f| <= limit {
        incoming := incoming[1..];
        return Ok(f);
      }
      incoming := incoming[0 := f[limit..]];
      assert incoming[1..] == old(incoming)[1..];
      assert f == f[..limit] + f[limit..];
      return Ok(f[..limit]);
    }
  }

  /** The vector after its bytes from `from` on were copied to the front. */
  function CopyWithin(v: Text, from: nat): (r: Text)
    requires from <= |v|
    ensures |r| == |v| && r[..|v| - from] == v[from..]
  {
    v[from..] + v[|v| - from..]
  }

  class RecvBuffer {
    var buf: Text
    var pos: nat
    var capacity: nat

    ghost predicate Valid()
      reads this
    {
      pos <= |buf| <= capacity
    }

    ghost function Unread(): Text
      requires Valid()
      reads this
    {
      buf[pos..]
    }

    constructor ()
      ensures Valid() && Unread() == []
    {
      buf, pos, capacity := [], 0, 0;
    }

    method GetUnread() returns (s: Text)
      requires Valid()
      ensures s == Unread()
    {
      s := buf[pos..];
    }

    /** Moves the cursor; asking for more than is unread is a bug of the caller. */
    method Consume(n: nat)
      requires Valid() && n <= |Unread()|
      modifies this`pos
      ensures Valid() && Unread() == old(Unread())[n..]
    {
      pos := pos + n;
    }

    /** Hands out the vector itself when it is exactly the `n` unread bytes. */
    method TakeExact(n: nat) returns (taken: Option<Text>)
      requires Valid()
      modifies this
      ensures Valid()
      ensures taken.Some? <==> old(pos) == 0 && |old(buf)| == n
      ensures taken.Some? ==> taken.value == old(Unread()) && Unread() == []
      ensures taken.None? ==> Unread() == old(Unread()) && pos == old(pos)
    {
      if pos == 0 && |buf| == n {
        taken := Some(buf);
        buf, capacity := [], 0;
      } else {
        taken := None;
      }
    }

    /** Moves the unread bytes to the front and drops the consumed ones. */
    method Compact()
      requires Valid()
      modifies this`buf, this`pos
      ensures Valid() && pos == 0 && Unread() == old(Unread())
    {
      if pos > 0 {
        var unreadLen := |buf| - pos;
        if unreadLen > 0 {
          buf := CopyWithin(buf, pos);
        }
        buf := buf[..unreadLen];
        pos := 0;
      }
    }

    /** Makes room for a read; `granted` is what the allocator chose to give. */
    method ReserveForRead(granted: nat)
      requires Valid() && granted >= capacity && granted >= |buf| + READ_CHUNK_BYTES
      modifies this
      ensures Valid() && pos == 0 && Unread() == old(Unread())
      ensures capacity - |buf| >= 8192
    {
      Compact();
      if capacity - |buf| < READ_CHUNK_BYTES {
        capacity := granted;
      }
    }

    /** Gives memory back after a large request; the allocator chooses how much it keeps. */
    method ShrinkIfOversized()
      requires Valid()
      modifies this
      ensures Valid() && Unread() == old(Unread())
      ensures old(capacity) <= 65536 ==> buf == old(buf) && pos == old(pos) && capacity == old(capacity)
      ensures capacity <= old(capacity)
    {
      if capacity <= MAX_RETAINED_CAPACITY {
        return;
      }
      Compact();
      var kept :| kept >= Max(MAX_RETAINED_CAPACITY, |buf|);
      if kept < capacity {
        capacity := kept;
      }
    }

    /** One read: the bytes go behind the unread ones, and none are lost. */
    method ReadChunk(reader: Socket) returns (n: Result<nat, IoError>)
      requires Valid()
      modifies this, reader
      ensures Valid()
      ensures Unread() + reader.Rest() == old(Unread() + reader.Rest())
      ensures n.Ok? && n.value == 0 <==> old(reader.Rest()) == [] && !reader.broken
      ensures n.Err? <==> old(reader.Rest()) == [] && reader.broken
      ensures n.Ok? ==> |Unread()| == old(|Unread()|) + n.value
      ensures n.Err? ==> Unread() == old(Unread())
    {
      var granted :| granted >= capacity && granted >= |buf| + READ_CHUNK_BYTES;
      ReserveForRead(granted);
      var data := reader.Read(capacity - |buf|);
      match data
      case Err(e) =>
        n := Err(e);
      case Ok(bytes) =>
        buf := buf + bytes;
        n := Ok(|bytes|);
    }
  }
}
