/** The frames that carry history events: magic, big-endian length and payload, written in parts and read whole. */
module HistoryFrame {
  import opened Wrappers

  newtype Byte = x: int | 0 <= x < 256

  const FRAME_HEADER_SIZE: nat := 8
  const MAX_PAYLOAD_SIZE: nat := 0x100_0000
  const FRAME_MAGIC: seq<Byte> := [0x41, 0x46, 0x48, 0x31]

  // ---- What a frame is.

  function BigEndian(n: nat): seq<Byte>
    requires n < 0x1_0000_0000
  {
    var (a, b, c) := (n / 0x100, n / 0x100 / 0x100, n / 0x100 / 0x100 / 0x100);
    [c as Byte, (b % 0x100) as Byte, (a % 0x100) as Byte, (n % 0x100) as Byte]
  }

  function Uint32(bytes: seq<Byte>): nat
    requires |bytes| == 4
  {
    ((bytes[0] as nat * 0x100 + bytes[1] as nat) * 0x100 + bytes[2] as nat) * 0x100 + bytes[3] as nat
  }

  function Frame(payload: seq<Byte>): seq<Byte>
    requires |payload| <= MAX_PAYLOAD_SIZE
  {
    FRAME_MAGIC + BigEndian(|payload|) + payload
  }

  // `bytes` is the frame of a payload that a reader accepts.
  ghost predicate IsFrame(bytes: seq<Byte>, payload: seq<Byte>) {
    1 <= |payload| <= MAX_PAYLOAD_SIZE && bytes == Frame(payload)
  }

  lemma BigEndianRoundTrip(n: nat)
    requires n < 0x1_0000_0000
    ensures Uint32(BigEndian(n)) == n
  {
    var a, b, c := n / 0x100, n / 0x100 / 0x100, n / 0x100 / 0x100 / 0x100;
    assert c * 0x100 + b % 0x100 == b;
    assert b * 0x100 + a % 0x100 == a;
    assert a * 0x100 + n % 0x100 == n;
  }

  lemma LastByte(high: nat, low: nat)
    requires low < 0x100
    ensures (high * 0x100 + low) / 0x100 == high && (high * 0x100 + low) % 0x100 == low
  {
  }

  lemma Uint32RoundTrip(bytes: seq<Byte>)
    requires |bytes| == 4
    ensures Uint32(bytes) < 0x1_0000_0000 && BigEndian(Uint32(bytes)) == bytes
  {
    var b0, b1, b2, b3 := bytes[0] as nat, bytes[1] as nat, bytes[2] as nat, bytes[3] as nat;
    LastByte(b0, b1);
    LastByte(b0 * 0x100 + b1, b2);
    LastByte((b0 * 0x100 + b1) * 0x100 + b2, b3);
  }

  // The parts of a byte string that the reader looks at decide whether it is a frame.
  lemma FrameParts(bytes: seq<Byte>, payload: seq<Byte>)
    ensures IsFrame(bytes, payload) <==>
      && FRAME_HEADER_SIZE <= |bytes|
      && bytes[..4] == FRAME_MAGIC
      && 1 <= Uint32(bytes[4..8]) <= MAX_PAYLOAD_SIZE
      && Uint32(bytes[4..8]) == |bytes| - FRAME_HEADER_SIZE
      && bytes[8..] == payload
  {
    if IsFrame(bytes, payload) {
      BigEndianRoundTrip(|payload|);
      assert bytes[4..8] == BigEndian(|payload|);
    }
    if && FRAME_HEADER_SIZE <= |bytes|
       && bytes[..4] == FRAME_MAGIC
       && 1 <= Uint32(bytes[4..8]) <= MAX_PAYLOAD_SIZE
       && Uint32(bytes[4..8]) == |bytes| - FRAME_HEADER_SIZE
       && bytes[8..] == payload
    {
      Uint32RoundTrip(bytes[4..8]);
      assert bytes == bytes[..4] + bytes[4..8] + bytes[8..];
    }
  }

  /** A frame has one payload, and no frame is a strict prefix of another. */
  lemma FramesArePrefixFree(a: seq<Byte>, p: seq<Byte>, b: seq<Byte>, q: seq<Byte>)
    requires IsFrame(a, p) && IsFrame(b, q) && a <= b
    ensures a == b && p == q
  {
    FrameParts(a, p);
    FrameParts(b, q);
    assert b[4..8] == a[4..8];
    assert |a| == |b| && a == b[..|a|];
  }

  /** Every strict prefix and every strict extension of a frame is no frame. */
  lemma OnlyWholeFrames(payload: seq<Byte>, bytes: seq<Byte>)
    requires 1 <= |payload| <= MAX_PAYLOAD_SIZE
    requires bytes < Frame(payload) || Frame(payload) < bytes
    ensures forall read :: !IsFrame(bytes, read)
  {
    forall read
      ensures !IsFrame(bytes, read)
    {
      if IsFrame(bytes, read) {
        if bytes < Frame(payload) {
          FramesArePrefixFree(bytes, read, Frame(payload), payload);
        } else {
          FramesArePrefixFree(Frame(payload), payload, bytes, read);
        }
      }
    }
  }

  // ---- Encoding.

  method EncodeEnvelope(payload: seq<Byte>) returns (r: Result<seq<Byte>>)
    ensures |payload| > MAX_PAYLOAD_SIZE ==> r == Err
    ensures |payload| <= MAX_PAYLOAD_SIZE ==> r == Ok(Frame(payload))
  {
    if |payload| > MAX_PAYLOAD_SIZE {
      return Err;
    }
    var frame := new Byte[FRAME_HEADER_SIZE + |payload|];
    Copy(frame, 0, FRAME_MAGIC);
    assert frame[..4] == frame[..][..4] == FRAME_MAGIC;
    Copy(frame, 4, BigEndian(|payload|));
    assert frame[..8] == frame[..][..8] == FRAME_MAGIC + BigEndian(|payload|);
    assert frame[FRAME_HEADER_SIZE + |payload|..] == [];
    Copy(frame, FRAME_HEADER_SIZE, payload);
    assert frame[..] == Frame(payload);
    r := Ok(frame[..]);
  }

  // Puts the bytes of `source` at the given offset.
  method Copy(target: array<Byte>, offset: nat, source: seq<Byte>)
    requires offset + |source| <= target.Length
    modifies target
    ensures target[..] == old(target[..offset]) + source + old(target[offset + |source|..])
  {
    for i := 0 to |source|
      invariant target[..offset] == old(target[..offset])
      invariant target[offset..offset + i] == source[..i]
      invariant target[offset + i..] == old(target[offset + i..])
    {
      target[offset + i] := source[i];
      assert target[offset..offset + i + 1] == target[offset..offset + i] + [target[offset + i]];
    }
    assert target[..] == target[..offset] + target[offset..offset + |source|] + target[offset + |source|..];
  }

  // ---- Writing.

  // What one write call reports.
  datatype Report = Report(count: int, failed: bool)

  // A socket that answers write calls as its script says, and fails when the script is over.
  class Socket {
    var written: seq<Byte>
    var script: seq<Report>

    constructor (script: seq<Report>)
      ensures written == [] && this.script == script
    {
      written, this.script := [], script;
    }

    method Write(bytes: seq<Byte>) returns (report: Report)
      modifies this
      ensures old(script) == [] ==> report == Report(0, true) && script == [] && written == old(written)
      ensures old(script) != [] ==>
        && report == old(script)[0]
        && script == old(script)[1..]
        && written == old(written) + (if 0 <= report.count <= |bytes| then bytes[..report.count] else [])
    {
      if script == [] {
        return Report(0, true);
      }
      report := script[0];
      script := script[1..];
      if 0 <= report.count <= |bytes| {
        written := written + bytes[..report.count];
      }
    }
  }

  // The reports that let a writer write `count` bytes: until they are written, no failure and always some progress.
  predicate Accepted(script: seq<Report>, count: nat)
    decreases |script|
  {
    count == 0 ||
    (&& script != []
     && !script[0].failed
     && 1 <= script[0].count <= count
     && Accepted(script[1..], count - script[0].count))
  }

  predicate AllMove(script: seq<Report>) {
    forall i | 0 <= i < |script| :: !script[i].failed && script[i].count >= 1
  }

  function Moved(script: seq<Report>): int {
    if script == [] then 0 else script[0].count + Moved(script[1..])
  }

  lemma {:induction false} MovedForward(script: seq<Report>)
    requires AllMove(script)
    ensures Moved(script) >= |script|
  {
    if script != [] { MovedForward(script[1..]); }
  }

  /** The accepted reports are those of which the first ones, without failure and each with progress, add up exactly. */
  lemma {:induction false} AcceptedExactly(script: seq<Report>, count: nat)
    ensures Accepted(script, count) <==>
      exists n :: 0 <= n <= |script| && AllMove(script[..n]) && Moved(script[..n]) == count
    decreases |script|
  {
    if count == 0 {
      assert AllMove(script[..0]) && Moved(script[..0]) == 0;
    } else if Accepted(script, count) {
      var rest, left := script[1..], count - script[0].count;
      AcceptedExactly(rest, left);
      var n :| 0 <= n <= |rest| && AllMove(rest[..n]) && Moved(rest[..n]) == left;
      FirstMoves(script, n);
    } else if n :| 0 <= n <= |script| && AllMove(script[..n]) && Moved(script[..n]) == count {
      FirstMoves(script, n - 1);
      MovedForward(script[1..][..n - 1]);
      AcceptedExactly(script[1..], count - script[0].count);
    }
  }

  lemma FirstMoves(script: seq<Report>, n: nat)
    requires n < |script|
    ensures Moved(script[..n + 1]) == script[0].count + Moved(script[1..][..n])
    ensures AllMove(script[..n + 1]) <==> !script[0].failed && script[0].count >= 1 && AllMove(script[1..][..n])
  {
    assert script[..n + 1] == [script[0]] + script[1..][..n];
    assert AllMove(script[..n + 1]) ==> forall i | 0 <= i < n :: script[1..][..n][i] == script[..n + 1][i + 1];
  }

  /** Writing succeeds exactly on accepted reports, and then exactly the given bytes are written; else a prefix is. */
  method WriteImmediate(socket: Socket, bytes: seq<Byte>) returns (ok: bool)
    modifies socket
    ensures ok <==> Accepted(old(socket.script), |bytes|)
    ensures ok ==> socket.written == old(socket.written) + bytes
    ensures exists n :: 0 <= n <= |bytes| && socket.written == old(socket.written) + bytes[..n]
  {
    var remaining := bytes;
    ghost var n := 0;
    while remaining != []
      invariant 0 <= n <= |bytes| && remaining == bytes[n..]
      invariant socket.written == old(socket.written) + bytes[..n]
      invariant Accepted(socket.script, |remaining|) <==> Accepted(old(socket.script), |bytes|)
      decreases |remaining|
    {
      ghost var before := socket.written;
      var report := socket.Write(remaining);
      if 0 <= report.count <= |remaining| {
        assert before + remaining[..report.count] == old(socket.written) + bytes[..n + report.count] by {
          assert bytes[..n + report.count] == bytes[..n] + bytes[n..][..report.count];
        }
      }
      if report.failed {
        assert socket.written == before ==> socket.written == old(socket.written) + bytes[..n];
        return false;
      }
      if report.count <= 0 || report.count > |remaining| {
        assert socket.written == before + [];
        return false;
      }
      remaining := remaining[report.count..];
      n := n + report.count;
    }
    assert bytes[..n] == bytes;
    ok := true;
  }

  // ---- Reading.

  // A connection: the bytes not yet read, and whether they end in end-of-file or in an error.
  class Reader {
    var unread: seq<Byte>
    const clean: bool

    constructor (bytes: seq<Byte>, clean: bool)
      ensures unread == bytes && this.clean == clean
    {
      unread, this.clean := bytes, clean;
    }

    // Reads exactly `count` bytes or fails.
    method ReadFull(count: nat) returns (r: Result<seq<Byte>>)
      modifies this
      ensures count <= |old(unread)| ==> r == Ok(old(unread)[..count]) && unread == old(unread)[count..]
      ensures count > |old(unread)| ==> r == Err && unread == []
    {
      if count <= |unread| {
        r := Ok(unread[..count]);
        unread := unread[count..];
      } else {
        r := Err;
        unread := [];
      }
    }

    method ReadHeader() returns (r: Result<nat>)
      modifies this
      ensures r.Ok? <==>
        && FRAME_HEADER_SIZE <= |old(unread)|
        && old(unread)[..4] == FRAME_MAGIC
        && 1 <= Uint32(old(unread)[4..8]) <= MAX_PAYLOAD_SIZE
      ensures r.Ok? ==> r.value == Uint32(old(unread)[4..8]) && unread == old(unread)[8..]
    {
      var header := ReadFull(FRAME_HEADER_SIZE);
      if header.Err? {
        return Err;
      }
      assert header.value[4..] == old(unread)[4..8];
      if header.value[..4] != FRAME_MAGIC {
        return Err;
      }
      var length := Uint32(header.value[4..]);
      if length == 0 || length > MAX_PAYLOAD_SIZE {
        return Err;
      }
      r := Ok(length);
    }

    method RequireEOF() returns (ok: bool)
      modifies this
      ensures ok <==> old(unread) == [] && clean
    {
      if unread != [] {
        unread := unread[1..];
        return false;
      }
      ok := clean;
    }

    /** The payload is read exactly when the connection carries one frame and nothing else, and ends cleanly. */
    method ReadPayload() returns (r: Result<seq<Byte>>)
      modifies this
      ensures r.Ok? ==> clean && IsFrame(old(unread), r.value)
      ensures forall payload :: clean && IsFrame(old(unread), payload) ==> r == Ok(payload)
    {
      ghost var bytes := unread;
      if 8 <= |bytes| {
        FrameParts(bytes, bytes[8..]);
      }
      forall payload | IsFrame(bytes, payload)
        ensures 8 <= |bytes| && payload == bytes[8..]
      {
        FrameParts(bytes, payload);
      }
      var length := ReadHeader();
      if length.Err? {
        return Err;
      }
      var payload := ReadFull(length.value);
      if payload.Err? {
        return Err;
      }
      var ended := RequireEOF();
      if !ended {
        return Err;
      }
      assert bytes[8..][..length.value] == bytes[8..];
      r := payload;
    }
  }

  /**
   * Over every sequence of partial writes, the reader gets exactly the payload that was sent when the writer
   * succeeds, and never another payload.
   */
  method Send(payload: seq<Byte>, script: seq<Report>, clean: bool) returns (sent: bool, r: Result<seq<Byte>>)
    ensures sent <==> |payload| <= MAX_PAYLOAD_SIZE && Accepted(script, FRAME_HEADER_SIZE + |payload|)
    ensures sent && clean && 1 <= |payload| ==> r == Ok(payload)
    ensures r.Ok? ==> r.value == payload
    ensures !clean || payload == [] || |payload| > MAX_PAYLOAD_SIZE ==> r == Err
  {
    var frame := EncodeEnvelope(payload);
    if frame.Err? {
      return false, Err;
    }
    var socket := new Socket(script);
    sent := WriteImmediate(socket, frame.value);
    var reader := new Reader(socket.written, clean);
    ghost var bytes := socket.written;
    r := reader.ReadPayload();
    if r.Ok? {
      PrefixIsFrame(payload, bytes, r.value);
    }
  }

  // What arrives of a frame is read only when all of it arrives.
  lemma PrefixIsFrame(payload: seq<Byte>, bytes: seq<Byte>, read: seq<Byte>)
    requires |payload| <= MAX_PAYLOAD_SIZE && bytes <= Frame(payload) && IsFrame(bytes, read)
    ensures read == payload && payload != []
  {
    FrameParts(bytes, read);
    if payload != [] {
      FramesArePrefixFree(bytes, read, Frame(payload), payload);
    }
  }
}
