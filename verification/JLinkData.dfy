/**
 The bytes of a link (lib/jcomm.cc, inc/jcomm.h): packet framing, and the ring
 buffer that holds the bytes in flight.
 */
module JLinkData {
  import opened Common

  const BUFSZ: nat := 9000
  const PIPE_BUF: nat := 128
  const HEADER: nat := 8

  /** A stream writer waits until a PIPE_BUF-sized write would fit. */
  predicate MinWrite(bytes: nat) {
    !(bytes > BUFSZ - PIPE_BUF)
  }

  predicate FullWrite(bytes: nat, cnt: nat)
    requires bytes <= BUFSZ
  {
    !(cnt > BUFSZ - bytes)
  }

  predicate Room(packet: bool, bytes: nat, cnt: nat)
    requires bytes <= BUFSZ
  {
    if packet then FullWrite(bytes, cnt + HEADER) else MinWrite(bytes)
  }

  /** What lets a write in: a stream write, 128 bytes free in the buffer of 9000, whatever it
      brings; a packet write, room for the packet and its header of 8 bytes. */
  lemma RoomMeans(bytes: nat, cnt: nat)
    requires bytes <= BUFSZ
    ensures Room(false, bytes, cnt) <==> bytes + 128 <= 9000
    ensures Room(true, bytes, cnt) <==> bytes + 8 + cnt <= 9000
  {
  }

  /** A packet write waits for room that an empty buffer does not have exactly when
      its packet and header exceed the buffer, although up to BUFSZ bytes are let in. */
  lemma NeverRoom(cnt: nat)
    ensures (forall bytes: nat | bytes <= BUFSZ :: !Room(true, bytes, cnt)) <==> cnt > BUFSZ - HEADER
  {
    assert Room(true, 0, cnt) <==> cnt <= BUFSZ - HEADER;
  }

  // --- Framing ---

  /** `k` bytes of a number, the lowest first. */
  function LittleEndian(n: nat, k: nat): (r: seq<Byte>)
    ensures |r| == k
  {
    if k == 0 then [] else [n % 256] + LittleEndian(n / 256, k - 1)
  }

  function FromLittleEndian(s: seq<Byte>): nat {
    if s == [] then 0 else s[0] + 256 * FromLittleEndian(s[1..])
  }

  function Pow256(k: nat): nat {
    if k == 0 then 1 else 256 * Pow256(k - 1)
  }

  lemma {:induction false} RoundTrip(n: nat, k: nat)
    requires n < Pow256(k)
    ensures FromLittleEndian(LittleEndian(n, k)) == n
  {
    if k > 0 {
      RoundTrip(n / 256, k - 1);
      assert LittleEndian(n, k)[1..] == LittleEndian(n / 256, k - 1);
    }
  }

  function Header(n: nat): (r: seq<Byte>)
    ensures |r| == HEADER
  {
    LittleEndian(n, HEADER)
  }

  lemma HeaderReads(n: nat)
    requires n <= BUFSZ
    ensures FromLittleEndian(Header(n)) == n
  {
    assert Pow256(2) == 65536 && Pow256(4) == 65536 * Pow256(2) && Pow256(8) == 65536 * 65536 * Pow256(4);
    RoundTrip(n, HEADER);
  }

  /** The bytes of packets that are wholly in the buffer. */
  function Frames(ps: seq<seq<Byte>>): seq<Byte> {
    if ps == [] then [] else Header(|ps[0]|) + ps[0] + Frames(ps[1..])
  }

  lemma {:induction false} FramesAppend(ps: seq<seq<Byte>>, p: seq<Byte>)
    ensures Frames(ps + [p]) == Frames(ps) + Header(|p|) + p
  {
    if ps == [] {
      assert ps + [p] == [p] && [p][1..] == [];
    } else {
      FramesAppend(ps[1..], p);
      assert (ps + [p])[1..] == ps[1..] + [p];
    }
  }

  // --- The ring ---

  function Wrap(i: nat): (r: nat)
    requires i < 2 * BUFSZ
    ensures r < BUFSZ
  {
    if i < BUFSZ then i else i - BUFSZ
  }

  lemma WrapIsMod(i: nat)
    requires i < 2 * BUFSZ
    ensures i % BUFSZ == Wrap(i)
  {
  }

  /** `cnt` bytes of a ring from an index on, wrapping around its end. */
  ghost function Segment(ring: seq<Byte>, idx: nat, cnt: nat): (r: seq<Byte>)
    requires |ring| == BUFSZ && idx < BUFSZ && cnt <= BUFSZ
    ensures |r| == cnt
    ensures forall i :: 0 <= i < cnt ==> r[i] == ring[Wrap(idx + i)]
  {
    seq(cnt, i requires 0 <= i < cnt => ring[Wrap(idx + i)])
  }

  lemma SegmentSplit(ring: seq<Byte>, idx: nat, a: nat, b: nat)
    requires |ring| == BUFSZ && idx < BUFSZ && a + b <= BUFSZ
    ensures Segment(ring, idx, a + b) == Segment(ring, idx, a) + Segment(ring, Wrap(idx + a), b)
  {
  }

  class Ring {
    const buf: array<Byte>
    var readPtr: nat
    var bytes: nat

    ghost predicate Valid()
      reads this, buf
    {
      buf.Length == BUFSZ && readPtr < BUFSZ && bytes <= BUFSZ
    }

    /** The bytes written and not yet read. */
    ghost function Contents(): (r: seq<Byte>)
      requires Valid()
      reads this, buf
      ensures |r| == bytes
    {
      Segment(buf[..], readPtr, bytes)
    }

    constructor ()
      ensures Valid() && Contents() == [] && fresh(buf)
    {
      buf := new Byte[BUFSZ];
      readPtr, bytes := 0, 0;
    }

    /** `jlink_copyfrom`: the first `cnt` bytes, and the place behind them. */
    method CopyFrom(cnt: nat) returns (out: seq<Byte>, next: nat)
      requires Valid() && cnt <= bytes
      ensures out == Contents()[..cnt]
      ensures next < BUFSZ && Segment(buf[..], next, bytes - cnt) == Contents()[cnt..]
    {
      var cc1 := if cnt <= BUFSZ - readPtr then cnt else BUFSZ - readPtr;
      var cc2 := if cc1 == cnt then 0 else cnt - cc1;
      out := buf[readPtr..readPtr + cc1] + buf[0..cc2];
      SegmentSplit(buf[..], readPtr, cnt, bytes - cnt);
      assert out == Segment(buf[..], readPtr, cnt);
      WrapIsMod(readPtr + cnt);
      next := (readPtr + cnt) % BUFSZ;
    }

    /** `jlink_copyto`: places bytes behind the contents, which stay as they are. */
    method CopyTo(data: seq<Byte>)
      requires Valid() && bytes + |data| <= BUFSZ
      modifies buf
      ensures Segment(buf[..], readPtr, bytes + |data|) == old(Contents()) + data
    {
      WrapIsMod(readPtr + bytes);
      var idx := (readPtr + bytes) % BUFSZ;
      var cnt := |data|;
      var cc1 := if cnt <= BUFSZ - idx then cnt else BUFSZ - idx;
      var cc2 := if cc1 == cnt then 0 else cnt - cc1;
      forall i | idx <= i < idx + cc1 { buf[i] := data[i - idx]; }
      forall i | 0 <= i < cc2 { buf[i] := data[cc1 + i]; }
      Placed(old(buf[..]), buf[..], readPtr, bytes, data);
    }

    /** Reads and removes the first `cnt` bytes. */
    method Take(cnt: nat) returns (out: seq<Byte>)
      requires Valid() && cnt <= bytes
      modifies this
      ensures Valid() && out == old(Contents())[..cnt] && Contents() == old(Contents())[cnt..]
    {
      var next;
      out, next := CopyFrom(cnt);
      readPtr, bytes := next, bytes - cnt;
    }

    /** The packet part of `jlink_read`: the whole first packet, or nothing if it is
        longer than the caller's buffer. */
    method ReadPacket(cnt: nat, ghost p: seq<Byte>, ghost rest: seq<seq<Byte>>) returns (out: seq<Byte>, fits: bool)
      requires Valid() && Contents() == Frames([p] + rest) && |p| <= BUFSZ
      modifies this
      ensures Valid() && (fits <==> |p| <= cnt)
      ensures if fits then out == p && Contents() == Frames(rest) else Contents() == old(Contents())
    {
      assert Frames([p] + rest) == Header(|p|) + (p + Frames(rest)) by { assert ([p] + rest)[1..] == rest; }
      HeaderReads(|p|);
      var h, next := CopyFrom(HEADER);
      var header := FromLittleEndian(h);
      if header > cnt { return [], false; }
      readPtr, bytes := next, bytes - HEADER;
      assert Contents() == p + Frames(rest);
      out := Take(header);
      fits := true;
    }

    /** The stream part of `jlink_read` */
    method ReadStream(cnt: nat) returns (out: seq<Byte>)
      requires Valid()
      modifies this
      ensures Valid() && out + Contents() == old(Contents())
      ensures |out| == cnt || (|out| < cnt && Contents() == [])
    {
      out := Take(if cnt <= bytes then cnt else bytes);
    }

    method Put(data: seq<Byte>)
      requires Valid() && bytes + |data| <= BUFSZ
      modifies this, buf
      ensures Valid() && Contents() == old(Contents()) + data
    {
      CopyTo(data);
      bytes := bytes + |data|;
    }

    /** The packet part of `jlink_write` */
    method WritePacket(data: seq<Byte>, ghost ps: seq<seq<Byte>>)
      requires Valid() && Contents() == Frames(ps) && Room(true, bytes, |data|)
      modifies this, buf
      ensures Valid() && Contents() == Frames(ps + [data])
    {
      FramesAppend(ps, data);
      Put(Header(|data|));
      Put(data);
    }

    /** The stream part of `jlink_write`: as much as fits, and never nothing of something. */
    method WriteStream(data: seq<Byte>) returns (n: nat)
      requires Valid() && Room(false, bytes, |data|)
      modifies this, buf
      ensures Valid() && n <= |data| && Contents() == old(Contents()) + data[..n]
      ensures |data| <= PIPE_BUF ==> n == |data|
      ensures n < |data| ==> bytes == BUFSZ
    {
      var avail := BUFSZ - bytes;
      n := if |data| <= avail then |data| else avail;
      Put(data[..n]);
    }
  }

  /** A ring whose free part took in new bytes holds the old contents and then those. */
  lemma Placed(was: seq<Byte>, ring: seq<Byte>, readPtr: nat, bytes: nat, data: seq<Byte>)
    requires |was| == |ring| == BUFSZ && readPtr < BUFSZ && bytes + |data| <= BUFSZ
    requires forall j :: 0 <= j < BUFSZ ==>
      ring[j] == var k := (if j >= Wrap(readPtr + bytes) then j else j + BUFSZ) - Wrap(readPtr + bytes);
                 if k < |data| then data[k] else was[j]
    ensures Segment(ring, readPtr, bytes + |data|) == Segment(was, readPtr, bytes) + data
  {
  }
}
