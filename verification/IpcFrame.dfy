/** Frames on the local socket: a payload behind its length (daemon/ipc/frame.go). */
module IpcFrame {
  import opened Bytes

  /** A payload longer than this has no length prefix. */
  const MaxUint32: nat := 0xFFFF_FFFF

  /** Four bytes, most significant first. */
  function PutUint32(n: nat): (r: seq<byte>)
    requires n <= MaxUint32
    ensures |r| == 4
  {
    [(n / 0x100_0000) as byte, (n / 0x1_0000 % 0x100) as byte, (n / 0x100 % 0x100) as byte, (n % 0x100) as byte]
  }

  function Uint32(b: seq<byte>): (n: nat)
    requires |b| == 4
    ensures n <= MaxUint32
  {
    b[0] as nat * 0x100_0000 + b[1] as nat * 0x1_0000 + b[2] as nat * 0x100 + b[3] as nat
  }

  lemma LengthRoundTrip(n: nat)
    requires n <= MaxUint32
    ensures Uint32(PutUint32(n)) == n
  {
    var a, b, c := n / 0x100_0000, n / 0x1_0000, n / 0x100;
    assert n == c * 0x100 + n % 0x100;
    assert c == b * 0x100 + c % 0x100;
    assert b == a * 0x100 + b % 0x100;
  }

  /** Byte strings of one length, compared from the first byte on. */
  predicate Before(a: seq<byte>, b: seq<byte>) {
    exists i :: 0 <= i < |a| == |b| && a[..i] == b[..i] && a[i] < b[i]
  }

  /** Most significant first: lengths compare as their four bytes do. */
  lemma LengthsInOrder(m: nat, n: nat)
    requires m <= MaxUint32 && n <= MaxUint32
    ensures m < n <==> Before(PutUint32(m), PutUint32(n))
  {
    LengthRoundTrip(m);
    LengthRoundTrip(n);
    var a, b := PutUint32(m), PutUint32(n);
    hide PutUint32;
    if m < n {
      var i := FirstApart(a, b);
    } else if m > n {
      var i := FirstApart(b, a);
    }
  }

  /** Where the bytes of the smaller number first differ from the larger one's. */
  lemma FirstApart(a: seq<byte>, b: seq<byte>) returns (i: nat)
    requires |a| == |b| == 4 && Uint32(a) < Uint32(b)
    ensures i < 4 && a[..i] == b[..i] && a[i] < b[i] && Before(a, b) && !Before(b, a)
  {
    i := if a[0] != b[0] then 0 else if a[1] != b[1] then 1 else if a[2] != b[2] then 2 else 3;
    assert a[..i] == b[..i];
    forall j | 0 <= j < 4 && b[..j] == a[..j]
      ensures a[j] <= b[j]
    {
      SameBefore(a, b, i, j);
      SameBefore(b, a, j, i);
    }
  }

  lemma SameBefore(a: seq<byte>, b: seq<byte>, i: nat, j: nat)
    requires i < |a| == |b| && a[..i] == b[..i]
    ensures j < i ==> a[j] == b[j]
  {
    assert j < i ==> a[..i][j] == b[..i][j];
  }

  function Framed(payload: seq<byte>): seq<byte>
    requires |payload| <= MaxUint32
  {
    PutUint32(|payload|) + payload
  }

  /** How a read ends. Closed is the end between frames; CutShort is the end inside one. */
  datatype Read = Frame(payload: seq<byte>) | Closed | CutShort | NoPayload | TooLarge

  /** What a read of some stream gives, and what it leaves of the stream. */
  function ReadOne(data: seq<byte>, limit: nat): (Read, seq<byte>) {
    if data == [] then (Closed, [])
    else if |data| < 4 then (CutShort, [])
    else
      var n := Uint32(data[..4]);
      if n == 0 then (NoPayload, data[4..])
      else if n > limit then (TooLarge, data[4..])
      else if |data| - 4 < n then (CutShort, [])
      else (Frame(data[4..4 + n]), data[4 + n..])
  }

  class Stream {
    var data: seq<byte>

    constructor ()
      ensures data == []
    {
      data := [];
    }

    /** Writes an encoded frame; false, and nothing written, when it is too long to have a length. */
    method WriteEncoded(payload: seq<byte>) returns (ok: bool)
      modifies this
      ensures ok <==> |payload| <= MaxUint32
      ensures data == if ok then old(data) + Framed(payload) else old(data)
    {
      if |payload| > MaxUint32 {
        return false;
      }
      var buf := new byte[4 + |payload|](_ => 0);
      var prefix := PutUint32(|payload|);
      for i := 0 to 4
        modifies buf
        invariant buf[..i] == prefix[..i]
      {
        buf[i] := prefix[i];
      }
      for i := 0 to |payload|
        modifies buf
        invariant buf[..4] == prefix && buf[4..4 + i] == payload[..i]
      {
        buf[4 + i] := payload[i];
      }
      assert payload[..|payload|] == payload;
      assert buf[4..4 + |payload|] == payload;
      assert buf[..] == buf[..4] + buf[4..4 + |payload|];
      assert buf[..] == Framed(payload);
      data := data + buf[..];
      return true;
    }

    /** Takes n bytes, or all there are when there are fewer. */
    method ReadFull(n: nat) returns (got: seq<byte>)
      modifies this
      ensures |got| == Min(n, |old(data)|)
      ensures got == old(data)[..|got|] && data == old(data)[|got|..]
    {
      var k := Min(n, |data|);
      got := data[..k];
      data := data[k..];
    }

    /** One frame off the stream. Of one that is too long only the length is taken. */
    method ReadFrame(limit: nat) returns (r: Read)
      modifies this
      ensures (r, data) == ReadOne(old(data), limit)
    {
      var prefix := ReadFull(4);
      if |prefix| < 4 {
        return if prefix == [] then Closed else CutShort;
      }
      var n := Uint32(prefix);
      if n == 0 {
        return NoPayload;
      }
      if n > limit {
        return TooLarge;
      }
      ghost var all := old(data);
      var payload := ReadFull(n);
      assert payload == all[4..][..|payload|] == all[4..4 + |payload|];
      assert data == all[4..][|payload|..] == all[4 + |payload|..];
      if |payload| < n {
        return CutShort;
      }
      return Frame(payload);
    }
  }

  /** What is written reads back, with what follows untouched, if and only if it is not empty and within the limit. */
  lemma ReadsBack(payload: seq<byte>, rest: seq<byte>, limit: nat)
    requires |payload| <= MaxUint32
    ensures ReadOne(Framed(payload) + rest, limit) == (Frame(payload), rest) <==> 1 <= |payload| <= limit
    ensures |payload| > limit ==> ReadOne(Framed(payload) + rest, limit) == (TooLarge, payload + rest)
    ensures payload == [] && limit >= 0 ==> ReadOne(Framed(payload) + rest, limit) == (NoPayload, rest)
  {
    hide Uint32, PutUint32;
    LengthRoundTrip(|payload|);
    var data := Framed(payload) + rest;
    assert data[..4] == PutUint32(|payload|);
    assert data[4..] == payload + rest;
    assert data[4..4 + |payload|] == payload;
    assert data[4 + |payload|..] == rest;
  }

  predicate Sendable(payloads: seq<seq<byte>>, limit: nat) {
    forall p :: p in payloads ==> 1 <= |p| <= limit && |p| <= MaxUint32
  }

  function FramedAll(payloads: seq<seq<byte>>, limit: nat): seq<byte>
    requires Sendable(payloads, limit)
  {
    if payloads == [] then [] else Framed(payloads[0]) + FramedAll(payloads[1..], limit)
  }

  /** Reading until the stream ends or a frame is refused. */
  function ReadAll(data: seq<byte>, limit: nat): (seq<seq<byte>>, Read)
    decreases |data|
  {
    var (r, rest) := ReadOne(data, limit);
    if r.Frame? then
      var (more, end) := ReadAll(rest, limit);
      ([r.payload] + more, end)
    else ([], r)
  }

  /** How many of the frames the first k bytes hold whole. */
  function WholeIn(payloads: seq<seq<byte>>, k: nat): (n: nat)
    ensures n <= |payloads|
  {
    if payloads == [] || k < 4 + |payloads[0]| then 0 else 1 + WholeIn(payloads[1..], k - 4 - |payloads[0]|)
  }

  /** The first k bytes end between two frames. */
  predicate EndsBetween(payloads: seq<seq<byte>>, k: nat) {
    k == 0 || (payloads != [] && k >= 4 + |payloads[0]| && EndsBetween(payloads[1..], k - 4 - |payloads[0]|))
  }

  /**
   However much of a stream of frames arrives, what is read is the frames that arrived whole, in order, and the end
   says whether the stream was cut between two frames or inside one.
   */
  lemma {:induction false} CutAnywhere(payloads: seq<seq<byte>>, limit: nat, k: nat)
    requires Sendable(payloads, limit) && k <= |FramedAll(payloads, limit)|
    ensures ReadAll(FramedAll(payloads, limit)[..k], limit).0 == payloads[..WholeIn(payloads, k)]
    ensures ReadAll(FramedAll(payloads, limit)[..k], limit).1 ==
            if EndsBetween(payloads, k) then Closed else CutShort
    decreases |payloads|
  {
    hide Uint32, PutUint32;
    if payloads == [] || k == 0 {
      assert FramedAll(payloads, limit)[..k] == [];
    } else {
      var first, others := payloads[0], payloads[1..];
      var all := FramedAll(payloads, limit);
      var data := all[..k];
      var size := 4 + |first|;
      if k >= size {
        assert data == Framed(first) + FramedAll(others, limit)[..k - size];
        ReadsBack(first, FramedAll(others, limit)[..k - size], limit);
        CutAnywhere(others, limit, k - size);
        assert payloads[..WholeIn(payloads, k)] == [first] + others[..WholeIn(others, k - size)];
      } else if k >= 4 {
        LengthRoundTrip(|first|);
        assert data[..4] == PutUint32(|first|);
      }
    }
  }
}
