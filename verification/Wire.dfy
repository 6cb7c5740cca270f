// Length-prefixed frames over a byte stream (crates/agent-mcp/src/wire.rs).
module Wire {
  import opened Prelude

  const MAX_FRAME: nat := 8 * 1024 * 1024

  datatype WireError = Io | BadJson | TooLarge(size: nat)

  /** How a value becomes the bytes of a frame, and what bytes read back as. */
  datatype Codec<!T> = Codec(encode: T -> seq<byte>, decode: seq<byte> -> Option<T>)

  /** `(len as u32).to_be_bytes()`. */
  function ToBe32(n: nat): (b: seq<byte>)
    ensures |b| == 4
  {
    [n / 0x100_0000 % 256, n / 0x1_0000 % 256, n / 0x100 % 256, n % 256]
  }

  function FromBe32(b: seq<byte>): nat
    requires |b| == 4
  {
    b[0] as int * 0x100_0000 + b[1] as int * 0x1_0000 + b[2] as int * 0x100 + b[3]
  }

  function Frame<T>(codec: Codec<T>, value: T): seq<byte> {
    ToBe32(|codec.encode(value)|) + codec.encode(value)
  }

  /** One `read_frame`: what it answers, and the bytes left. */
  function Read<T>(codec: Codec<T>, bytes: seq<byte>): (Result<Option<T>, WireError>, seq<byte>) {
    if |bytes| < 4 then (Ok(None), [])
    else
      var size := FromBe32(bytes[..4]);
      if size > MAX_FRAME then (Err(TooLarge(size)), bytes[4..])
      else if |bytes| < 4 + size then (Err(Io), [])
      else
        match codec.decode(bytes[4..4 + size])
        case Some(value) => (Ok(Some(value)), bytes[4 + size..])
        case None => (Err(BadJson), bytes[4 + size..])
  }

  /** One direction of a connection: the bytes in it up to its end. */
  class Pipe {
    var bytes: seq<byte>

    constructor ()
      ensures bytes == []
    {
      bytes := [];
    }

    /** Writes a frame; with `room` the connection takes only that many bytes and then fails. */
    method WriteFrame<T>(codec: Codec<T>, value: T, room: Option<nat>) returns (r: Result<(), WireError>)
      modifies this
      ensures r == Err(TooLarge(|codec.encode(value)|)) <==> |codec.encode(value)| > MAX_FRAME
      ensures r.Ok? ==> room.None? && bytes == old(bytes) + Frame(codec, value)
      ensures r.Err? && r.error.TooLarge? ==> bytes == old(bytes)
      ensures r.Err? ==> exists k :: 0 <= k <= |Frame(codec, value)| && bytes == old(bytes) + Frame(codec, value)[..k]
      ensures r.Ok? || r.error.TooLarge? || room.Some?
    {
      var payload := codec.encode(value);
      var frame := Frame(codec, value);
      if |payload| > MAX_FRAME {
        assert bytes == bytes + frame[..0];
        return Err(TooLarge(|payload|));
      }
      if room.Some? {
        var k := if room.value <= |frame| then room.value else |frame|;
        bytes := bytes + frame[..k];
        return Err(Io);
      }
      bytes := bytes + ToBe32(|payload|);
      bytes := bytes + payload;
      return Ok(());
    }

    /** Fills `buf`; at the end of the stream, fails and leaves nothing. */
    method ReadExact(buf: array<byte>) returns (full: bool)
      modifies this, buf
      ensures full <==> old(|bytes|) >= buf.Length
      ensures full ==> buf[..] == old(bytes[..buf.Length]) && bytes == old(bytes[buf.Length..])
      ensures !full ==> bytes == []
    {
      for i := 0 to buf.Length
        invariant i <= old(|bytes|)
        invariant buf[..i] == old(bytes[..i])
        invariant bytes == old(bytes[i..])
      {
        if bytes == [] {
          return false;
        }
        buf[i] := bytes[0];
        bytes := bytes[1..];
      }
      full := true;
    }

    method ReadFrame<T>(codec: Codec<T>) returns (r: Result<Option<T>, WireError>)
      modifies this
      ensures (r, bytes) == Read(codec, old(bytes))
    {
      var header := new byte[4];
      var full := ReadExact(header);
      if !full {
        return Ok(None);
      }
      var size := FromBe32(header[..]);
      if size > MAX_FRAME {
        return Err(TooLarge(size));
      }
      var body := new byte[size];
      full := ReadExact(body);
      if !full {
        return Err(Io);
      }
      assert body[..] == old(bytes[4..4 + size]);
      match codec.decode(body[..])
      case Some(value) => r := Ok(Some(value));
      case None => r := Err(BadJson);
    }

    /** The reading loop of both ends: frames until the first answer that is none. */
    method ReadFrames<T>(codec: Codec<T>) returns (values: seq<T>, stop: Result<(), WireError>)
      modifies this
      ensures (values, stop) == ReadAll(codec, old(bytes))
    {
      values := [];
      ReadAllThen(codec, values, bytes);
      while true
        invariant ReadAll(codec, old(bytes)) == Then(codec, values, bytes)
        decreases |bytes|
      {
        ReadAllThen(codec, values, bytes);
        var r := ReadFrame(codec);
        match r
        case Ok(Some(value)) => values := values + [value];
        case Ok(None) => return values, Ok(());
        case Err(e) => return values, Err(e);
      }
    }
  }

  /** What a reader that has `values` ends with, given what is still in the stream. */
  function Then<T>(codec: Codec<T>, values: seq<T>, bytes: seq<byte>): (seq<T>, Result<(), WireError>) {
    (values + ReadAll(codec, bytes).0, ReadAll(codec, bytes).1)
  }

  lemma ReadAllThen<T>(codec: Codec<T>, values: seq<T>, bytes: seq<byte>)
    ensures var (r, rest) := Read(codec, bytes);
            && (values == [] ==> Then(codec, values, bytes) == ReadAll(codec, bytes))
            && (r.Ok? && r.value.Some? ==> Then(codec, values, bytes) == Then(codec, values + [r.value.value], rest))
            && (r == Ok(None) ==> Then(codec, values, bytes) == (values, Ok(())))
            && (r.Err? ==> Then(codec, values, bytes) == (values, Err(r.error)))
  {
    var (r, rest) := Read(codec, bytes);
    assert [] + ReadAll(codec, bytes).0 == ReadAll(codec, bytes).0;
    assert values + [] == values;
    if r.Ok? && r.value.Some? {
      assert values + ([r.value.value] + ReadAll(codec, rest).0) == values + [r.value.value] + ReadAll(codec, rest).0;
    }
  }

  /** The values of the frames in `bytes`, and how reading them stops. */
  function ReadAll<T>(codec: Codec<T>, bytes: seq<byte>): (seq<T>, Result<(), WireError>)
    decreases |bytes|
  {
    match Read(codec, bytes)
    case (Ok(Some(value)), rest) =>
      var (more, stop) := ReadAll(codec, rest);
      ([value] + more, stop)
    case (Ok(None), _) => ([], Ok(()))
    case (Err(e), _) => ([], Err(e))
  }

  /** A frame is refused exactly if its four bytes say more than eight mebibytes, whatever follows. */
  lemma TooLargeExactly<T>(codec: Codec<T>, bytes: seq<byte>)
    ensures var (r, rest) := Read(codec, bytes);
            (r.Err? && r.error.TooLarge?)
            <==> |bytes| >= 4
                 && bytes[0] as int * 16777216 + bytes[1] as int * 65536 + bytes[2] as int * 256 + bytes[3] > 8388608
  {
  }

  // ---- Laws ----

  lemma LengthRoundTrip(n: nat)
    requires n < 0x1_0000_0000
    ensures FromBe32(ToBe32(n)) == n
  {
    assert n / 0x100_0000 < 256;
    assert n / 0x1_0000 == n / 0x100_0000 * 256 + n / 0x1_0000 % 256;
    assert n / 0x100 == n / 0x1_0000 * 256 + n / 0x100 % 256;
    assert n == n / 0x100 * 256 + n % 256;
  }

  /** Values that fit a frame and read back as themselves. */
  ghost predicate Carried<T(!new)>(codec: Codec<T>, values: seq<T>) {
    forall v :: v in values ==> |codec.encode(v)| <= MAX_FRAME && codec.decode(codec.encode(v)) == Some(v)
  }

  function Written<T>(codec: Codec<T>, values: seq<T>): seq<byte> {
    if values == [] then [] else Frame(codec, values[0]) + Written(codec, values[1..])
  }

  lemma ReadWritten<T(!new)>(codec: Codec<T>, v: T, rest: seq<byte>)
    requires Carried(codec, [v])
    ensures Read(codec, Frame(codec, v) + rest) == (Ok(Some(v)), rest)
  {
    assert v in [v];
    var payload := codec.encode(v);
    var bytes := Frame(codec, v) + rest;
    LengthRoundTrip(|payload|);
    assert bytes[..4] == ToBe32(|payload|);
    assert bytes[4..4 + |payload|] == payload;
    assert bytes[4 + |payload|..] == rest;
  }

  /** A frame cut short is never read: nothing inside the length, an error inside the body. */
  lemma ReadCutShort<T(!new)>(codec: Codec<T>, v: T, n: nat)
    requires |codec.encode(v)| <= MAX_FRAME && n < |Frame(codec, v)|
    ensures Read(codec, Frame(codec, v)[..n]).0 == if n < 4 then Ok(None) else Err(Io)
  {
    if n >= 4 {
      LengthRoundTrip(|codec.encode(v)|);
      assert Frame(codec, v)[..n][..4] == ToBe32(|codec.encode(v)|);
    }
  }

  function Cut<T>(codec: Codec<T>, values: seq<T>, n: nat): (k: nat)
    ensures k <= |values|
  {
    if values == [] || n < |Frame(codec, values[0])| then 0
    else 1 + Cut(codec, values[1..], n - |Frame(codec, values[0])|)
  }

  /** `Cut` counts the frames wholly within the first `n` bytes. */
  lemma {:induction false} CutIsWhole<T>(codec: Codec<T>, values: seq<T>, n: nat)
    requires n <= |Written(codec, values)|
    ensures var k := Cut(codec, values, n);
            && |Written(codec, values[..k])| <= n
            && (k < |values| ==> n < |Written(codec, values[..k + 1])|)
    decreases |values|
  {
    if values != [] {
      var size := |Frame(codec, values[0])|;
      if n < size {
        assert values[..1][1..] == [];
      } else {
        var k := Cut(codec, values, n);
        CutIsWhole(codec, values[1..], n - size);
        assert values[..k][1..] == values[1..][..k - 1];
        if k < |values| {
          assert values[..k + 1][1..] == values[1..][..k];
        }
      }
    }
  }

  function Stop(inside: nat): Result<(), WireError> {
    if inside < 4 then Ok(()) else Err(Io)
  }

  lemma ReadWhole<T(!new)>(codec: Codec<T>, v: T, rest: seq<byte>, values: seq<T>, stop: Result<(), WireError>)
    requires Carried(codec, [v]) && ReadAll(codec, rest) == (values, stop)
    ensures ReadAll(codec, Frame(codec, v) + rest) == ([v] + values, stop)
  {
    ReadWritten(codec, v, rest);
  }

  lemma ReadWithinFirst<T(!new)>(codec: Codec<T>, values: seq<T>, n: nat)
    requires Carried(codec, values) && values != [] && n < |Frame(codec, values[0])|
    ensures n <= |Written(codec, values)| && ReadAll(codec, Written(codec, values)[..n]) == ([], Stop(n))
  {
    assert values[0] in values;
    assert Written(codec, values)[..n] == Frame(codec, values[0])[..n];
    ReadCutShort(codec, values[0], n);
  }

  lemma ReadPastFirst<T(!new)>(codec: Codec<T>, values: seq<T>, n: nat, k: nat, stop: Result<(), WireError>)
    requires Carried(codec, values) && values != [] && 0 < k <= |values|
    requires |Frame(codec, values[0])| <= n <= |Written(codec, values)|
    requires ReadAll(codec, Written(codec, values[1..])[..n - |Frame(codec, values[0])|])
            == (values[1..][..k - 1], stop)
    ensures ReadAll(codec, Written(codec, values)[..n]) == (values[..k], stop)
  {
    assert values[0] in values;
    WrittenFirst(codec, values, n, k);
    ReadWhole(codec, values[0], Written(codec, values[1..])[..n - |Frame(codec, values[0])|], values[1..][..k - 1],
        stop);
  }

  ghost predicate PrefixReads<T(!new)>(codec: Codec<T>, values: seq<T>, n: nat)
    requires n <= |Written(codec, values)|
  {
    var whole := values[..Cut(codec, values, n)];
    && |Written(codec, whole)| <= n
    && ReadAll(codec, Written(codec, values)[..n]) == (whole, Stop(n - |Written(codec, whole)|))
  }

  lemma PrefixReadsPast<T(!new)>(codec: Codec<T>, values: seq<T>, n: nat)
    requires Carried(codec, values) && values != [] && |Frame(codec, values[0])| <= n <= |Written(codec, values)|
    requires PrefixReads(codec, values[1..], n - |Frame(codec, values[0])|)
    ensures PrefixReads(codec, values, n)
  {
    var k := Cut(codec, values, n);
    WrittenFirst(codec, values, n, k);
    ReadPastFirst(codec, values, n, k, Stop(n - |Written(codec, values[..k])|));
  }

  /**
   * Reading any beginning of what was written gives exactly the values whose frames are
   * wholly in it, then stops: cleanly within a length, with an error within a body.
   */
  lemma {:induction false} ReadAnyPrefix<T(!new)>(codec: Codec<T>, values: seq<T>, n: nat)
    requires Carried(codec, values) && n <= |Written(codec, values)|
    ensures PrefixReads(codec, values, n)
    decreases |values|
  {
    if values != [] {
      if n < |Frame(codec, values[0])| {
        ReadWithinFirst(codec, values, n);
      } else {
        assert forall v :: v in values[1..] ==> v in values;
        ReadAnyPrefix(codec, values[1..], n - |Frame(codec, values[0])|);
        PrefixReadsPast(codec, values, n);
      }
    }
  }

  lemma WrittenFirst<T>(codec: Codec<T>, values: seq<T>, n: nat, k: nat)
    requires values != [] && |Frame(codec, values[0])| <= n <= |Written(codec, values)| && 0 < k <= |values|
    ensures var rest, size := values[1..], |Frame(codec, values[0])|;
            && values[..k] == [values[0]] + rest[..k - 1]
            && Written(codec, values)[..n] == Frame(codec, values[0]) + Written(codec, rest)[..n - size]
            && |Written(codec, values[..k])| == size + |Written(codec, rest[..k - 1])|
  {
    TakePast(Frame(codec, values[0]), Written(codec, values[1..]), n);
    WrittenSome(codec, values, k);
  }

  lemma WrittenSome<T>(codec: Codec<T>, values: seq<T>, k: nat)
    requires 0 < k <= |values|
    ensures |Written(codec, values[..k])| == |Frame(codec, values[0])| + |Written(codec, values[1..][..k - 1])|
  {
    var some := values[..k];
    assert some[0] == values[0] && some[1..] == values[1..][..k - 1];
    WrittenStep(codec, some);
  }

  lemma WrittenStep<T>(codec: Codec<T>, values: seq<T>)
    requires values != []
    ensures |Written(codec, values)| == |Frame(codec, values[0])| + |Written(codec, values[1..])|
  {
  }

  lemma TakePast(a: seq<byte>, b: seq<byte>, n: nat)
    requires |a| <= n <= |a + b|
    ensures (a + b)[..n] == a + b[..n - |a|]
  {
  }

  lemma {:induction false} CutAtTheEnd<T>(codec: Codec<T>, values: seq<T>)
    ensures Cut(codec, values, |Written(codec, values)|) == |values|
    decreases |values|
  {
    if values != [] {
      CutAtTheEnd(codec, values[1..]);
    }
  }

  lemma FramesRoundTrip<T(!new)>(codec: Codec<T>, values: seq<T>)
    requires Carried(codec, values)
    ensures ReadAll(codec, Written(codec, values)) == (values, Ok(()))
  {
    var bytes := Written(codec, values);
    CutAtTheEnd(codec, values);
    ReadAnyPrefix(codec, values, |bytes|);
    assert bytes[..|bytes|] == bytes && values[..|values|] == values;
  }

  /** Payloads laid end to end, each behind its length. */
  function Packed(payloads: seq<seq<byte>>): seq<byte> {
    if payloads == [] then [] else ToBe32(|payloads[0]|) + payloads[0] + Packed(payloads[1..])
  }

  /** Whatever the stream holds, the values read are those of the payloads it begins with. */
  lemma {:induction false} ReadsOnlyWhatIsThere<T(!new)>(codec: Codec<T>, bytes: seq<byte>)
    returns (payloads: seq<seq<byte>>)
    ensures var values := ReadAll(codec, bytes).0;
            && |payloads| == |values|
            && Packed(payloads) <= bytes
            && forall i :: 0 <= i < |values|
                 ==> |payloads[i]| <= MAX_FRAME && codec.decode(payloads[i]) == Some(values[i])
    decreases |bytes|
  {
    match Read(codec, bytes)
    case (Ok(Some(value)), rest) =>
      var size := FromBe32(bytes[..4]);
      var more := ReadsOnlyWhatIsThere(codec, rest);
      payloads := [bytes[4..4 + size]] + more;
      LengthReadsBack(bytes[..4]);
      assert payloads[1..] == more;
      assert bytes == bytes[..4] + bytes[4..4 + size] + rest;
      assert Packed(payloads) == bytes[..4] + bytes[4..4 + size] + Packed(more);
    case _ =>
      payloads := [];
  }

  lemma LengthReadsBack(b: seq<byte>)
    requires |b| == 4
    ensures ToBe32(FromBe32(b)) == b
  {
    var n := FromBe32(b);
    assert n / 0x100 == b[0] as int * 0x1_0000 + b[1] as int * 0x100 + b[2];
    assert n / 0x1_0000 == b[0] as int * 0x100 + b[1];
    assert n / 0x100_0000 == b[0];
  }
}
