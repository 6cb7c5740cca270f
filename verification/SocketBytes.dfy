// The same connection with its two streams as bytes: frames are written and read
// through `Wire`, a write is any number of moves with others between them, and it
// may stop anywhere, with part of its frame left on the stream.
//
// Every run over bytes does what some run over frames does. What is behind a frame
// that was left unfinished is never read as a request.
module SocketBytes {
  import opened Prelude
  import opened Socket
  import opened SocketAnswers
  import opened SocketLaws
  import opened Wire
  import opened Json

  /** How the two ends write and read: requests one way, replies the other. */
  datatype Codecs = Codecs(requests: Codec<Request>, replies: Codec<Reply>)

  /** A value that fits a frame reads back as itself. */
  ghost predicate RoundTrips<T(!new)>(codec: Codec<T>) {
    forall v :: |codec.encode(v)| <= MAX_FRAME ==> codec.decode(codec.encode(v)) == Some(v)
  }

  /**
   * What JSON gives of an object with named fields: only UTF-8 without zero bytes reads as one,
   * and nothing that stops before its closing brace does, with up to three bytes before it.
   */
  ghost predicate IsText<T(!new)>(codec: Codec<T>) {
    && (forall b :: codec.decode(b).Some? ==> b != [] && forall c :: c in b ==> 0 < c < 0xFD)
    && (forall before: seq<byte>, v, m :: |before| <= 3 && 0 <= m < |codec.encode(v)|
          ==> codec.decode(before + codec.encode(v)[..m]).None?)
  }

  ghost predicate Honest(codecs: Codecs) {
    RoundTrips(codecs.requests) && IsText(codecs.requests) && RoundTrips(codecs.replies)
  }

  // ---- Pieces of frames ----

  /** The first `size` bytes of a value's frame. */
  datatype Piece<T> = Piece(value: T, size: nat)

  predicate IsPiece<T>(codec: Codec<T>, p: Piece<T>) {
    |codec.encode(p.value)| <= MAX_FRAME && 0 < p.size <= |Frame(codec, p.value)|
  }

  predicate IsWhole<T>(codec: Codec<T>, p: Piece<T>) {
    p.size == |Frame(codec, p.value)|
  }

  predicate ArePieces<T(==)>(codec: Codec<T>, pieces: seq<Piece<T>>) {
    forall p :: p in pieces ==> IsPiece(codec, p)
  }

  function Bytes<T>(codec: Codec<T>, p: Piece<T>): (b: seq<byte>)
    requires IsPiece(codec, p)
    ensures |b| == p.size
  {
    Frame(codec, p.value)[..p.size]
  }

  function Stream<T(==)>(codec: Codec<T>, pieces: seq<Piece<T>>): seq<byte>
    requires ArePieces(codec, pieces)
  {
    if pieces == [] then [] else Bytes(codec, pieces[0]) + Stream(codec, pieces[1..])
  }

  /** The values written to their end. */
  function Whole<T>(codec: Codec<T>, pieces: seq<Piece<T>>): seq<T> {
    if pieces == [] then []
    else (if IsWhole(codec, pieces[0]) then [pieces[0].value] else []) + Whole(codec, pieces[1..])
  }

  /** A length is below 2^24, so every piece begins with a zero byte. */
  lemma BeginsWithZero<T>(codec: Codec<T>, pieces: seq<Piece<T>>)
    requires ArePieces(codec, pieces) && pieces != []
    ensures Stream(codec, pieces) != [] && Stream(codec, pieces)[0] == 0
  {
    assert IsPiece(codec, pieces[0]);
    assert Bytes(codec, pieces[0])[0] == 0;
  }

  predicate NoZero(b: seq<byte>) {
    forall c :: c in b ==> c != 0
  }

  lemma BothFirsts(first: seq<byte>, rest: seq<byte>, i: nat, j: nat)
    requires i < |first| && i < j <= |first + rest|
    ensures first[i] in (first + rest)[i..j]
    ensures |first| < j ==> rest[0] in (first + rest)[i..j]
  {
    var window := (first + rest)[i..j];
    assert window[0] == first[i];
    if |first| < j {
      assert window[|first| - i] == rest[0];
    }
  }

  lemma WithinFirst(first: seq<byte>, rest: seq<byte>, i: nat, j: nat)
    requires i < |first| && i < j <= |first + rest| && NoZero((first + rest)[i..j])
    requires first[0] == 0 && (rest != [] ==> rest[0] == 0)
    ensures 0 < i && j <= |first|
  {
    BothFirsts(first, rest, i, j);
  }

  /** The window from `i` to `j` is a piece's bytes from its `k`th on. */
  predicate LiesIn<T>(codec: Codec<T>, s: seq<byte>, i: nat, j: nat, p: Piece<T>, k: nat)
    requires i < j <= |s|
  {
    && 0 < k <= i && k + (j - i) <= p.size <= |Frame(codec, p.value)|
    && s[i - k..i] == Frame(codec, p.value)[..k]
    && s[i..j] == Frame(codec, p.value)[k..k + (j - i)]
  }

  lemma InFirst<T>(codec: Codec<T>, p: Piece<T>, rest: seq<byte>, i: nat, j: nat)
    requires IsPiece(codec, p) && 0 < i < j <= p.size
    ensures LiesIn(codec, Bytes(codec, p) + rest, i, j, p, i)
  {
  }

  lemma InRest<T>(codec: Codec<T>, first: seq<byte>, rest: seq<byte>, i: nat, j: nat, p: Piece<T>, k: nat)
    requires |first| <= i < j <= |first + rest| && LiesIn(codec, rest, i - |first|, j - |first|, p, k)
    ensures LiesIn(codec, first + rest, i, j, p, k)
  {
    var s := first + rest;
    assert s[i..j] == rest[i - |first|..j - |first|];
    assert s[i - k..i] == rest[i - |first| - k..i - |first|];
  }

  lemma RestNoZero(first: seq<byte>, rest: seq<byte>, i: nat, j: nat)
    requires |first| <= i < j <= |first + rest| && NoZero((first + rest)[i..j])
    ensures NoZero(rest[i - |first|..j - |first|])
  {
    assert (first + rest)[i..j] == rest[i - |first|..j - |first|];
  }

  /** So bytes without a zero all lie in one piece, behind its first byte. */
  lemma {:induction false} InOnePiece<T>(codec: Codec<T>, pieces: seq<Piece<T>>, i: nat, j: nat)
    returns (p: Piece<T>, k: nat)
    requires ArePieces(codec, pieces) && i < j <= |Stream(codec, pieces)| && NoZero(Stream(codec, pieces)[i..j])
    ensures p in pieces && LiesIn(codec, Stream(codec, pieces), i, j, p, k)
    ensures k == i ==> p == pieces[0]
    decreases |pieces|
  {
    assert IsPiece(codec, pieces[0]);
    var first, rest := Bytes(codec, pieces[0]), Stream(codec, pieces[1..]);
    BeginsWithZero(codec, pieces);
    if i < |first| {
      if pieces[1..] != [] {
        BeginsWithZero(codec, pieces[1..]);
      }
      WithinFirst(first, rest, i, j);
      InFirst(codec, pieces[0], rest, i, j);
      p, k := pieces[0], i;
    } else {
      RestNoZero(first, rest, i, j);
      p, k := InOnePiece(codec, pieces[1..], i - |first|, j - |first|);
      InRest(codec, first, rest, i, j, p, k);
    }
  }

  // ---- What is behind an unfinished frame ----

  /** A window that begins in a frame's length and ends before the frame does reads as nothing. */
  lemma StopsShort<T(!new)>(codec: Codec<T>, v: T, k: nat, n: nat)
    requires IsText(codec) && codec.encode(v) != [] && 0 < k < 4 && k + n < |Frame(codec, v)|
    ensures codec.decode(Frame(codec, v)[k..k + n]).None?
  {
    var length, text, window := ToBe32(|codec.encode(v)|), codec.encode(v), Frame(codec, v)[k..k + n];
    if k + n <= 4 {
      assert window == length[k..k + n] + text[..0];
    } else {
      assert window == length[k..] + text[..k + n - 4];
    }
  }

  /** Nor can one end with it: the bytes before it, read as a length, do not give that size. */
  lemma EndsElsewhere(length: seq<byte>, before: seq<byte>, k: nat)
    requires |length| == 4 && length[0] == 0 && |before| == 4 && 0 < k < 4
    requires forall i :: 0 <= i < k ==> before[4 - k + i] == length[i]
    requires forall i :: k <= i < 4 ==> 0 < length[i] < 0xFD
    requires FromBe32(before) <= MAX_FRAME
    ensures FromBe32(before) != FromBe32(length) + 4 - k
  {
    var l1, l2, l3 := length[1] as int, length[2] as int, length[3] as int;
    assert before[4 - k] == length[0];
    if k == 1 {
      OneIn(before[0], before[1], before[2], l1, l2, l3);
    } else if k == 2 {
      assert before[3] == length[1];
      TwoIn(before[0], before[1], l1, l2, l3);
    } else {
      assert before[2] == length[1] && before[3] == length[2];
      ThreeIn(before[0], l1, l2, l3);
    }
  }

  lemma OneIn(a: int, b: int, c: int, l1: int, l2: int, l3: int)
    requires 0 < l3 < 0xFD
    ensures a * 0x100_0000 + b * 0x1_0000 + c * 0x100 != l1 * 0x1_0000 + l2 * 0x100 + l3 + 3
  {
    var d := a * 0x1_0000 + b * 0x100 + c - l1 * 0x100 - l2;
    assert d * 0x100 != l3 + 3;
  }

  lemma TwoIn(a: int, b: int, l1: int, l2: int, l3: int)
    requires 0 <= l1 < 0x100 && 0 < l2 < 0xFD && 0 < l3 < 0xFD
    ensures a * 0x100_0000 + b * 0x1_0000 + l1 != l1 * 0x1_0000 + l2 * 0x100 + l3 + 2
  {
    var d := a * 0x100 + b - l1;
    assert d * 0x1_0000 != l2 * 0x100 + l3 + 2 - l1;
  }

  lemma ThreeIn(a: int, l1: int, l2: int, l3: int)
    requires 0 <= a && 0 <= l1 && 0 <= l2 && 0 <= l3 && a * 0x100_0000 + l1 * 0x100 + l2 <= MAX_FRAME
    ensures a * 0x100_0000 + l1 * 0x100 + l2 != l1 * 0x1_0000 + l2 * 0x100 + l3 + 1
  {
  }

  predicate StartsCut<T(==)>(codec: Codec<T>, pieces: seq<Piece<T>>) {
    pieces != [] && !IsWhole(codec, pieces[0])
  }

  lemma TextBytes<T(!new)>(codec: Codec<T>, b: seq<byte>)
    requires IsText(codec) && codec.decode(b).Some?
    ensures b != [] && NoZero(b) && forall c :: c in b ==> 0 < c < 0xFD
  {
  }

  /** The payload a reader takes the next bytes for, after a frame that was left unfinished. */
  lemma NoPayload<T(!new)>(codec: Codec<T>, pieces: seq<Piece<T>>, size: nat)
    requires RoundTrips(codec) && IsText(codec) && ArePieces(codec, pieces) && StartsCut(codec, pieces)
    requires 4 + size <= |Stream(codec, pieces)| && size == FromBe32(Stream(codec, pieces)[..4]) <= MAX_FRAME
    ensures codec.decode(Stream(codec, pieces)[4..4 + size]).None?
  {
    var s := Stream(codec, pieces);
    if codec.decode(s[4..4 + size]).Some? {
      TextBytes(codec, s[4..4 + size]);
      var p, k := InOnePiece(codec, pieces, 4, 4 + size);
      PayloadElsewhere(codec, p, k, s, size);
      assert false;
    }
  }

  /** Wherever the piece it lies in begins. */
  lemma PayloadElsewhere<T(!new)>(codec: Codec<T>, p: Piece<T>, k: nat, s: seq<byte>, size: nat)
    requires RoundTrips(codec) && IsText(codec) && IsPiece(codec, p) && (k == 4 ==> !IsWhole(codec, p))
    requires 0 < size && 4 + size <= |s| && size == FromBe32(s[..4]) <= MAX_FRAME && LiesIn(codec, s, 4, 4 + size, p, k)
    ensures codec.decode(s[4..4 + size]).None?
  {
    var before, window := s[..4], s[4..4 + size];
    var length, text := ToBe32(|codec.encode(p.value)|), codec.encode(p.value);
    LengthRoundTrip(|text|);
    assert k == 4 ==> before == length;
    if k < 4 && k + size < |Frame(codec, p.value)| {
      StopsShort(codec, p.value, k, size);
    } else if k < 4 && codec.decode(window).Some? {
      TextBytes(codec, window);
      assert forall i :: k <= i < 4 ==> length[i] == window[i - k] && window[i - k] in window;
      assert forall i :: 0 <= i < k ==> before[4 - k + i] == s[4 - k..4][i] == length[i];
      EndsElsewhere(length, before, k);
    }
  }

  /**
   * With part of a frame at its beginning, a stream gives no value, whatever frames and
   * parts of frames are behind.
   */
  lemma UnfinishedIsNotRead<T(!new)>(codec: Codec<T>, pieces: seq<Piece<T>>)
    requires RoundTrips(codec) && IsText(codec) && ArePieces(codec, pieces) && StartsCut(codec, pieces)
    ensures var r := Read(codec, Stream(codec, pieces)).0;
            r.Err? || r.value.None?
  {
    var s := Stream(codec, pieces);
    if |s| >= 4 {
      var size := FromBe32(s[..4]);
      if size <= MAX_FRAME && 4 + size <= |s| {
        NoPayload(codec, pieces, size);
      }
    }
  }

  // ---- The connection, byte by byte ----

  /** The call that holds the writer's lock, and how many bytes of its frame are out. */
  datatype Writing = Writing(id: nat, out: nat)

  /** `replyOut`: how many bytes of the next reply's frame are out. */
  datatype Link = Link(
    client: Client, server: Server, writer: Option<Writing>, up: seq<byte>, replyOut: nat, down: seq<byte>)

  const LINKED := Link(CONNECTED, SERVING, None, [], 0, [])

  /** What a task does between two points where another may run. */
  datatype Move =
    | Frameless(step: Step)
    | TakeWriter(id: nat)
    | Put(size: nat)
    | Flush
    | GiveUp(id: nat)
    | ReadRequest
    | PutReply(size: nat)
    | ReadReply

  /** The steps that touch neither stream. */
  predicate IsFrameless(step: Step) {
    step.Number? || step.Register? || step.Wake? || step.Answer? || step.StopWriting? || step.StopReading?
    || step.EndReader?
  }

  /** The frames of a link, whatever they are: what a frameless step needs of the system. */
  function Unframed(l: Link): System {
    System(l.client, l.server, [], [])
  }

  function RequestFrame(codecs: Codecs, c: Client, id: nat): seq<byte>
    requires id in c.calls
  {
    Frame(codecs.requests, c.calls[id].request)
  }

  predicate Can(l: Link, move: Move, codecs: Codecs) {
    match move
    case Frameless(step) => IsFrameless(step) && Enabled(Unframed(l), step)
    case TakeWriter(id) =>
      && l.writer.None? && At(l.client, id, Registered)
      && |codecs.requests.encode(l.client.calls[id].request)| <= MAX_FRAME
    case Put(size) =>
      && l.writer.Some? && At(l.client, l.writer.value.id, Registered)
      && 0 < size && l.writer.value.out + size <= |RequestFrame(codecs, l.client, l.writer.value.id)|
    case Flush => l.writer.Some? && At(l.client, l.writer.value.id, Delivered)
    // The write fails, a frame is too large, or the caller drops the call.
    case GiveUp(id) => At(l.client, id, Registered) || At(l.client, id, Delivered) || At(l.client, id, Awaiting)
    case ReadRequest => l.server.reading && Gives(codecs.requests, l.up)
    case PutReply(size) =>
      && l.server.writing && l.server.outbox != []
      && |codecs.replies.encode(l.server.outbox[0])| <= MAX_FRAME
      && 0 < size && l.replyOut + size <= |Frame(codecs.replies, l.server.outbox[0])|
    case ReadReply => l.client.pending.Some? && Gives(codecs.replies, l.down)
  }

  /** The bytes there are begin with a frame that can be read. */
  predicate Gives<T>(codec: Codec<T>, bytes: seq<byte>) {
    Read(codec, bytes).0.Ok? && Read(codec, bytes).0.value.Some?
  }

  function Given<T>(codec: Codec<T>, bytes: seq<byte>): T
    requires Gives(codec, bytes)
  {
    Read(codec, bytes).0.value.value
  }

  function Left<T>(codec: Codec<T>, bytes: seq<byte>): seq<byte> {
    Read(codec, bytes).1
  }

  function Next(l: Link, move: Move, codecs: Codecs, tools: set<string>): Link
    requires Can(l, move, codecs)
  {
    match move
    case Frameless(step) =>
      var s := After(Unframed(l), step, tools);
      l.(client := s.client, server := s.server)
    case TakeWriter(id) => l.(writer := Some(Writing(id, 0)))
    case Put(size) =>
      var id, out, frame := l.writer.value.id, l.writer.value.out, RequestFrame(codecs, l.client, l.writer.value.id);
      l.(up := l.up + frame[out..out + size], writer := Some(Writing(id, out + size)),
         client := if out + size == |frame| then Moved(l.client, id, Delivered) else l.client)
    case Flush => l.(writer := None, client := Moved(l.client, l.writer.value.id, Awaiting))
    case GiveUp(id) =>
      l.(writer := if l.writer.Some? && l.writer.value.id == id then None else l.writer,
         client := Moved(l.client, id, Returned(UNAVAILABLE)))
    case ReadRequest =>
      l.(server := Accepting(l.server, Given(codecs.requests, l.up)), up := Left(codecs.requests, l.up))
    case PutReply(size) =>
      var frame := Frame(codecs.replies, l.server.outbox[0]);
      var whole := l.replyOut + size == |frame|;
      l.(down := l.down + frame[l.replyOut..l.replyOut + size], replyOut := if whole then 0 else l.replyOut + size,
         server := if whole then l.server.(outbox := l.server.outbox[1..]) else l.server)
    case ReadReply =>
      l.(client := Routing(l.client, Given(codecs.replies, l.down)), down := Left(codecs.replies, l.down))
  }

  // ---- What it does to frames ----

  /** The step over frames a move completes, if it completes one. */
  function Done(l: Link, move: Move, codecs: Codecs): seq<Step>
    requires Can(l, move, codecs)
  {
    match move
    case Frameless(step) => [step]
    case TakeWriter(_) => []
    case Put(size) =>
      var w := l.writer.value;
      if w.out + size == |RequestFrame(codecs, l.client, w.id)| then [Deliver(w.id)] else []
    case Flush => [FinishWrite(l.writer.value.id)]
    case GiveUp(id) => [Leave(id)]
    case ReadRequest => [Accept]
    case PutReply(size) =>
      if l.replyOut + size == |Frame(codecs.replies, l.server.outbox[0])| then [WriteReply] else []
    case ReadReply => [Route]
  }

  /** A call in the middle of its write has its piece last on the stream. */
  predicate WriterFits(l: Link, codecs: Codecs, pieces: seq<Piece<Request>>) {
    l.writer.Some? ==>
      var w := l.writer.value;
      && w.id in l.client.calls
      && |codecs.requests.encode(l.client.calls[w.id].request)| <= MAX_FRAME
      && (0 < w.out < |RequestFrame(codecs, l.client, w.id)| ==>
           pieces != [] && Last(pieces) == Piece(l.client.calls[w.id].request, w.out))
  }

  /** The bytes sent up are pieces of frames, and of those the whole ones are the requests under way. */
  predicate UpFits(l: Link, s: System, codecs: Codecs, pieces: seq<Piece<Request>>) {
    && ArePieces(codecs.requests, pieces) && WriterFits(l, codecs, pieces)
    && l.up == Stream(codecs.requests, pieces)
    && s.requests == Whole(codecs.requests, pieces)
  }

  /** What there is of the next reply. */
  function ReplyTail(l: Link, codecs: Codecs): seq<byte>
    requires l.replyOut > 0 ==> l.server.outbox != [] && l.replyOut <= |Frame(codecs.replies, l.server.outbox[0])|
  {
    if l.replyOut > 0 then Frame(codecs.replies, l.server.outbox[0])[..l.replyOut] else []
  }

  /** The bytes sent down are the frames of the replies under way, and the beginning of the next. */
  predicate DownFits(l: Link, s: System, codecs: Codecs) {
    && (forall r :: r in s.replies ==> |codecs.replies.encode(r)| <= MAX_FRAME)
    && (l.replyOut > 0 ==>
         && l.server.outbox != [] && |codecs.replies.encode(l.server.outbox[0])| <= MAX_FRAME
         && l.replyOut < |Frame(codecs.replies, l.server.outbox[0])|)
    && l.down == Written(codecs.replies, s.replies) + ReplyTail(l, codecs)
  }

  predicate Fits(l: Link, s: System, codecs: Codecs, pieces: seq<Piece<Request>>) {
    && l.client == s.client && l.server == s.server
    && UpFits(l, s, codecs, pieces) && DownFits(l, s, codecs)
  }

  function PiecesAfter(l: Link, move: Move, codecs: Codecs, pieces: seq<Piece<Request>>): seq<Piece<Request>>
    requires Can(l, move, codecs)
    requires WriterFits(l, codecs, pieces)
  {
    match move
    case Put(size) =>
      var w := l.writer.value;
      var p := Piece(l.client.calls[w.id].request, w.out + size);
      if w.out == 0 || pieces == [] then pieces + [p] else Init(pieces) + [p]
    case ReadRequest => if pieces == [] then [] else pieces[1..]
    case _ => pieces
  }

  lemma {:induction false} OneMore<T>(codec: Codec<T>, pieces: seq<Piece<T>>, p: Piece<T>)
    requires ArePieces(codec, pieces) && IsPiece(codec, p)
    ensures ArePieces(codec, pieces + [p])
    ensures Stream(codec, pieces + [p]) == Stream(codec, pieces) + Bytes(codec, p)
    ensures Whole(codec, pieces + [p]) == Whole(codec, pieces) + if IsWhole(codec, p) then [p.value] else []
    decreases |pieces|
  {
    if pieces == [] {
      assert Stream(codec, [p]) == Bytes(codec, p) + Stream(codec, []);
    } else {
      OneMore(codec, pieces[1..], p);
      assert (pieces + [p])[1..] == pieces[1..] + [p];
    }
  }

  lemma FramelessDown(l: Link, s: System, step: Step, codecs: Codecs, tools: set<string>)
    requires l.client == s.client && l.server == s.server && DownFits(l, s, codecs) && Can(l, Frameless(step), codecs)
    ensures Enabled(s, step)
    ensures DownFits(Next(l, Frameless(step), codecs, tools), After(s, step, tools), codecs)
  {
    var outbox, after := l.server.outbox, After(s, step, tools).server.outbox;
    assert outbox != [] ==> after != [] && after[0] == outbox[0];
  }

  lemma FramelessFits(l: Link, s: System, step: Step, codecs: Codecs, tools: set<string>, pieces: seq<Piece<Request>>)
    requires CallsInv(s) && Fits(l, s, codecs, pieces) && Can(l, Frameless(step), codecs)
    ensures Enabled(s, step)
    ensures Fits(Next(l, Frameless(step), codecs, tools), After(s, step, tools), codecs, pieces)
  {
    FramelessDown(l, s, step, codecs, tools);
    CallsStayStep(s, step, tools);
  }

  lemma Further(before: seq<byte>, frame: seq<byte>, out: nat, more: nat)
    requires out <= more <= |frame|
    ensures before + frame[..out] + frame[out..more] == before + frame[..more]
  {
    assert frame[..more] == frame[..out] + frame[out..more];
  }

  /** The last piece with more of its frame. */
  lemma MoreOfLast<T>(codec: Codec<T>, pieces: seq<Piece<T>>, p: Piece<T>)
    requires ArePieces(codec, pieces) && IsPiece(codec, p)
    requires pieces != [] && Last(pieces).value == p.value && Last(pieces).size < p.size
    ensures ArePieces(codec, Init(pieces) + [p])
    ensures Stream(codec, Init(pieces) + [p])
         == Stream(codec, pieces) + Frame(codec, p.value)[Last(pieces).size..p.size]
    ensures Whole(codec, Init(pieces) + [p]) == Whole(codec, pieces) + if IsWhole(codec, p) then [p.value] else []
  {
    assert pieces == Init(pieces) + [Last(pieces)] && Last(pieces) in pieces;
    OneMore(codec, Init(pieces), Last(pieces));
    OneMore(codec, Init(pieces), p);
    Further(Stream(codec, Init(pieces)), Frame(codec, p.value), Last(pieces).size, p.size);
  }

  lemma PutStream(l: Link, s: System, size: nat, codecs: Codecs, pieces: seq<Piece<Request>>)
    requires UpFits(l, s, codecs, pieces) && Can(l, Put(size), codecs)
    ensures var w := l.writer.value;
            var frame, after := RequestFrame(codecs, l.client, w.id), PiecesAfter(l, Put(size), codecs, pieces);
            && ArePieces(codecs.requests, after)
            && Stream(codecs.requests, after) == l.up + frame[w.out..w.out + size]
            && Whole(codecs.requests, after)
                 == s.requests + (if w.out + size == |frame| then [l.client.calls[w.id].request] else [])
            && after != [] && Last(after) == Piece(l.client.calls[w.id].request, w.out + size)
  {
    var w := l.writer.value;
    var p := Piece(l.client.calls[w.id].request, w.out + size);
    if w.out == 0 {
      OneMore(codecs.requests, pieces, p);
    } else {
      MoreOfLast(codecs.requests, pieces, p);
    }
  }

  lemma PutFits(l: Link, s: System, size: nat, codecs: Codecs, tools: set<string>, pieces: seq<Piece<Request>>)
    requires Fits(l, s, codecs, pieces) && Can(l, Put(size), codecs)
    ensures CanRun(s, Done(l, Put(size), codecs), tools)
    ensures Fits(Next(l, Put(size), codecs, tools), Run(s, Done(l, Put(size), codecs), tools), codecs,
                 PiecesAfter(l, Put(size), codecs, pieces))
  {
    PutStream(l, s, size, codecs, pieces);
    var w := l.writer.value;
    if w.out + size == |RequestFrame(codecs, l.client, w.id)| {
      OneStep(s, Deliver(w.id), tools);
    }
  }

  /** The next request is read exactly if the stream begins with a whole frame, and it is that frame's. */
  lemma ReadsExactly<T(!new)>(codec: Codec<T>, pieces: seq<Piece<T>>)
    requires RoundTrips(codec) && IsText(codec) && ArePieces(codec, pieces)
    ensures Gives(codec, Stream(codec, pieces)) <==> pieces != [] && IsWhole(codec, pieces[0])
    ensures Gives(codec, Stream(codec, pieces)) ==>
              && Given(codec, Stream(codec, pieces)) == pieces[0].value
              && Left(codec, Stream(codec, pieces)) == Stream(codec, pieces[1..])
  {
    if pieces != [] {
      if IsWhole(codec, pieces[0]) {
        assert IsPiece(codec, pieces[0]);
        assert Bytes(codec, pieces[0]) == Frame(codec, pieces[0].value);
        ReadWritten(codec, pieces[0].value, Stream(codec, pieces[1..]));
      } else {
        UnfinishedIsNotRead(codec, pieces);
      }
    }
  }

  lemma ReadRequestFits(l: Link, s: System, codecs: Codecs, tools: set<string>, pieces: seq<Piece<Request>>)
    requires Honest(codecs) && Fits(l, s, codecs, pieces) && Can(l, ReadRequest, codecs)
    ensures Enabled(s, Accept)
    ensures Fits(Next(l, ReadRequest, codecs, tools), After(s, Accept, tools), codecs, pieces[1..])
  {
    ReadsExactly(codecs.requests, pieces);
    assert forall p :: p in pieces[1..] ==> p in pieces;
    if l.writer.Some? && |pieces| > 1 {
      assert Last(pieces) == Last(pieces[1..]);
    }
  }

  lemma {:induction false} WrittenMore<T>(codec: Codec<T>, values: seq<T>, v: T)
    ensures Written(codec, values + [v]) == Written(codec, values) + Frame(codec, v)
    decreases |values|
  {
    if values == [] {
      assert [v][1..] == [] && [] + [v] == [v];
    } else {
      WrittenMore(codec, values[1..], v);
      assert (values + [v])[1..] == values[1..] + [v];
    }
  }

  lemma MoreOfNext<T>(codec: Codec<T>, values: seq<T>, v: T, out: nat, more: nat)
    requires out <= more <= |Frame(codec, v)|
    ensures Written(codec, values) + Frame(codec, v)[..out] + Frame(codec, v)[out..more]
         == Written(codec, values) + Frame(codec, v)[..more]
    ensures more == |Frame(codec, v)|
            ==> Written(codec, values) + Frame(codec, v)[..more] == Written(codec, values + [v])
  {
    var frame := Frame(codec, v);
    Further(Written(codec, values), frame, out, more);
    if more == |frame| {
      WrittenMore(codec, values, v);
      assert frame[..more] == frame;
    }
  }

  lemma PutReplyFits(l: Link, s: System, size: nat, codecs: Codecs, tools: set<string>, pieces: seq<Piece<Request>>)
    requires Fits(l, s, codecs, pieces) && Can(l, PutReply(size), codecs)
    ensures CanRun(s, Done(l, PutReply(size), codecs), tools)
    ensures Fits(Next(l, PutReply(size), codecs, tools), Run(s, Done(l, PutReply(size), codecs), tools), codecs, pieces)
  {
    var reply := l.server.outbox[0];
    assert ReplyTail(l, codecs) == Frame(codecs.replies, reply)[..l.replyOut];
    MoreOfNext(codecs.replies, s.replies, reply, l.replyOut, l.replyOut + size);
    if l.replyOut + size == |Frame(codecs.replies, reply)| {
      OneStep(s, WriteReply, tools);
      assert Written(codecs.replies, s.replies + [reply]) + [] == Written(codecs.replies, s.replies + [reply]);
    }
  }

  lemma NextWritten<T(!new)>(codec: Codec<T>, values: seq<T>, tail: seq<byte>)
    requires RoundTrips(codec) && !Gives(codec, tail)
    requires forall v :: v in values ==> |codec.encode(v)| <= MAX_FRAME
    ensures Gives(codec, Written(codec, values) + tail) <==> values != []
    ensures values != [] ==>
              && Given(codec, Written(codec, values) + tail) == values[0]
              && Left(codec, Written(codec, values) + tail) == Written(codec, values[1..]) + tail
  {
    if values == [] {
      assert Written(codec, values) + tail == tail;
    } else {
      assert values[0] in values;
      var rest := Written(codec, values[1..]) + tail;
      assert Written(codec, values) + tail == Frame(codec, values[0]) + rest;
      ReadWritten(codec, values[0], rest);
    }
  }

  lemma TailGivesNothing(l: Link, s: System, codecs: Codecs)
    requires DownFits(l, s, codecs)
    ensures !Gives(codecs.replies, ReplyTail(l, codecs))
  {
    if l.replyOut > 0 {
      ReadCutShort(codecs.replies, l.server.outbox[0], l.replyOut);
    }
  }

  lemma ReadReplyFits(l: Link, s: System, codecs: Codecs, tools: set<string>, pieces: seq<Piece<Request>>)
    requires Honest(codecs) && CallsInv(s) && Fits(l, s, codecs, pieces) && Can(l, ReadReply, codecs)
    ensures Enabled(s, Route)
    ensures Fits(Next(l, ReadReply, codecs, tools), After(s, Route, tools), codecs, pieces)
  {
    TailGivesNothing(l, s, codecs);
    NextWritten(codecs.replies, s.replies, ReplyTail(l, codecs));
    assert forall r :: r in s.replies[1..] ==> r in s.replies;
    CallsStayStep(s, Route, tools);
  }

  lemma FlushFits(l: Link, s: System, codecs: Codecs, tools: set<string>, pieces: seq<Piece<Request>>)
    requires Fits(l, s, codecs, pieces) && Can(l, Flush, codecs)
    ensures CanRun(s, Done(l, Flush, codecs), tools)
    ensures Fits(Next(l, Flush, codecs, tools), Run(s, Done(l, Flush, codecs), tools), codecs, pieces)
  {
    OneStep(s, FinishWrite(l.writer.value.id), tools);
  }

  lemma GiveUpFits(l: Link, s: System, id: nat, codecs: Codecs, tools: set<string>, pieces: seq<Piece<Request>>)
    requires Fits(l, s, codecs, pieces) && Can(l, GiveUp(id), codecs)
    ensures CanRun(s, Done(l, GiveUp(id), codecs), tools)
    ensures Fits(Next(l, GiveUp(id), codecs, tools), Run(s, Done(l, GiveUp(id), codecs), tools), codecs, pieces)
  {
    OneStep(s, Leave(id), tools);
  }

  /** Every move does to the frames what its step over frames does, or nothing. */
  lemma MoveFits(l: Link, s: System, move: Move, codecs: Codecs, tools: set<string>, pieces: seq<Piece<Request>>)
    requires Honest(codecs) && CallsInv(s) && Fits(l, s, codecs, pieces) && Can(l, move, codecs)
    ensures CanRun(s, Done(l, move, codecs), tools)
    ensures Fits(Next(l, move, codecs, tools), Run(s, Done(l, move, codecs), tools), codecs,
                 PiecesAfter(l, move, codecs, pieces))
  {
    match move
    case Frameless(step) =>
      FramelessFits(l, s, step, codecs, tools, pieces);
      OneStep(s, step, tools);
    case TakeWriter(_) =>
    case Put(size) => PutFits(l, s, size, codecs, tools, pieces);
    case Flush => FlushFits(l, s, codecs, tools, pieces);
    case GiveUp(id) => GiveUpFits(l, s, id, codecs, tools, pieces);
    case ReadRequest =>
      ReadRequestFits(l, s, codecs, tools, pieces);
      OneStep(s, Accept, tools);
    case PutReply(size) => PutReplyFits(l, s, size, codecs, tools, pieces);
    case ReadReply =>
      ReadReplyFits(l, s, codecs, tools, pieces);
      OneStep(s, Route, tools);
  }

  // ---- Runs ----

  predicate CanMove(l: Link, moves: seq<Move>, codecs: Codecs, tools: set<string>)
    decreases |moves|
  {
    moves == [] || (Can(l, moves[0], codecs) && CanMove(Next(l, moves[0], codecs, tools), moves[1..], codecs, tools))
  }

  function Moves(l: Link, moves: seq<Move>, codecs: Codecs, tools: set<string>): Link
    requires CanMove(l, moves, codecs, tools)
    decreases |moves|
  {
    if moves == [] then l else Moves(Next(l, moves[0], codecs, tools), moves[1..], codecs, tools)
  }

  /** The steps give a call up, or end the reader, only where the moves do. */
  ghost predicate NothingElse(steps: seq<Step>, moves: seq<Move>) {
    && (forall id :: GaveUp(steps, id) ==> GiveUp(id) in moves)
    && (EndReader in steps ==> Frameless(EndReader) in moves)
  }

  lemma DoneIsNothingElse(l: Link, moves: seq<Move>, codecs: Codecs, rest: seq<Step>)
    requires moves != [] && Can(l, moves[0], codecs) && NothingElse(rest, moves[1..])
    ensures NothingElse(Done(l, moves[0], codecs) + rest, moves)
  {
    var first := Done(l, moves[0], codecs);
    assert forall m :: m in moves[1..] ==> m in moves;
    assert forall step :: step in first + rest <==> step in first || step in rest;
    forall id | GaveUp(first + rest, id)
      ensures GiveUp(id) in moves
    {
      var step :| step in first + rest && GivesUp(step, id);
      if step in rest {
        assert GaveUp(rest, id);
      } else {
        assert moves[0] == GiveUp(id);
      }
    }
  }

  /** Any moves over bytes amount to steps over frames. */
  lemma {:induction false} MovesFit(l: Link, s: System, moves: seq<Move>, codecs: Codecs, tools: set<string>,
      pieces: seq<Piece<Request>>) returns (steps: seq<Step>, after: seq<Piece<Request>>)
    requires Honest(codecs) && Inv(s, tools) && Fits(l, s, codecs, pieces) && CanMove(l, moves, codecs, tools)
    ensures CanRun(s, steps, tools) && Fits(Moves(l, moves, codecs, tools), Run(s, steps, tools), codecs, after)
    ensures NothingElse(steps, moves)
    decreases |moves|
  {
    if moves == [] {
      steps, after := [], pieces;
    } else {
      MoveFits(l, s, moves[0], codecs, tools, pieces);
      var first := Done(l, moves[0], codecs);
      RunKeepsInv(s, first, tools);
      var rest;
      rest, after := MovesFit(Next(l, moves[0], codecs, tools), Run(s, first, tools), moves[1..], codecs, tools,
          PiecesAfter(l, moves[0], codecs, pieces));
      RunOn(s, first, rest, tools);
      DoneIsNothingElse(l, moves, codecs, rest);
      steps := first + rest;
    }
  }

  lemma LinkedFits(codecs: Codecs, tools: set<string>)
    ensures Inv(START, tools) && Fits(LINKED, START, codecs, [])
  {
  }

  /**
   * From the beginning: every run over bytes ends with both ends as some run over frames
   * leaves them, which gives up a call or ends the reader only where it does.
   */
  lemma BytesRefineFrames(moves: seq<Move>, codecs: Codecs, tools: set<string>) returns (steps: seq<Step>)
    requires Honest(codecs) && CanMove(LINKED, moves, codecs, tools)
    ensures CanRun(START, steps, tools) && NothingElse(steps, moves)
    ensures var l, s := Moves(LINKED, moves, codecs, tools), Run(START, steps, tools);
            l.client == s.client && l.server == s.server
  {
    LinkedFits(codecs, tools);
    var pieces;
    steps, pieces := MovesFit(LINKED, START, moves, codecs, tools, []);
  }

  /** And a call nobody gives up, on a connection whose reader goes on, returns nothing but its answer. */
  lemma BytesReturnTheAnswer(moves: seq<Move>, codecs: Codecs, tools: set<string>, id: nat)
    requires Honest(codecs) && CanMove(LINKED, moves, codecs, tools)
    requires GiveUp(id) !in moves && Frameless(EndReader) !in moves
    requires id in Moves(LINKED, moves, codecs, tools).client.calls
    ensures var l := Moves(LINKED, moves, codecs, tools); var phase := l.client.calls[id].phase;
            phase.Returned? ==> id in l.server.answered && phase.outcome == l.server.answered[id]
  {
    var steps := BytesRefineFrames(moves, codecs, tools);
    if Moves(LINKED, moves, codecs, tools).client.calls[id].phase.Returned? {
      ReturnsExactly(steps, tools, id);
    }
  }

  /**
   * Over bytes too, wherever writes stop and calls are dropped: a call returns what the
   * handler gave for its own request, the one answer there is for a tool that does not
   * exist, or that the app is not there.
   */
  lemma BytesReturnTheirOwn(moves: seq<Move>, codecs: Codecs, tools: set<string>, id: nat)
    requires Honest(codecs) && CanMove(LINKED, moves, codecs, tools)
    requires id in Moves(LINKED, moves, codecs, tools).client.calls
    ensures var l := Moves(LINKED, moves, codecs, tools); var call := l.client.calls[id];
            && call.request.id == id
            && (call.phase.Returned? && call.phase.outcome != UNAVAILABLE ==>
                && id in l.server.answered && l.server.answered[id] == call.phase.outcome
                && (call.request.tool !in tools ==> call.phase.outcome == UnknownTool(call.request.tool)))
            && (l.client.pending.None? && !call.phase.Numbered? ==> !call.channel.Open?)
  {
    var steps := BytesRefineFrames(moves, codecs, tools);
    CallsReturnTheirOwn(steps, tools, id);
  }

  // ---- After a frame left unfinished ----

  /** The values of the whole frames before the first piece that is not one. */
  function Leading<T>(codec: Codec<T>, pieces: seq<Piece<T>>): (values: seq<T>)
    ensures |values| <= |pieces|
  {
    if pieces == [] || !IsWhole(codec, pieces[0]) then []
    else [pieces[0].value] + Leading(codec, pieces[1..])
  }

  /** The writer is in the middle of a frame. */
  predicate MidFrame(l: Link, codecs: Codecs) {
    && l.writer.Some? && l.writer.value.id in l.client.calls
    && 0 < l.writer.value.out < |RequestFrame(codecs, l.client, l.writer.value.id)|
  }

  /** Part of a frame is on the stream up that nobody goes on with. */
  predicate Abandoned(l: Link, codecs: Codecs, pieces: seq<Piece<Request>>) {
    var n := |Leading(codecs.requests, pieces)|;
    n < |pieces| && (MidFrame(l, codecs) ==> n < |pieces| - 1)
  }

  /** The requests that are served, or whole on the stream before any part of a frame. */
  function Servable(l: Link, codecs: Codecs, pieces: seq<Piece<Request>>): set<Request> {
    l.server.serving + set r | r in Leading(codecs.requests, pieces)
  }

  predicate IsIdOf(requests: set<Request>, id: nat) {
    exists r :: r in requests && r.id == id
  }

  lemma {:induction false} LeadingWithMore<T>(codec: Codec<T>, pieces: seq<Piece<T>>, p: Piece<T>)
    requires |Leading(codec, pieces)| < |pieces|
    ensures Leading(codec, pieces + [p]) == Leading(codec, pieces)
    decreases |pieces|
  {
    if IsWhole(codec, pieces[0]) {
      LeadingWithMore(codec, pieces[1..], p);
      assert (pieces + [p])[1..] == pieces[1..] + [p];
    }
  }

  lemma {:induction false} LeadingUpToLast<T>(codec: Codec<T>, pieces: seq<Piece<T>>)
    requires |Leading(codec, pieces)| < |pieces| - 1
    ensures Leading(codec, Init(pieces)) == Leading(codec, pieces)
    decreases |pieces|
  {
    if IsWhole(codec, pieces[0]) {
      LeadingUpToLast(codec, pieces[1..]);
      assert Init(pieces)[1..] == Init(pieces[1..]);
    }
  }

  lemma PutStaysAbandoned(l: Link, size: nat, codecs: Codecs, tools: set<string>, pieces: seq<Piece<Request>>)
    requires WriterFits(l, codecs, pieces) && Can(l, Put(size), codecs) && Abandoned(l, codecs, pieces)
    ensures var after := PiecesAfter(l, Put(size), codecs, pieces);
            && Leading(codecs.requests, after) == Leading(codecs.requests, pieces)
            && Abandoned(Next(l, Put(size), codecs, tools), codecs, after)
  {
    var w := l.writer.value;
    var p := Piece(l.client.calls[w.id].request, w.out + size);
    if w.out == 0 {
      LeadingWithMore(codecs.requests, pieces, p);
    } else {
      LeadingUpToLast(codecs.requests, pieces);
      LeadingWithMore(codecs.requests, Init(pieces), p);
    }
  }

  lemma ReadStaysAbandoned(l: Link, s: System, codecs: Codecs, tools: set<string>, pieces: seq<Piece<Request>>)
    requires Honest(codecs) && Fits(l, s, codecs, pieces) && Can(l, ReadRequest, codecs) && Abandoned(l, codecs, pieces)
    ensures var next := Next(l, ReadRequest, codecs, tools);
            && pieces != [] && Abandoned(next, codecs, pieces[1..])
            && Servable(next, codecs, pieces[1..]) == Servable(l, codecs, pieces)
  {
    ReadsExactly(codecs.requests, pieces);
    var all, rest := Leading(codecs.requests, pieces), Leading(codecs.requests, pieces[1..]);
    assert forall r :: r in all <==> r == all[0] || r in rest;
  }

  lemma FramelessStaysAbandoned(l: Link, s: System, step: Step, codecs: Codecs, tools: set<string>,
      pieces: seq<Piece<Request>>)
    requires CallsInv(s) && Fits(l, s, codecs, pieces) && Can(l, Frameless(step), codecs)
    requires Abandoned(l, codecs, pieces)
    ensures Abandoned(Next(l, Frameless(step), codecs, tools), codecs, pieces)
  {
    CallsStayStep(s, step, tools);
  }

  lemma OtherStaysAbandoned(l: Link, move: Move, codecs: Codecs, tools: set<string>, pieces: seq<Piece<Request>>)
    requires Can(l, move, codecs) && Abandoned(l, codecs, pieces)
    requires !move.Frameless? && !move.Put? && !move.ReadRequest?
    ensures Abandoned(Next(l, move, codecs, tools), codecs, pieces)
    ensures Next(l, move, codecs, tools).server.serving == l.server.serving
  {
    var next := Next(l, move, codecs, tools);
    if MidFrame(next, codecs) {
      assert next.client.calls[next.writer.value.id].request == l.client.calls[next.writer.value.id].request;
    }
  }

  /** No move adds to what can be served. */
  lemma AbandonedStays(l: Link, s: System, move: Move, codecs: Codecs, tools: set<string>, pieces: seq<Piece<Request>>)
    requires Honest(codecs) && CallsInv(s) && Fits(l, s, codecs, pieces) && Can(l, move, codecs)
    requires Abandoned(l, codecs, pieces)
    ensures var next, after := Next(l, move, codecs, tools), PiecesAfter(l, move, codecs, pieces);
            Abandoned(next, codecs, after) && Servable(next, codecs, after) <= Servable(l, codecs, pieces)
  {
    match move
    case Frameless(step) => FramelessStaysAbandoned(l, s, step, codecs, tools, pieces);
    case Put(size) => PutStaysAbandoned(l, size, codecs, tools, pieces);
    case ReadRequest => ReadStaysAbandoned(l, s, codecs, tools, pieces);
    case _ => OtherStaysAbandoned(l, move, codecs, tools, pieces);
  }

  /** And only what is served is answered. */
  lemma AnswersServed(l: Link, move: Move, codecs: Codecs, tools: set<string>, id: nat)
    requires Can(l, move, codecs) && id in Next(l, move, codecs, tools).server.answered
    ensures id in l.server.answered || IsIdOf(l.server.serving, id)
  {
    if move.Frameless? && move.step.Answer? {
      assert move.step.request in l.server.serving;
    }
  }

  /** Once part of a frame is left on the stream, no request behind it is answered, in any run. */
  lemma {:induction false} UnfinishedEndsRequests(l: Link, s: System, moves: seq<Move>, codecs: Codecs,
      tools: set<string>, pieces: seq<Piece<Request>>)
    requires Honest(codecs) && Inv(s, tools) && Fits(l, s, codecs, pieces) && Abandoned(l, codecs, pieces)
    requires CanMove(l, moves, codecs, tools)
    ensures forall id :: id in Moves(l, moves, codecs, tools).server.answered
              ==> id in l.server.answered || IsIdOf(Servable(l, codecs, pieces), id)
    decreases |moves|
  {
    if moves != [] {
      var first := Done(l, moves[0], codecs);
      MoveFits(l, s, moves[0], codecs, tools, pieces);
      AbandonedStays(l, s, moves[0], codecs, tools, pieces);
      RunKeepsInv(s, first, tools);
      var next, after := Next(l, moves[0], codecs, tools), PiecesAfter(l, moves[0], codecs, pieces);
      UnfinishedEndsRequests(next, Run(s, first, tools), moves[1..], codecs, tools, after);
      forall id | id in Moves(l, moves, codecs, tools).server.answered
        ensures id in l.server.answered || IsIdOf(Servable(l, codecs, pieces), id)
      {
        if id in next.server.answered {
          AnswersServed(l, moves[0], codecs, tools, id);
        }
      }
    }
  }

  lemma {:induction false} LeadingIsWhole<T>(codec: Codec<T>, pieces: seq<Piece<T>>)
    ensures forall v :: v in Leading(codec, pieces) ==> v in Whole(codec, pieces)
    decreases |pieces|
  {
    if pieces != [] && IsWhole(codec, pieces[0]) {
      LeadingIsWhole(codec, pieces[1..]);
    }
  }

  lemma {:induction false} LastIsCut<T>(codec: Codec<T>, pieces: seq<Piece<T>>)
    requires pieces != [] && !IsWhole(codec, Last(pieces))
    ensures |Leading(codec, pieces)| < |pieces|
    decreases |pieces|
  {
    if |pieces| > 1 {
      LastIsCut(codec, pieces[1..]);
    }
  }

  /** What is answered or can be, was sent whole. */
  lemma ServableIsSent(l: Link, s: System, codecs: Codecs, pieces: seq<Piece<Request>>, id: nat)
    requires RequestsInv(s) && Fits(l, s, codecs, pieces)
    requires id in l.server.answered || IsIdOf(Servable(l, codecs, pieces), id)
    ensures id in l.client.calls && SentBy(l.client, l.client.calls[id].request)
  {
    LeadingIsWhole(codecs.requests, pieces);
  }

  /** The piece of a call dropped in the middle of its write stays on the stream. */
  lemma DropAbandons(l: Link, codecs: Codecs, tools: set<string>, pieces: seq<Piece<Request>>)
    requires WriterFits(l, codecs, pieces) && MidFrame(l, codecs) && Can(l, GiveUp(l.writer.value.id), codecs)
    ensures var next := Next(l, GiveUp(l.writer.value.id), codecs, tools);
            && Abandoned(next, codecs, pieces)
            && Servable(next, codecs, pieces) == Servable(l, codecs, pieces)
            && next.server == l.server
  {
    LastIsCut(codecs.requests, pieces);
  }

  lemma ReturnedIsAnswered(l: Link, s: System, moves: seq<Move>, codecs: Codecs, tools: set<string>,
      pieces: seq<Piece<Request>>, id: nat)
    requires Honest(codecs) && Inv(s, tools) && Fits(l, s, codecs, pieces) && CanMove(l, moves, codecs, tools)
    requires id in Moves(l, moves, codecs, tools).client.calls
    ensures var after := Moves(l, moves, codecs, tools);
            after.client.calls[id].phase.Returned? && after.client.calls[id].phase.outcome != UNAVAILABLE
            ==> id in after.server.answered
  {
    var steps, _ := MovesFit(l, s, moves, codecs, tools, pieces);
    RunKeepsInv(s, steps, tools);
    var end := Run(s, steps, tools);
    assert CallInv(end, id, end.client.calls[id]);
  }

  lemma NotSentNotAnswered(l: Link, s: System, later: seq<Move>, codecs: Codecs, tools: set<string>,
      pieces: seq<Piece<Request>>, id: nat)
    requires Honest(codecs) && Inv(s, tools) && Fits(l, s, codecs, pieces)
    requires MidFrame(l, codecs) && Can(l, GiveUp(l.writer.value.id), codecs)
    requires CanMove(Next(l, GiveUp(l.writer.value.id), codecs, tools), later, codecs, tools)
    requires id in l.client.calls ==> !SentBy(l.client, l.client.calls[id].request)
    ensures var after := Moves(Next(l, GiveUp(l.writer.value.id), codecs, tools), later, codecs, tools);
            id in after.client.calls && after.client.calls[id].phase.Returned?
            ==> after.client.calls[id].phase.outcome == UNAVAILABLE
  {
    var drop := GiveUp(l.writer.value.id);
    var next := Next(l, drop, codecs, tools);
    var s1 := Run(s, Done(l, drop, codecs), tools);
    DropAbandons(l, codecs, tools, pieces);
    GiveUpFits(l, s, l.writer.value.id, codecs, tools, pieces);
    RunKeepsInv(s, Done(l, drop, codecs), tools);
    UnfinishedEndsRequests(next, s1, later, codecs, tools, pieces);
    if id in Moves(next, later, codecs, tools).client.calls {
      ReturnedIsAnswered(next, s1, later, codecs, tools, pieces, id);
    }
    if id in l.server.answered || IsIdOf(Servable(l, codecs, pieces), id) {
      ServableIsSent(l, s, codecs, pieces, id);
    }
  }

  /**
   * In any run, dropping a call in the middle of its write ends the connection for every
   * call whose frame was not out whole by then: whatever follows, it returns that the app
   * is not there, or does not return.
   */
  lemma DroppedMidWrite(earlier: seq<Move>, later: seq<Move>, codecs: Codecs, tools: set<string>, id: nat)
    requires Honest(codecs) && CanMove(LINKED, earlier, codecs, tools)
    requires var l := Moves(LINKED, earlier, codecs, tools);
             && MidFrame(l, codecs) && Can(l, GiveUp(l.writer.value.id), codecs)
             && CanMove(Next(l, GiveUp(l.writer.value.id), codecs, tools), later, codecs, tools)
    requires var l := Moves(LINKED, earlier, codecs, tools);
             id in l.client.calls ==> !SentBy(l.client, l.client.calls[id].request)
    ensures var l := Moves(LINKED, earlier, codecs, tools);
            var after := Moves(Next(l, GiveUp(l.writer.value.id), codecs, tools), later, codecs, tools);
            id in after.client.calls && after.client.calls[id].phase.Returned?
            ==> after.client.calls[id].phase.outcome == UNAVAILABLE
  {
    var l := Moves(LINKED, earlier, codecs, tools);
    LinkedFits(codecs, tools);
    var steps, pieces := MovesFit(LINKED, START, earlier, codecs, tools, []);
    RunKeepsInv(START, steps, tools);
    NotSentNotAnswered(l, Run(START, steps, tools), later, codecs, tools, pieces, id);
  }

  /** A first call, with one byte of its frame out. */
  function FirstByte(tool: string, arguments: Value): seq<Move> {
    [Frameless(Number(tool, arguments))] + ([Frameless(Register(1))] + ([TakeWriter(1)] + [Put(1)]))
  }

  lemma MoveThen(l: Link, move: Move, rest: seq<Move>, codecs: Codecs, tools: set<string>)
    requires Can(l, move, codecs) && CanMove(Next(l, move, codecs, tools), rest, codecs, tools)
    ensures CanMove(l, [move] + rest, codecs, tools)
    ensures Moves(l, [move] + rest, codecs, tools) == Moves(Next(l, move, codecs, tools), rest, codecs, tools)
  {
    assert ([move] + rest)[1..] == rest;
  }

  /** Such a call can be dropped there. */
  lemma CanDropMidWrite(tool: string, arguments: Value, codecs: Codecs, tools: set<string>)
    requires |codecs.requests.encode(Request(1, tool, arguments))| <= MAX_FRAME
    ensures CanMove(LINKED, FirstByte(tool, arguments), codecs, tools)
    ensures var l := Moves(LINKED, FirstByte(tool, arguments), codecs, tools);
            MidFrame(l, codecs) && Can(l, GiveUp(l.writer.value.id), codecs)
  {
    var a, b := Frameless(Number(tool, arguments)), Frameless(Register(1));
    var numbered := Next(LINKED, a, codecs, tools);
    var registered := Next(numbered, b, codecs, tools);
    var writing := Next(registered, TakeWriter(1), codecs, tools);
    MoveThen(writing, Put(1), [], codecs, tools);
    MoveThen(registered, TakeWriter(1), [Put(1)], codecs, tools);
    MoveThen(numbered, b, [TakeWriter(1)] + [Put(1)], codecs, tools);
    MoveThen(LINKED, a, [b] + ([TakeWriter(1)] + [Put(1)]), codecs, tools);
    assert [Put(1)] + [] == [Put(1)];
  }
}
