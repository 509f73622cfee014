/**
 The mutation broker's binary protocol: big-endian numbers, length-prefixed frames,
 and the bounded request decoder.
 */
module BrokerWire {
  import opened Basics
  import opened Text

  type Bytes = seq<Byte>
  type Path = seq<Bytes>

  const VERSION: Byte := 1
  const OP_LIST: Byte := 1
  const OP_READ: Byte := 2
  const OP_REPLACE: Byte := 3
  const STATUS_OK: Byte := 0
  const STATUS_ERROR: Byte := 1
  const FLAG_VERIFIED_PRIVATE_FALLBACK: Byte := 1
  const MAX_FRAME := 16 * 1024 * 1024 + 64 * 1024
  const MAX_FILE := 16 * 1024 * 1024
  const MAX_COMPONENTS := 128
  const MAX_COMPONENT := 255
  const MAX_PATH := 4096
  const MAX_LIST_ENTRIES := 8192
  const SLASH: Byte := 47
  const DOT: Byte := 46

  datatype ErrorCode = Protocol | InvalidPath | Unsupported | Integrity | NotFound | WrongType | Io | Bounds

  datatype Result<+T> = Ok(value: T) | Err(code: ErrorCode)

  // ---------------------------------------------------------------- big-endian numbers

  function Pow256(k: nat): nat { if k == 0 then 1 else 0x100 * Pow256(k - 1) }

  function BigEndian(n: nat, width: nat): (s: Bytes)
    ensures |s| == width
  {
    if width == 0 then [] else BigEndian(n / 0x100, width - 1) + [n % 0x100]
  }

  function FromBigEndian(s: Bytes): nat {
    if s == [] then 0 else 0x100 * FromBigEndian(s[..|s| - 1]) + s[|s| - 1]
  }

  lemma {:induction false} FromAfterBigEndian(n: nat, width: nat)
    requires n < Pow256(width)
    ensures FromBigEndian(BigEndian(n, width)) == n
  {
    if width > 0 {
      FromAfterBigEndian(n / 0x100, width - 1);
      assert BigEndian(n, width)[..width - 1] == BigEndian(n / 0x100, width - 1);
    }
  }

  lemma {:induction false} BigEndianAfterFrom(s: Bytes)
    ensures FromBigEndian(s) < Pow256(|s|)
    ensures BigEndian(FromBigEndian(s), |s|) == s
  {
    if s != [] {
      var init, last := s[..|s| - 1], s[|s| - 1];
      BigEndianAfterFrom(init);
      assert (0x100 * FromBigEndian(init) + last) / 0x100 == FromBigEndian(init);
      assert s == init + [last];
    }
  }

  lemma Widths()
    ensures Pow256(2) == U16_LIMIT && Pow256(4) == U32_LIMIT
  {
    assert Pow256(1) == 0x100 && Pow256(3) == 0x1_000000;
  }

  // ---------------------------------------------------------------- decoding steps

  /** A decoded value and the bytes after it. */
  datatype Parsed<+T> = Good(value: T, rest: Bytes) | Bad(code: ErrorCode)

  function Take(s: Bytes, n: nat): Parsed<Bytes> {
    if n > |s| then Bad(Protocol) else Good(s[..n], s[n..])
  }

  function Number(s: Bytes, width: nat): Parsed<nat> {
    match Take(s, width)
    case Bad(e) => Bad(e)
    case Good(digits, rest) => Good(FromBigEndian(digits), rest)
  }

  function Payload(s: Bytes, maximum: nat): Parsed<Bytes> {
    match Number(s, 4)
    case Bad(e) => Bad(e)
    case Good(length, rest) => if length > maximum then Bad(Bounds) else Take(rest, length)
  }

  predicate BadComponent(c: Bytes) {
    c == [DOT] || c == [DOT, DOT] || SLASH in c || 0 in c
  }

  /** One length-prefixed component, given the length of the joined path before it. */
  function Component(s: Bytes, total: nat): Parsed<Bytes> {
    match Number(s, 2)
    case Bad(e) => Bad(e)
    case Good(length, body) =>
      if length == 0 then Bad(InvalidPath)
      else if length > MAX_COMPONENT then Bad(Bounds)
      else match Take(body, length)
        case Bad(e) => Bad(e)
        case Good(component, rest) =>
          if BadComponent(component) then Bad(InvalidPath)
          else if total + length > MAX_PATH then Bad(Bounds)
          else Good(component, rest)
  }

  /** The components still to come, with the length of the joined path so far. */
  function Components(s: Bytes, count: nat, total: nat): Parsed<Path>
    decreases count
  {
    if count == 0 then Good([], s)
    else match Component(s, total)
      case Bad(e) => Bad(e)
      case Good(component, tail) =>
        match Components(tail, count - 1, total + |component|)
        case Bad(e) => Bad(e)
        case Good(others, rest) => Good([component] + others, rest)
  }

  function PathOf(s: Bytes, allowEmpty: bool): Parsed<Path> {
    match Number(s, 2)
    case Bad(e) => Bad(e)
    case Good(count, rest) =>
      if count == 0 && !allowEmpty then Bad(InvalidPath)
      else if count > MAX_COMPONENTS then Bad(Bounds)
      else Components(rest, count, if count == 0 then 0 else count - 1)
  }

  // ---------------------------------------------------------------- requests

  datatype Request =
    | List(fallback: bool, path: Path)
    | Read(fallback: bool, path: Path)
    | Replace(fallback: bool, path: Path, operationId: Bytes, replacement: Bytes)

  function AtEnd<T>(value: T, rest: Bytes): Result<T> {
    if rest == [] then Ok(value) else Err(Protocol)
  }

  function Body(opcode: Byte, fallback: bool, path: Path, rest: Bytes): Result<Request> {
    if opcode == OP_LIST then AtEnd(List(fallback, path), rest)
    else if opcode == OP_READ then AtEnd(Read(fallback, path), rest)
    else if opcode == OP_REPLACE then
      match Take(rest, 16)
      case Bad(e) => Err(e)
      case Good(operationId, rest) =>
        match Payload(rest, MAX_FILE)
        case Bad(e) => Err(e)
        case Good(replacement, rest) => AtEnd(Replace(fallback, path, operationId, replacement), rest)
    else Err(Protocol)
  }

  datatype Envelope = Envelope(opcode: Byte, fallback: bool)

  /** Version, opcode, flags and a reserved zero. */
  function HeaderOf(frame: Bytes): Parsed<Envelope> {
    match Take(frame, 4)
    case Bad(e) => Bad(e)
    case Good(header, rest) =>
      if header[0] != VERSION || header[3] != 0 || header[2] > FLAG_VERIFIED_PRIVATE_FALLBACK then Bad(Protocol)
      else Good(Envelope(header[1], header[2] == FLAG_VERIFIED_PRIVATE_FALLBACK), rest)
  }

  function Decode(frame: Bytes): Result<Request> {
    match HeaderOf(frame)
    case Bad(e) => Err(e)
    case Good(envelope, rest) =>
      match PathOf(rest, envelope.opcode == OP_LIST)
      case Bad(e) => Err(e)
      case Good(path, rest) => Body(envelope.opcode, envelope.fallback, path, rest)
  }

  // ---------------------------------------------------------------- the encoder's side

  function Opcode(r: Request): Byte {
    match r
    case List(_, _) => OP_LIST
    case Read(_, _) => OP_READ
    case Replace(_, _, _, _) => OP_REPLACE
  }

  /** The components of a path, each after its length, and then whatever follows. */
  function EncodeComponents(path: Path, rest: Bytes): Bytes {
    if path == [] then rest
    else BigEndian(|path[0]|, 2) + (path[0] + EncodeComponents(path[1..], rest))
  }

  function Header(r: Request): Bytes {
    [VERSION, Opcode(r), if r.fallback then FLAG_VERIFIED_PRIVATE_FALLBACK else 0, 0]
  }

  function Arguments(r: Request): Bytes {
    match r
    case Replace(_, _, id, replacement) => id + BigEndian(|replacement|, 4) + replacement
    case _ => []
  }

  function Encode(r: Request): Bytes {
    Header(r) + (BigEndian(|r.path|, 2) + EncodeComponents(r.path, Arguments(r)))
  }

  function JoinedLength(path: Path): nat {
    if path == [] then 0 else |path[0]| + JoinedLength(path[1..])
  }

  predicate LegalComponent(c: Bytes) {
    1 <= |c| <= MAX_COMPONENT && !BadComponent(c)
  }

  predicate LegalComponents(path: Path) {
    forall i | 0 <= i < |path| :: LegalComponent(path[i])
  }

  predicate LegalPath(path: Path, allowEmpty: bool) {
    && (path == [] ==> allowEmpty)
    && |path| <= MAX_COMPONENTS
    && LegalComponents(path)
    && (path != [] ==> JoinedLength(path) + |path| - 1 <= MAX_PATH)
  }

  predicate Legal(r: Request) {
    && LegalPath(r.path, r.List?)
    && (r.Replace? ==> |r.operationId| == 16 && |r.replacement| <= MAX_FILE)
  }

  // ---------------------------------------------------------------- decoding inverts encoding

  lemma NumberOfBigEndian(n: nat, width: nat, rest: Bytes)
    requires n < Pow256(width)
    ensures Number(BigEndian(n, width) + rest, width) == Good(n, rest)
  {
    FromAfterBigEndian(n, width);
    var s := BigEndian(n, width) + rest;
    assert s[..width] == BigEndian(n, width) && s[width..] == rest;
  }

  lemma TakeOfAppend(s: Bytes, rest: Bytes)
    ensures Take(s + rest, |s|) == Good(s, rest)
  {
    assert (s + rest)[..|s|] == s && (s + rest)[|s|..] == rest;
  }

  lemma ComponentOfEncoded(c: Bytes, total: nat, rest: Bytes)
    requires LegalComponent(c) && total + |c| <= MAX_PATH
    ensures Component(BigEndian(|c|, 2) + (c + rest), total) == Good(c, rest)
  {
    Widths();
    NumberOfBigEndian(|c|, 2, c + rest);
    TakeOfAppend(c, rest);
  }

  lemma LegalityOfCons(c: Bytes, others: Path)
    ensures JoinedLength([c] + others) == |c| + JoinedLength(others)
    ensures LegalComponents([c] + others) <==> LegalComponent(c) && LegalComponents(others)
  {
    var path := [c] + others;
    assert path[0] == c && path[1..] == others;
    assert forall i | 0 <= i < |others| :: path[i + 1] == others[i];
  }

  /** A component and what follows it make a longer path. */
  lemma ComponentsStep(s: Bytes, count: nat, total: nat, c: Bytes, rest: Bytes, next: Parsed<Path>)
    requires Component(s, total) == Good(c, rest) && next == Components(rest, count, total + |c|) && next.Good?
    ensures Components(s, count + 1, total) == Good([c] + next.value, next.rest)
  {
  }

  lemma EncodedFirst(path: Path, rest: Bytes)
    requires path != []
    ensures EncodeComponents(path, rest) == BigEndian(|path[0]|, 2) + (path[0] + EncodeComponents(path[1..], rest))
    ensures LegalComponents(path) ==> LegalComponent(path[0]) && LegalComponents(path[1..])
    ensures JoinedLength(path) == |path[0]| + JoinedLength(path[1..])
  {
  }

  lemma ComponentInFront(s: Bytes, c: Bytes, total: nat, tail: Bytes)
    requires LegalComponent(c) && total + |c| <= MAX_PATH && s == BigEndian(|c|, 2) + (c + tail)
    ensures Component(s, total) == Good(c, tail)
  {
    ComponentOfEncoded(c, total, tail);
  }

  lemma EncodedInFront(s: Bytes, path: Path, total: nat, tail: Bytes, rest: Bytes)
    requires path != [] && Component(s, total) == Good(path[0], tail)
    requires Components(tail, |path| - 1, total + |path[0]|) == Good(path[1..], rest)
    ensures Components(s, |path|, total) == Good(path, rest)
  {
    ComponentsStep(s, |path| - 1, total, path[0], tail, Good(path[1..], rest));
    assert [path[0]] + path[1..] == path;
  }

  lemma {:induction false} ComponentsOfEncoded(path: Path, total: nat, rest: Bytes)
    requires LegalComponents(path) && total + JoinedLength(path) <= MAX_PATH
    ensures Components(EncodeComponents(path, rest), |path|, total) == Good(path, rest)
  {
    if path != [] {
      var s, tail := EncodeComponents(path, rest), EncodeComponents(path[1..], rest);
      EncodedFirst(path, rest);
      ComponentInFront(s, path[0], total, tail);
      ComponentsOfEncoded(path[1..], total + |path[0]|, rest);
      EncodedInFront(s, path, total, tail, rest);
    }
  }

  lemma BodyOfArguments(r: Request)
    requires Legal(r)
    ensures Body(Opcode(r), r.fallback, r.path, Arguments(r)) == Ok(r)
  {
    if r.Replace? {
      var payload := BigEndian(|r.replacement|, 4) + r.replacement;
      assert Arguments(r) == r.operationId + payload;
      TakeOfAppend(r.operationId, payload);
      Widths();
      NumberOfBigEndian(|r.replacement|, 4, r.replacement);
      TakeOfAppend(r.replacement, []);
      assert r.replacement + [] == r.replacement;
    }
  }

  lemma PathOfEncoded(path: Path, allowEmpty: bool, rest: Bytes)
    requires LegalPath(path, allowEmpty)
    ensures PathOf(BigEndian(|path|, 2) + EncodeComponents(path, rest), allowEmpty) == Good(path, rest)
  {
    Widths();
    NumberOfBigEndian(|path|, 2, EncodeComponents(path, rest));
    ComponentsOfEncoded(path, if path == [] then 0 else |path| - 1, rest);
  }

  /** Every legal request is decoded back from its encoding. */
  lemma DecodeAfterEncode(r: Request)
    requires Legal(r)
    ensures Decode(Encode(r)) == Ok(r)
  {
    TakeOfAppend(Header(r), BigEndian(|r.path|, 2) + EncodeComponents(r.path, Arguments(r)));
    PathOfEncoded(r.path, r.List?, Arguments(r));
    BodyOfArguments(r);
  }

  lemma EncodingOfNumber(s: Bytes, width: nat)
    requires Number(s, width).Good?
    ensures BigEndian(Number(s, width).value, width) + Number(s, width).rest == s
    ensures Number(s, width).value < Pow256(width)
  {
    BigEndianAfterFrom(s[..width]);
  }

  lemma EncodingOfComponent(s: Bytes, total: nat)
    requires Component(s, total).Good?
    ensures
      var r := Component(s, total);
      && LegalComponent(r.value) && total + |r.value| <= MAX_PATH
      && BigEndian(|r.value|, 2) + (r.value + r.rest) == s
  {
    EncodingOfNumber(s, 2);
  }

  /** Components that are still to come, taken apart: the bytes are those of the first and of the others. */
  ghost predicate Follows(s: Bytes, total: nat, c: Bytes, tail: Bytes) {
    LegalComponent(c) && total + |c| <= MAX_PATH && s == EncodeComponents([c], tail)
  }

  lemma ComponentFollows(s: Bytes, total: nat)
    requires Component(s, total).Good?
    ensures Follows(s, total, Component(s, total).value, Component(s, total).rest)
  {
    var c, tail := Component(s, total).value, Component(s, total).rest;
    EncodingOfComponent(s, total);
    EncodedCons(c, [], tail);
    assert [c] + [] == [c];
  }

  lemma ComponentsTakenApart(s: Bytes, count: nat, total: nat, path: Path, last: Bytes) returns (tail: Bytes)
    requires count > 0 && Components(s, count, total) == Good(path, last)
    ensures path != [] && Follows(s, total, path[0], tail)
    ensures Components(tail, count - 1, total + |path[0]|) == Good(path[1..], last)
  {
    var first := Component(s, total);
    var next := Components(first.rest, count - 1, total + |first.value|);
    ComponentFollows(s, total);
    tail := first.rest;
    assert path == [first.value] + next.value;
  }

  lemma JoinedFirst(s: Bytes, total: nat, path: Path, tail: Bytes, rest: Bytes)
    requires path != [] && Follows(s, total, path[0], tail) && EncodeComponents(path[1..], rest) == tail
    requires LegalComponents(path[1..]) && (|path| > 1 ==> total + |path[0]| + JoinedLength(path[1..]) <= MAX_PATH)
    ensures LegalComponents(path) && total + JoinedLength(path) <= MAX_PATH && EncodeComponents(path, rest) == s
  {
    assert [path[0]] + path[1..] == path && [path[0]] + [] == [path[0]];
    LegalityOfCons(path[0], path[1..]);
    EncodedCons(path[0], path[1..], rest);
    EncodedCons(path[0], [], tail);
  }

  lemma {:induction false} EncodingOfComponents(s: Bytes, count: nat, total: nat, path: Path, rest: Bytes)
    requires Components(s, count, total) == Good(path, rest)
    ensures |path| == count && LegalComponents(path) && (count > 0 ==> total + JoinedLength(path) <= MAX_PATH)
    ensures EncodeComponents(path, rest) == s
    decreases count
  {
    if count > 0 {
      var tail := ComponentsTakenApart(s, count, total, path, rest);
      EncodingOfComponents(tail, count - 1, total + |path[0]|, path[1..], rest);
      JoinedFirst(s, total, path, tail, rest);
    }
  }

  lemma EncodedCons(c: Bytes, others: Path, rest: Bytes)
    ensures EncodeComponents([c] + others, rest) == BigEndian(|c|, 2) + (c + EncodeComponents(others, rest))
  {
    assert ([c] + others)[1..] == others;
  }

  lemma EncodingOfBody(opcode: Byte, fallback: bool, path: Path, rest: Bytes)
    requires Body(opcode, fallback, path, rest).Ok?
    ensures
      var r := Body(opcode, fallback, path, rest).value;
      && Opcode(r) == opcode && r.fallback == fallback && r.path == path && Arguments(r) == rest
      && (r.Replace? ==> |r.operationId| == 16 && |r.replacement| <= MAX_FILE)
  {
    if opcode == OP_REPLACE {
      EncodingOfNumber(Take(rest, 16).rest, 4);
      var r := Body(opcode, fallback, path, rest).value;
      var length := Number(Take(rest, 16).rest, 4);
      assert r.replacement + [] == length.rest;
      assert Arguments(r) == r.operationId + (BigEndian(length.value, 4) + length.rest);
    }
  }

  lemma PathTakenApart(s: Bytes, allowEmpty: bool) returns (count: nat, tail: Bytes, path: Path, rest: Bytes)
    requires PathOf(s, allowEmpty).Good?
    ensures PathOf(s, allowEmpty) == Good(path, rest) && Number(s, 2) == Good(count, tail)
    ensures Components(tail, count, if count == 0 then 0 else count - 1) == Good(path, rest)
    ensures count <= MAX_COMPONENTS && (count == 0 ==> allowEmpty)
  {
    count, tail := Number(s, 2).value, Number(s, 2).rest;
    path, rest := PathOf(s, allowEmpty).value, PathOf(s, allowEmpty).rest;
  }

  lemma EncodingOfPath(s: Bytes, allowEmpty: bool)
    requires PathOf(s, allowEmpty).Good?
    ensures
      var r := PathOf(s, allowEmpty);
      && LegalPath(r.value, allowEmpty)
      && BigEndian(|r.value|, 2) + EncodeComponents(r.value, r.rest) == s
  {
    var count, tail, path, rest := PathTakenApart(s, allowEmpty);
    EncodingOfNumber(s, 2);
    EncodingOfComponents(tail, count, if count == 0 then 0 else count - 1, path, rest);
  }

  lemma EncodingOfHeader(frame: Bytes)
    requires HeaderOf(frame).Good?
    ensures
      var h := HeaderOf(frame);
      [VERSION, h.value.opcode, if h.value.fallback then FLAG_VERIFIED_PRIVATE_FALLBACK else 0, 0] + h.rest == frame
  {
    var h := HeaderOf(frame).value;
    assert frame[..4] == [VERSION, h.opcode, if h.fallback then FLAG_VERIFIED_PRIVATE_FALLBACK else 0, 0];
  }

  /** A frame is accepted only when it is the encoding of the legal request it yields. */
  lemma EncodeAfterDecode(frame: Bytes)
    requires Decode(frame).Ok?
    ensures Legal(Decode(frame).value) && Encode(Decode(frame).value) == frame
  {
    var header := HeaderOf(frame);
    EncodingOfHeader(frame);
    EncodingOfPath(header.rest, header.value.opcode == OP_LIST);
    var path := PathOf(header.rest, header.value.opcode == OP_LIST);
    EncodingOfBody(header.value.opcode, header.value.fallback, path.value, path.rest);
  }

  /** Acceptance is exactly being the encoding of a legal request. */
  lemma AcceptsExactlyEncodings(frame: Bytes)
    ensures Decode(frame).Ok? <==> exists r :: Legal(r) && Encode(r) == frame
  {
    if Decode(frame).Ok? { EncodeAfterDecode(frame); }
    forall r | Legal(r) && Encode(r) == frame ensures Decode(frame).Ok? { DecodeAfterEncode(r); }
  }

  // ---------------------------------------------------------------- joined paths

  function Joined(path: Path): Bytes { Join(path, SLASH) }

  lemma {:induction false} LengthOfJoined(path: Path)
    ensures |Joined(path)| == JoinedLength(path) + (if path == [] then 0 else |path| - 1)
  {
    if path != [] { LengthOfJoined(path[1..]); }
  }

  /** An accepted path joins within the limit, and the join gives the path back. */
  lemma JoinedIsFaithful(path: Path, allowEmpty: bool)
    requires LegalPath(path, allowEmpty)
    ensures |Joined(path)| <= MAX_PATH && 0 !in Joined(path)
    ensures path != [] ==> Split(Joined(path), SLASH) == path
    ensures path == [] <==> Joined(path) == []
  {
    LengthOfJoined(path);
    JoinedHasNoNul(path);
    if path != [] {
      SplitAfterJoin(path, SLASH);
      assert LegalComponent(path[0]);
    }
  }

  lemma {:induction false} JoinedHasNoNul(path: Path)
    requires LegalComponents(path)
    ensures 0 !in Joined(path)
  {
    if path != [] {
      JoinedHasNoNul(path[1..]);
      assert LegalComponent(path[0]);
    }
  }

  lemma JoiningIsInjective(p: Path, q: Path)
    requires LegalPath(p, true) && LegalPath(q, true) && Joined(p) == Joined(q)
    ensures p == q
  {
    JoinedIsFaithful(p, true);
    JoinedIsFaithful(q, true);
  }

  // ---------------------------------------------------------------- responses and sizes

  datatype Metadata = Metadata(
    dev: nat, ino: nat, mode: nat, uid: nat, gid: nat, size: nat, mtimeSec: int, mtimeNsec: nat
  )

  function EncodeMetadata(m: Metadata): (s: Bytes)
    ensures |s| == 52
  {
    BigEndian(m.dev, 8) + BigEndian(m.ino, 8) + BigEndian(m.mode, 4) + BigEndian(m.uid, 4) + BigEndian(m.gid, 4)
    + BigEndian(m.size, 8) + BigEndian(m.mtimeSec % U64_LIMIT, 8) + BigEndian(m.mtimeNsec, 8)
  }

  function OkHeader(opcode: Byte): Bytes { [VERSION, STATUS_OK, opcode, 0] }

  datatype Entry = Entry(name: Bytes, metadata: Metadata)

  function EncodeEntries(entries: seq<Entry>): Bytes {
    if entries == [] then []
    else BigEndian(|entries[0].name|, 2) + entries[0].name + EncodeMetadata(entries[0].metadata) + EncodeEntries(entries[1..])
  }

  function ListResponse(entries: seq<Entry>): Bytes {
    OkHeader(OP_LIST) + BigEndian(|entries|, 4) + EncodeEntries(entries)
  }

  function ReadResponse(operationId: Bytes, metadata: Metadata, digest: Bytes, bytes: Bytes): Bytes {
    OkHeader(OP_READ) + operationId + EncodeMetadata(metadata) + digest + BigEndian(|bytes|, 4) + bytes
  }

  function ReplaceResponse(operationId: Bytes): Bytes {
    OkHeader(OP_REPLACE) + operationId
  }

  lemma {:induction false} EntriesFit(entries: seq<Entry>)
    requires forall i | 0 <= i < |entries| :: |entries[i].name| <= 255
    ensures |EncodeEntries(entries)| <= 309 * |entries|
  {
    if entries != [] { EntriesFit(entries[1..]); }
  }

  /** The largest listing and the largest read stay within the frame limit. */
  lemma ResponsesFit(entries: seq<Entry>, operationId: Bytes, metadata: Metadata, digest: Bytes, bytes: Bytes)
    requires |entries| <= MAX_LIST_ENTRIES
    requires forall i | 0 <= i < |entries| :: |entries[i].name| <= 255
    requires |operationId| == 16 && |digest| == 32 && |bytes| <= MAX_FILE
    ensures 0 < |ListResponse(entries)| <= MAX_FRAME
    ensures 0 < |ReadResponse(operationId, metadata, digest, bytes)| <= MAX_FRAME
    ensures 0 < |ReplaceResponse(operationId)| <= MAX_FRAME
  {
    EntriesFit(entries);
  }

  lemma {:induction false} EncodedComponentsLength(path: Path, rest: Bytes)
    ensures |EncodeComponents(path, rest)| == JoinedLength(path) + 2 * |path| + |rest|
  {
    if path != [] { EncodedComponentsLength(path[1..], rest); }
  }

  lemma RequestsFit(r: Request)
    requires Legal(r)
    ensures 0 < |Encode(r)| <= MAX_FRAME
  {
    EncodedComponentsLength(r.path, Arguments(r));
  }

  // ---------------------------------------------------------------- frames

  datatype FrameResult = Frame(payload: Bytes, rest: Bytes) | EndOfInput | Truncated | BadLength

  /** What the first frame of a byte stream is. */
  function FirstFrame(s: Bytes): FrameResult {
    if s == [] then EndOfInput
    else if |s| < 4 then Truncated
    else
      var length := FromBigEndian(s[..4]);
      if length == 0 || length > MAX_FRAME then BadLength
      else if |s| - 4 < length then Truncated
      else Frame(s[4..4 + length], s[4 + length..])
  }

  function Framed(payload: Bytes): Bytes
    requires |payload| < U32_LIMIT
  {
    BigEndian(|payload|, 4) + payload
  }

  lemma FrameRoundTrip(payload: Bytes, rest: Bytes)
    requires 0 < |payload| <= MAX_FRAME
    ensures FirstFrame(Framed(payload) + rest) == Frame(payload, rest)
  {
    Widths();
    FromAfterBigEndian(|payload|, 4);
    var s := Framed(payload) + rest;
    assert s[..4] == BigEndian(|payload|, 4);
    assert s[4..4 + |payload|] == payload && s[4 + |payload|..] == rest;
  }

  /** Every legal request survives framing, transport and decoding. */
  lemma RequestSurvivesTransport(r: Request, rest: Bytes)
    requires Legal(r)
    ensures |Encode(r)| < U32_LIMIT
    ensures FirstFrame(Framed(Encode(r)) + rest) == Frame(Encode(r), rest)
    ensures Decode(FirstFrame(Framed(Encode(r)) + rest).payload) == Ok(r)
  {
    RequestsFit(r);
    FrameRoundTrip(Encode(r), rest);
    DecodeAfterEncode(r);
  }
}
