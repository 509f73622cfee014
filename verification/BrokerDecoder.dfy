/** The decoder object that walks a frame, and the loops that move frames over a stream. */
module BrokerDecoder {
  import opened Basics
  import opened BrokerWire

  /** Components already decoded, put before those still to come. */
  function Prefixed(path: Path, parsed: Parsed<Path>): Parsed<Path> {
    match parsed
    case Good(others, rest) => Good(path + others, rest)
    case Bad(e) => Bad(e)
  }

  lemma PrefixedNothing(parsed: Parsed<Path>)
    ensures Prefixed([], parsed) == parsed
  {
    if parsed.Good? { assert [] + parsed.value == parsed.value; }
  }

  /** What a decoder that has read `path` and has `todo` components to go is going to return. */
  ghost predicate Ahead(path: Path, s: Bytes, todo: nat, total: nat, whole: Parsed<Path>) {
    Prefixed(path, Components(s, todo, total)) == whole
  }

  lemma AheadStep(path: Path, s: Bytes, todo: nat, total: nat, c: Bytes, rest: Bytes, whole: Parsed<Path>)
    requires todo > 0 && Ahead(path, s, todo, total, whole) && Component(s, total) == Good(c, rest)
    ensures Ahead(path + [c], rest, todo - 1, total + |c|, whole)
  {
    var others := Components(rest, todo - 1, total + |c|);
    if others.Good? {
      ComponentsStep(s, todo - 1, total, c, rest, others);
      Regroup(path, c, others.value);
    }
  }

  lemma AheadError(path: Path, s: Bytes, todo: nat, total: nat, whole: Parsed<Path>)
    requires todo > 0 && Ahead(path, s, todo, total, whole) && Component(s, total).Bad?
    ensures whole == Bad(Component(s, total).code)
  {
  }

  lemma AheadDone(path: Path, s: Bytes, total: nat, whole: Parsed<Path>)
    requires Ahead(path, s, 0, total, whole)
    ensures whole == Good(path, s)
  {
    assert path + [] == path;
  }

  class Decoder {
    const bytes: Bytes
    var position: nat

    ghost predicate Valid()
      reads this
    {
      position <= |bytes|
    }

    ghost function Rest(): Bytes
      reads this
      requires Valid()
    {
      bytes[position..]
    }

    constructor (bytes: Bytes)
      ensures Valid() && this.bytes == bytes && Rest() == bytes
    {
      this.bytes := bytes;
      position := 0;
    }

    /** The step yields what the specification parses, and leaves what it leaves. */
    ghost predicate Follows<T(!new)>(parsed: Parsed<T>, r: Result<T>)
      reads this
    {
      Valid() &&
      match parsed
      case Good(value, rest) => r == Ok(value) && Rest() == rest
      case Bad(e) => r == Err(e)
    }

    method TakeBytes(length: nat) returns (r: Result<Bytes>)
      requires Valid()
      modifies this
      ensures Follows(Take(old(Rest()), length), r)
    {
      var end := position + length;
      if end > |bytes| {
        return Err(Protocol);
      }
      assert bytes[position..][..length] == bytes[position..end] && bytes[position..][length..] == bytes[end..];
      r := Ok(bytes[position..end]);
      position := end;
    }

    method Unsigned(width: nat) returns (r: Result<nat>)
      requires Valid()
      modifies this
      ensures Follows(Number(old(Rest()), width), r)
    {
      var digits := TakeBytes(width);
      match digits
      case Err(e) => return Err(e);
      case Ok(s) => return Ok(FromBigEndian(s));
    }

    method BytesU32(maximum: nat) returns (r: Result<Bytes>)
      requires Valid()
      modifies this
      ensures Follows(Payload(old(Rest()), maximum), r)
    {
      var length := Unsigned(4);
      match length
      case Err(e) => return Err(e);
      case Ok(n) =>
        if n > maximum {
          return Err(Bounds);
        }
        r := TakeBytes(n);
    }

    method NextComponent(total: nat) returns (r: Result<Bytes>)
      requires Valid()
      modifies this
      ensures Follows(Component(old(Rest()), total), r)
    {
      var length := Unsigned(2);
      if length.Err? {
        return Err(length.code);
      }
      if length.value == 0 {
        return Err(InvalidPath);
      }
      if length.value > MAX_COMPONENT {
        return Err(Bounds);
      }
      var component := TakeBytes(length.value);
      if component.Err? {
        return Err(component.code);
      }
      if BadComponent(component.value) {
        return Err(InvalidPath);
      }
      if total + length.value > MAX_PATH {
        return Err(Bounds);
      }
      return component;
    }

    /** The counted loop over the components of a path. */
    method DecodeComponents(count: nat, joined: nat) returns (r: Result<Path>)
      requires Valid()
      modifies this
      ensures Follows(Components(old(Rest()), count, joined), r)
    {
      var total: nat := joined;
      var path: Path := [];
      ghost var whole := Components(Rest(), count, total);
      PrefixedNothing(whole);
      var todo: nat := count;
      while todo > 0
        invariant Valid()
        invariant Ahead(path, Rest(), todo, total, whole)
      {
        ghost var s := Rest();
        var component := NextComponent(total);
        if component.Err? {
          AheadError(path, s, todo, total, whole);
          return Err(component.code);
        }
        AheadStep(path, s, todo, total, component.value, Rest(), whole);
        total := total + |component.value|;
        path := path + [component.value];
        todo := todo - 1;
      }
      AheadDone(path, Rest(), total, whole);
      return Ok(path);
    }

    method DecodePath(allowEmpty: bool) returns (r: Result<Path>)
      requires Valid()
      modifies this
      ensures Follows(PathOf(old(Rest()), allowEmpty), r)
    {
      var count := Unsigned(2);
      if count.Err? {
        return Err(count.code);
      }
      if count.value == 0 && !allowEmpty {
        return Err(InvalidPath);
      }
      if count.value > MAX_COMPONENTS {
        return Err(Bounds);
      }
      r := DecodeComponents(count.value, if count.value == 0 then 0 else count.value - 1);
    }

    method DecodeHeader() returns (r: Result<Envelope>)
      requires Valid()
      modifies this
      ensures Follows(HeaderOf(old(Rest())), r)
    {
      ghost var s := Rest();
      var version := TakeBytes(1);
      if version.Err? { return Err(version.code); }
      var opcode := TakeBytes(1);
      if opcode.Err? { return Err(opcode.code); }
      var flags := TakeBytes(1);
      if flags.Err? { return Err(flags.code); }
      var reserved := TakeBytes(1);
      if reserved.Err? { return Err(reserved.code); }
      assert s[1..][1..] == s[2..] && s[2..][1..] == s[3..] && s[3..][1..] == s[4..];
      if version.value[0] != VERSION || reserved.value[0] != 0 || flags.value[0] > FLAG_VERIFIED_PRIVATE_FALLBACK {
        return Err(Protocol);
      }
      return Ok(Envelope(opcode.value[0], flags.value[0] == FLAG_VERIFIED_PRIVATE_FALLBACK));
    }

    /** The operands of one operation; nothing may follow them. */
    method DecodeBody(envelope: Envelope, path: Path) returns (r: Result<Request>)
      requires Valid()
      modifies this
      ensures r == Body(envelope.opcode, envelope.fallback, path, old(Rest()))
    {
      if envelope.opcode == OP_LIST {
        return if position == |bytes| then Ok(List(envelope.fallback, path)) else Err(Protocol);
      }
      if envelope.opcode == OP_READ {
        return if position == |bytes| then Ok(Read(envelope.fallback, path)) else Err(Protocol);
      }
      if envelope.opcode == OP_REPLACE {
        var id := TakeBytes(16);
        if id.Err? { return Err(id.code); }
        var replacement := BytesU32(MAX_FILE);
        if replacement.Err? { return Err(replacement.code); }
        if position != |bytes| { return Err(Protocol); }
        return Ok(Replace(envelope.fallback, path, id.value, replacement.value));
      }
      return Err(Protocol);
    }
  }

  /** A whole frame, decoded step by step in the order the broker checks it. */
  method DecodeRequest(frame: Bytes) returns (r: Result<Request>)
    ensures r == Decode(frame)
  {
    var request := new Decoder(frame);
    var envelope := request.DecodeHeader();
    if envelope.Err? { return Err(envelope.code); }
    var path := request.DecodePath(envelope.value.opcode == OP_LIST);
    if path.Err? { return Err(path.code); }
    r := request.DecodeBody(envelope.value, path.value);
  }

  /** An input that may return fewer bytes than asked for, as a pipe does. */
  class Input {
    const content: Bytes
    const pieces: seq<nat>   // how many bytes successive reads are willing to return
    var position: nat
    var turns: nat

    ghost predicate Valid()
      reads this
    {
      position <= |content|
    }

    ghost function Rest(): Bytes
      reads this
      requires Valid()
    {
      content[position..]
    }

    constructor (content: Bytes, pieces: seq<nat>)
      ensures Valid() && Rest() == content
    {
      this.content, this.pieces := content, pieces;
      position, turns := 0, 0;
    }

    method ReadSome(maximum: nat) returns (data: Bytes)
      requires Valid()
      modifies this
      ensures Valid() && |data| <= maximum && data + Rest() == old(Rest())
      ensures maximum > 0 && old(Rest()) != [] ==> data != []
    {
      var available := |content| - position;
      var n := if maximum < available then maximum else available;
      if turns < |pieces| && 0 < pieces[turns] < n {
        n := pieces[turns];
      }
      data := content[position..position + n];
      turns := turns + 1;
      position := position + n;
    }

    /** Reads until `n` bytes are there or the input ends. */
    method ReadUpTo(n: nat) returns (data: Bytes)
      requires Valid()
      modifies this
      ensures Valid() && data + Rest() == old(Rest())
      ensures |data| == if |old(Rest())| < n then |old(Rest())| else n
    {
      data := [];
      while |data| < n
        invariant Valid() && |data| <= n && data + Rest() == old(Rest())
      {
        ghost var before := data;
        var piece := ReadSome(n - |data|);
        if piece == [] {
          break;
        }
        data := data + piece;
        assert data + Rest() == before + (piece + Rest());
      }
    }

    method ReadFrame() returns (r: FrameResult)
      requires Valid()
      modifies this
      ensures Valid()
      ensures match FirstFrame(old(Rest()))
              case Frame(payload, rest) => r == Frame(payload, rest) && Rest() == rest
              case other => r == other
    {
      ghost var s := Rest();
      var length := ReadUpTo(4);
      if length == [] {
        return EndOfInput;
      }
      if |length| < 4 {
        return Truncated;
      }
      assert length == s[..4] && Rest() == s[4..];
      var n := FromBigEndian(length);
      if n == 0 || n > MAX_FRAME {
        return BadLength;
      }
      var payload := ReadUpTo(n);
      if |payload| < n {
        return Truncated;
      }
      assert payload == s[4..][..n] && Rest() == s[4..][n..];
      r := Frame(payload, content[position..]);
    }
  }
}
