/**
 Compare-and-swap on files: a read hands out bytes with a token, and a replace swaps a
 temporary into the target and only keeps the result when the displaced file is the one
 that was read. Other writers act on the directory between any two system calls.
 */
module BrokerReplace {
  import opened Basics
  import opened Text
  import opened BrokerWire
  import opened BrokerDecoder

  datatype Kind = Plain | Directory | SymbolicLink | Special

  /** What stands under a name; only plain files have bytes that anyone reads. */
  datatype Node = Node(kind: Kind, metadata: Metadata, bytes: Bytes)

  /** What another writer does to one path: put something there, or take it away. */
  datatype Mutation = Mutation(path: Bytes, file: Option<Node>)

  /** What happens before one system call of the broker, and whether that call fails. */
  datatype Turn = Turn(mutations: seq<Mutation>, fault: Option<ErrorCode>)

  /** What the broker itself did to the directory. */
  datatype Event =
    | Created(path: Bytes)
    | Filled(path: Bytes, bytes: Bytes)
    | Exchanged(temporary: Bytes, target: Bytes, displaced: Node)
    | Removed(path: Bytes, file: Node)

  const TEMPORARY_PREFIX: Bytes :=
    [46, 99, 104, 97, 116, 103, 112, 116, 45, 109, 117, 116, 97, 116, 105, 111, 110, 45]

  /** The broker's own temporary names, which no other writer touches. */
  predicate Reserved(path: Bytes) {
    var parts := Split(path, SLASH);
    TEMPORARY_PREFIX <= parts[|parts| - 1]
  }

  function HexBytes(id: Bytes): (s: Bytes)
    ensures SLASH !in s
  {
    UnhexAfterHex(id);
    seq(|Hex(id)|, i requires 0 <= i < |Hex(id)| => assert IsLowerHex(Hex(id)[i]); Hex(id)[i] as int)
  }

  function TemporaryPath(path: Path, id: Bytes): Path
    requires path != []
  {
    path[..|path| - 1] + [TEMPORARY_PREFIX + HexBytes(id)]
  }

  lemma TemporaryIsReserved(path: Path, id: Bytes)
    requires path != [] && LegalComponents(path)
    ensures Reserved(Joined(TemporaryPath(path, id)))
  {
    var temporary := TemporaryPath(path, id);
    assert SLASH !in TEMPORARY_PREFIX;
    forall i | 0 <= i < |temporary| ensures SLASH !in temporary[i] {
      if i < |path| - 1 { assert temporary[i] == path[i] && LegalComponent(path[i]); }
    }
    SplitAfterJoin(temporary, SLASH);
  }

  /** A file that is read in full: a plain one, within the size limit and of the size it claims. */
  predicate Readable(file: Node) { file.kind.Plain? && file.metadata.size == |file.bytes| <= MAX_FILE }

  /** Files under reserved names are the same in both directories. */
  ghost predicate SameReserved(before: map<Bytes, Node>, after: map<Bytes, Node>) {
    forall p :: Reserved(p) ==> (p in after <==> p in before) && (p in after ==> after[p] == before[p])
  }

  /** The directory; every method but `OthersAct` is one atomic system call of the broker. */
  class FileSystem {
    const turns: seq<Turn>
    const euid: nat
    const egid: nat
    var clock: nat
    var files: map<Bytes, Node>
    ghost var log: seq<Event>
    ghost var seen: seq<(Bytes, Node)>   // every file read in full, with its path

    constructor (files: map<Bytes, Node>, turns: seq<Turn>, euid: nat, egid: nat)
      ensures log == [] && seen == []
    {
      this.turns, this.euid, this.egid := turns, euid, egid;
      this.files, clock, log, seen := files, 0, [], [];
    }

    /** No other writer acts any more and no system call fails for a reason of its own. */
    ghost predicate Quiet()
      reads this`clock
    {
      clock >= |turns|
    }

    /** The other writers' turn; it also decides whether the next system call fails. */
    method OthersAct() returns (fault: Option<ErrorCode>)
      modifies this`clock, this`files
      ensures SameReserved(old(files), files)
      ensures old(Quiet()) ==> Quiet() && fault.None? && files == old(files)
    {
      fault := None;
      if clock < |turns| {
        var turn := turns[clock];
        for i := 0 to |turn.mutations|
          invariant SameReserved(old(files), files)
        {
          var m := turn.mutations[i];
          if !Reserved(m.path) {
            files := if m.file.Some? then files[m.path := m.file.value] else files - {m.path};
          }
        }
        fault := turn.fault;
        clock := clock + 1;
      }
    }

    method Status(path: Bytes, fault: Option<ErrorCode>) returns (r: Result<Metadata>)
      ensures r.Ok? <==> fault.None? && path in files && files[path].kind.Plain?
      ensures r.Ok? ==> r.value == files[path].metadata
    {
      if fault.Some? { return Err(fault.value); }
      if path !in files { return Err(NotFound); }
      if !files[path].kind.Plain? { return Err(WrongType); }
      return Ok(files[path].metadata);
    }

    method ReadFile(path: Bytes, fault: Option<ErrorCode>) returns (r: Result<Node>)
      modifies this`seen
      ensures seen == old(seen) + if r.Ok? then [(path, r.value)] else []
      ensures r.Ok? <==> fault.None? && path in files && Readable(files[path])
      ensures r.Ok? ==> r.value == files[path]
    {
      if fault.Some? { return Err(fault.value); }
      if path !in files { return Err(NotFound); }
      var file := files[path];
      if !file.kind.Plain? { return Err(WrongType); }
      if |file.bytes| > MAX_FILE { return Err(Bounds); }
      if file.metadata.size != |file.bytes| { return Err(Integrity); }
      seen := seen + [(path, file)];
      return Ok(file);
    }

    /** A new empty file; fails when the name is taken. */
    method CreateExclusive(path: Bytes, metadata: Metadata, fault: Option<ErrorCode>) returns (r: Result<()>)
      modifies this`files, this`log
      ensures r.Ok? <==> fault.None? && path !in old(files)
      ensures r.Ok? ==> files == old(files)[path := Node(Plain, metadata, [])] && log == old(log) + [Created(path)]
      ensures r.Err? ==> files == old(files) && log == old(log)
    {
      if fault.Some? { return Err(fault.value); }
      if path in files { return Err(Io); }
      files := files[path := Node(Plain, metadata, [])];
      log := log + [Created(path)];
      return Ok(());
    }

    /** Writes, sets mode and times, and syncs; a failure leaves some part of it done. */
    method Fill(path: Bytes, file: Node, partial: Node, fault: Option<ErrorCode>) returns (r: Result<()>)
      modifies this`files, this`log
      ensures r.Ok? <==> fault.None?
      ensures r.Ok? ==> files == old(files)[path := file] && log == old(log) + [Filled(path, file.bytes)]
      ensures r.Err? ==> files == old(files)[path := partial] && log == old(log)
    {
      if fault.Some? {
        files := files[path := partial];
        return Err(fault.value);
      }
      files := files[path := file];
      log := log + [Filled(path, file.bytes)];
      return Ok(());
    }

    /** Atomically swaps two names; fails when the target is gone. */
    method Exchange(temporary: Bytes, target: Bytes, fault: Option<ErrorCode>) returns (r: Result<()>)
      requires temporary in files
      modifies this`files, this`log
      ensures r.Ok? <==> fault.None? && target in old(files)
      ensures r.Ok? ==>
        && files == old(files)[target := old(files)[temporary]][temporary := old(files)[target]]
        && log == old(log) + [Exchanged(temporary, target, old(files)[target])]
      ensures r.Err? ==> files == old(files) && log == old(log)
    {
      if fault.Some? { return Err(fault.value); }
      if target !in files { return Err(NotFound); }
      log := log + [Exchanged(temporary, target, files[target])];
      files := files[target := files[temporary]][temporary := files[target]];
      return Ok(());
    }

    method Unlink(path: Bytes, fault: Option<ErrorCode>) returns (r: Result<()>)
      requires path in files
      modifies this`files, this`log
      ensures r.Ok? <==> fault.None?
      ensures r.Ok? ==> files == old(files) - {path} && log == old(log) + [Removed(path, old(files)[path])]
      ensures r.Err? ==> files == old(files) && log == old(log)
    {
      if fault.Some? { return Err(fault.value); }
      log := log + [Removed(path, files[path])];
      files := files - {path};
      return Ok(());
    }
  }

  datatype Token = Token(path: Path, metadata: Metadata, digest: Bytes)

  datatype Reply =
    | Listed
    | Handed(operationId: Bytes, metadata: Metadata, digest: Bytes, bytes: Bytes)
    | Replaced(operationId: Bytes)

  /** A full attempt: filled temporary, exchange, and removal of what was displaced. */
  function SwapTrace(temporary: Bytes, target: Bytes, replacement: Bytes, displaced: Node): seq<Event> {
    [Created(temporary), Filled(temporary, replacement), Exchanged(temporary, target, displaced), Removed(temporary, displaced)]
  }

  /** A withdrawn attempt: the broker removed its own temporary, filled or not. */
  ghost predicate Withdrawn(trace: seq<Event>, temporary: Bytes, replacement: Bytes) {
    exists own: Node ::
      || trace == [Created(temporary), Removed(temporary, own)]
      || (trace == [Created(temporary), Filled(temporary, replacement), Removed(temporary, own)] && own.bytes == replacement)
  }

  /** A plain file with these bytes. */
  predicate Holds(file: Node, bytes: Bytes) { file.kind.Plain? && file.bytes == bytes }

  /** All that a failed replace may have done; a full attempt passed the check before it failed. */
  ghost predicate Abandoned(trace: seq<Event>, temporary: Bytes, target: Bytes, replacement: Bytes, handed: Bytes) {
    || Withdrawn(trace, temporary, replacement)
    || exists displaced: Node ::
         && trace <= SwapTrace(temporary, target, replacement, displaced)
         && (|trace| == 4 ==> Holds(displaced, handed))
  }

  /** The traces of a swap that has filled its temporary. */
  lemma SwapSoFar(temporary: Bytes, target: Bytes, bytes: Bytes, displaced: Node)
    ensures var trace, filled := SwapTrace(temporary, target, bytes, displaced), [Created(temporary), Filled(temporary, bytes)];
            && filled + [] <= trace && filled + [Exchanged(temporary, target, displaced)] <= trace
            && filled + [Exchanged(temporary, target, displaced), Removed(temporary, displaced)] == trace
  {
  }

  class Broker {
    /** The read that follows `before` found the target as the token describes it, owned by this user. */
    ghost predicate SeenUnchanged(before: seq<(Bytes, Node)>, after: seq<(Bytes, Node)>, target: Bytes, token: Token) {
      && before < after && after[|before|].0 == target
      && after[|before|].1.metadata == token.metadata && sha(after[|before|].1.bytes) == token.digest
      && token.metadata.uid == fs.euid && token.metadata.gid == fs.egid
    }

    /** The file that the token describes, with an owner that can be kept. */
    ghost predicate Replaceable(file: Node, token: Token) {
      && Readable(file) && file.metadata == token.metadata && sha(file.bytes) == token.digest
      && token.metadata.uid == fs.euid && token.metadata.gid == fs.egid
    }

    /** A plain file with the digest that was taken when the token was given out. */
    ghost predicate AsRead(file: Node, token: Token) { file.kind.Plain? && sha(file.bytes) == token.digest }

    const fs: FileSystem
    const sha: Bytes -> Bytes
    var tokens: map<Bytes, Token>
    ghost var handed: map<Bytes, Bytes>   // the bytes given out with each live token

    ghost predicate Valid()
      reads this
    {
      && (forall a, b :: sha(a) == sha(b) ==> a == b)
      && handed.Keys == tokens.Keys
      && forall id | id in tokens ::
           && tokens[id].path != [] && LegalComponents(tokens[id].path)
           && tokens[id].digest == sha(handed[id])
    }

    constructor (fs: FileSystem, sha: Bytes -> Bytes)
      requires forall a, b :: sha(a) == sha(b) ==> a == b
      ensures Valid() && tokens == map[] && this.fs == fs
    {
      this.fs, this.sha := fs, sha;
      tokens, handed := map[], map[];
    }

    /** Probe, open and read; the probe and the opened file must agree. */
    method ReadRegular(path: Bytes) returns (r: Result<Node>)
      modifies fs`clock, fs`files, fs`seen
      ensures old(fs.seen) <= fs.seen
      ensures r.Ok? ==> fs.seen == old(fs.seen) + [(path, r.value)]
      ensures SameReserved(old(fs.files), fs.files)
      ensures r.Ok? ==> path in fs.files && r.value == fs.files[path] && Readable(r.value)
      ensures old(fs.Quiet()) ==> fs.Quiet() && fs.files == old(fs.files) && (r.Ok? <==> path in fs.files && Readable(fs.files[path]))
    {
      var fault := fs.OthersAct();
      var probe := fs.Status(path, fault);
      if probe.Err? { return Err(probe.code); }
      fault := fs.OthersAct();
      var file := fs.ReadFile(path, fault);
      if file.Err? { return file; }
      if file.value.metadata != probe.value { return Err(Integrity); }
      return file;
    }

    /** Reads a target and remembers what was handed out under a fresh operation id. */
    method ReadTarget(path: Path, candidates: seq<Bytes>) returns (r: Result<Reply>)
      requires Valid() && path != [] && LegalComponents(path)
      modifies this, fs`clock, fs`files, fs`seen
      ensures Valid()
      ensures r.Ok? ==>
        && r.value.Handed? && r.value.operationId !in old(tokens)
        && tokens.Keys == old(tokens).Keys + {r.value.operationId}
        && handed == old(handed)[r.value.operationId := r.value.bytes]
        && r.value.digest == sha(r.value.bytes)
        && Joined(path) in fs.files && fs.files[Joined(path)] == Node(Plain, r.value.metadata, r.value.bytes)
      ensures r.Err? ==> tokens == old(tokens) && handed == old(handed)
      ensures old(fs.Quiet()) ==>
        && fs.files == old(fs.files)
        && (r.Ok? <==>
              && Joined(path) in fs.files && Readable(fs.files[Joined(path)])
              && exists i :: 0 <= i < |candidates| && candidates[i] !in old(tokens))
    {
      var file := ReadRegular(Joined(path));
      if file.Err? { return Err(file.code); }
      var digest := sha(file.value.bytes);
      var i := 0;
      while i < |candidates| && candidates[i] in tokens
        invariant 0 <= i <= |candidates| && forall j | 0 <= j < i :: candidates[j] in tokens
      {
        i := i + 1;
      }
      if i == |candidates| { return Err(Io); }
      var id := candidates[i];
      tokens := tokens[id := Token(path, file.value.metadata, digest)];
      handed := handed[id := file.value.bytes];
      return Ok(Handed(id, file.value.metadata, digest, file.value.bytes));
    }

    /** The checks before anything is written: the target still is the file that was read, and its owner can be kept. */
    method CheckTarget(target: Bytes, token: Token) returns (r: Result<()>)
      modifies fs`clock, fs`files, fs`seen
      ensures old(fs.seen) <= fs.seen
      ensures r.Ok? ==> SeenUnchanged(old(fs.seen), fs.seen, target, token)
      ensures old(fs.Quiet()) ==> fs.Quiet() && fs.files == old(fs.files) && (r.Ok? <==> target in fs.files && Replaceable(fs.files[target], token))
    {
      var current := ReadRegular(target);
      if current.Err? { return Err(current.code); }
      if current.value.metadata != token.metadata || sha(current.value.bytes) != token.digest { return Err(Integrity); }
      if token.metadata.uid != fs.euid || token.metadata.gid != fs.egid { return Err(Integrity); }
      return Ok(());
    }

    method WriteTemporary(temporary: Bytes, own: Node, partial: Node) returns (r: Result<()>, ghost trace: seq<Event>)
      requires Reserved(temporary)
      modifies fs
      ensures fs.seen == old(fs.seen)
      ensures fs.log == old(fs.log) + trace
      ensures r.Ok? ==> temporary in fs.files && fs.files[temporary] == own && trace == [Created(temporary), Filled(temporary, own.bytes)]
      ensures r.Err? ==> trace == [] || trace == [Created(temporary)] || trace == [Created(temporary), Removed(temporary, partial)]
      ensures old(fs.Quiet()) ==> fs.Quiet() && (r.Ok? <==> temporary !in old(fs.files))
      ensures old(fs.Quiet()) ==> fs.files == if r.Ok? then old(fs.files)[temporary := own] else old(fs.files)
    {
      trace := [];
      var fault := fs.OthersAct();
      var created := fs.CreateExclusive(temporary, own.metadata.(size := 0), fault);
      if created.Err? { return created, trace; }
      trace := [Created(temporary)];
      fault := fs.OthersAct();
      var filled := fs.Fill(temporary, own, partial, fault);
      if filled.Err? {
        fault := fs.OthersAct();
        var removed := fs.Unlink(temporary, fault);
        if removed.Ok? { trace := [Created(temporary), Removed(temporary, partial)]; }
        return filled, trace;
      }
      return Ok(()), [Created(temporary), Filled(temporary, own.bytes)];
    }

    /** The exchange; when it fails the broker withdraws its temporary. */
    method SwapIn(temporary: Bytes, target: Bytes) returns (r: Result<()>, ghost displaced: Node, ghost trace: seq<Event>)
      requires Reserved(temporary) && temporary in fs.files
      modifies fs
      ensures fs.seen == old(fs.seen)
      ensures fs.log == old(fs.log) + trace
      ensures r.Ok? ==> temporary in fs.files && fs.files[temporary] == displaced && trace == [Exchanged(temporary, target, displaced)]
      ensures r.Err? ==> trace == [] || trace == [Removed(temporary, old(fs.files)[temporary])]
      ensures old(fs.Quiet()) && target in old(fs.files) ==>
        && fs.Quiet() && r.Ok? && displaced == old(fs.files)[target]
        && fs.files == old(fs.files)[target := old(fs.files)[temporary]][temporary := displaced]
    {
      displaced, trace := fs.files[temporary], [];
      var fault := fs.OthersAct();
      r := fs.Exchange(temporary, target, fault);
      if r.Err? {
        fault := fs.OthersAct();
        var removed := fs.Unlink(temporary, fault);
        if removed.Ok? { trace := [Removed(temporary, displaced)]; }
        return;
      }
      displaced := fs.files[temporary];
      trace := [Exchanged(temporary, target, displaced)];
    }

    /** Removes the displaced file, but only when it is the file that was read. */
    method DropDisplaced(temporary: Bytes, token: Token, ghost displaced: Node) returns (r: Result<()>, ghost trace: seq<Event>)
      requires Reserved(temporary) && temporary in fs.files && fs.files[temporary] == displaced
      modifies fs
      ensures old(fs.seen) <= fs.seen
      ensures fs.log == old(fs.log) + trace
      ensures trace == [] || (trace == [Removed(temporary, displaced)] && AsRead(displaced, token))
      ensures r.Ok? ==> trace != []
      ensures old(fs.Quiet()) && Replaceable(displaced, token) ==> r.Ok? && fs.files == old(fs.files) - {temporary}
    {
      trace := [];
      var found := ReadRegular(temporary);
      if found.Err? { return Err(Integrity), trace; }
      if found.value.metadata != token.metadata || sha(found.value.bytes) != token.digest
         || |found.value.bytes| != token.metadata.size {
        return Err(Integrity), trace;
      }
      var fault := fs.OthersAct();
      r := fs.Unlink(temporary, fault);
      if r.Err? { return; }
      trace := [Removed(temporary, displaced)];
      fault := fs.OthersAct();   // opening and syncing the parent directory
      if fault.Some? { return Err(fault.value), trace; }
    }

    /** From the filled temporary on: the exchange, and the removal of what was displaced. */
    method ExchangeAndDrop(temporary: Bytes, target: Bytes, token: Token, ghost own: Node)
      returns (r: Result<()>, ghost displaced: Node, ghost trace: seq<Event>)
      requires Reserved(temporary) && temporary in fs.files && fs.files[temporary] == own
      modifies fs
      ensures old(fs.seen) <= fs.seen && fs.log == old(fs.log) + trace
      ensures r.Ok? ==> trace == [Exchanged(temporary, target, displaced), Removed(temporary, displaced)] && AsRead(displaced, token)
      ensures r.Err? ==>
        || trace == [] || trace == [Removed(temporary, own)] || trace == [Exchanged(temporary, target, displaced)]
        || (trace == [Exchanged(temporary, target, displaced), Removed(temporary, displaced)] && AsRead(displaced, token))
      ensures old(fs.Quiet()) && target in old(fs.files) && Replaceable(old(fs.files)[target], token) ==>
        r.Ok? && fs.files == old(fs.files)[target := own][temporary := displaced] - {temporary}
    {
      r, displaced, trace := SwapIn(temporary, target);
      if r.Err? {
        return;
      }
      ghost var step;
      r, step := DropDisplaced(temporary, token, displaced);
      trace := trace + step;
    }

    /** The writing part: a filled temporary, the exchange, and the removal of what was displaced. */
    method SwapFile(temporary: Bytes, target: Bytes, token: Token, own: Node, partial: Node)
      returns (r: Result<()>, ghost displaced: Node, ghost trace: seq<Event>)
      requires Reserved(temporary)
      modifies fs
      ensures old(fs.seen) <= fs.seen && fs.log == old(fs.log) + trace
      ensures r.Ok? ==> trace == SwapTrace(temporary, target, own.bytes, displaced) && AsRead(displaced, token)
      ensures r.Err? ==>
        || Withdrawn(trace, temporary, own.bytes)
        || (trace <= SwapTrace(temporary, target, own.bytes, displaced) && (|trace| == 4 ==> AsRead(displaced, token)))
      ensures old(fs.Quiet()) && target in old(fs.files) && Replaceable(old(fs.files)[target], token) ==>
        && (r.Ok? <==> temporary !in old(fs.files))
        && fs.files == if r.Ok? then old(fs.files)[target := own] else old(fs.files)
    {
      displaced := own;
      r, trace := WriteTemporary(temporary, own, partial);
      if r.Err? {
        return;
      }
      ghost var step;
      r, displaced, step := ExchangeAndDrop(temporary, target, token, own);
      trace := trace + step;
      SwapSoFar(temporary, target, own.bytes, displaced);
    }

    /**
     The swap. Success means that the file which the exchange took out of the target held
     the bytes handed out with the token; whatever fails, nothing but the broker's own
     temporary or a displaced file that passed that check is ever removed. Nothing at all is
     written before the target was read and found unchanged. When nothing interferes, the swap
     succeeds exactly for the unchanged file and then changes nothing but its content.
     */
    method ReplaceTarget(path: Path, id: Bytes, replacement: Bytes, inode: nat, partial: Node)
      returns (r: Result<Reply>, ghost trace: seq<Event>)
      requires Valid() && path != [] && LegalComponents(path)
      modifies this, fs
      ensures Valid()
      ensures trace != [] ==>
        && id in old(tokens) && old(tokens)[id].path == path
        && SeenUnchanged(old(fs.seen), fs.seen, Joined(path), old(tokens)[id])
      ensures fs.log == old(fs.log) + trace
      ensures r.Ok? ==>
        && r.value == Replaced(id) && id in old(tokens)
        && tokens == old(tokens) - {id} && handed == old(handed) - {id}
        && exists displaced: Node ::
             && trace == SwapTrace(Joined(TemporaryPath(path, id)), Joined(path), replacement, displaced)
             && Holds(displaced, old(handed)[id])
      ensures r.Err? ==>
        && tokens == old(tokens) && handed == old(handed)
        && (id !in old(tokens) ==> trace == [])
        && (id in old(tokens) ==>
             Abandoned(trace, Joined(TemporaryPath(path, id)), Joined(path), replacement, old(handed)[id]))
      ensures old(fs.Quiet()) ==>
        var target := Joined(path);
        && (r.Ok? <==>
              && id in old(tokens) && old(tokens)[id].path == path
              && target in old(fs.files) && old(fs.files)[target].bytes == old(handed)[id] && Replaceable(old(fs.files)[target], old(tokens)[id])
              && Joined(TemporaryPath(path, id)) !in old(fs.files))
        && fs.files ==
           if r.Ok? then old(fs.files)[target := Node(Plain, old(tokens)[id].metadata.(ino := inode, size := |replacement|), replacement)]
           else old(fs.files)
    {
      trace := [];
      if id !in tokens { return Err(Integrity), trace; }
      var token := tokens[id];
      var target := Joined(path);
      var temporary := Joined(TemporaryPath(path, id));
      var own := Node(Plain, token.metadata.(ino := inode, size := |replacement|), replacement);
      assert trace <= SwapTrace(temporary, target, replacement, own);
      if token.path != path { return Err(Integrity), trace; }
      TemporaryIsReserved(path, id);

      var checked := CheckTarget(target, token);
      if checked.Err? { return Err(checked.code), trace; }

      var swapped: Result<()>;
      ghost var displaced: Node;
      swapped, displaced, trace := SwapFile(temporary, target, token, own, partial);
      if swapped.Err? { return Err(swapped.code), trace; }
      tokens := tokens - {id};
      handed := handed - {id};
      return Ok(Replaced(id)), trace;
    }
  }
}
