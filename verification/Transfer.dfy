/** File transfer (src/proto.rs `stat_and_hash`, `send_file_body`, `recv_file_body` and
    their helpers). The digest is a parameter. */
module Transfer {
  import opened Prelude
  import Hex
  import Wire

  const CHUNK: nat := 0x1_0000
  const U64: nat := 0x1_0000_0000_0000_0000
  const STAGING_MODE: nat := 0x180

  type Digest = seq<byte> -> seq<byte>

  datatype Node = Node(bytes: seq<byte>, mode: nat)

  type Files = map<string, Node>

  // ---- The directory ----

  ghost predicate Landed(was: Files, now: Files, name: string, bytes: seq<byte>, whole: bool)
    requires name in was
  {
    exists k :: 0 <= k <= |bytes| && (whole ==> k == |bytes|) && now == was[name := LandedAt(was[name], bytes, k)]
  }

  function LandedAt(was: Node, bytes: seq<byte>, k: nat): Node
    requires k <= |bytes|
  {
    was.(bytes := was.bytes + bytes[..k])
  }

  datatype Creation = Created | AlreadyThere | NotCreated

  /** One directory, with every state its files have been in. `missing` is how many of
      the directories on the path to it, itself included, do not exist yet. `failures`
      counts the operations that failed, `unremoved` the unlinks among them, and `taken`
      the names that were found in use. */
  class Dir {
    var files: Files
    var missing: nat
    var failures: nat
    var unremoved: nat
    var taken: nat
    ghost var log: seq<Files>

    ghost method Note()
      modifies this`log
      ensures log == old(log) + [files]
    {
      log := log + [files];
    }

    /** Anything that changes no file and may fail. */
    method Attempt() returns (ok: bool)
      modifies this`failures
      ensures failures == old(failures) + if ok then 0 else 1
    {
      ok := *;
      failures := failures + if ok then 0 else 1;
    }

    /** `create_dir_all`, which may get only part of the way. */
    method MakeAll() returns (ok: bool)
      modifies this`missing, this`failures
      ensures missing <= old(missing) && (ok ==> missing == 0)
      ensures failures == old(failures) + if ok then 0 else 1
    {
      ok := Attempt();
      var n: int := *;
      missing := if ok then 0 else if 0 <= n <= missing then n else missing;
    }

    /** `create_new`: never opens what exists. */
    method Create(name: string) returns (r: Creation)
      modifies this`files, this`log, this`failures, this`taken
      ensures r == AlreadyThere <==> name in old(files)
      ensures files == if r == Created then old(files)[name := Node([], STAGING_MODE)] else old(files)
      ensures log == if r == Created then old(log) + [files] else old(log)
      ensures failures == old(failures) + if r == NotCreated then 1 else 0
      ensures taken == old(taken) + if r == AlreadyThere then 1 else 0
    {
      if name in files {
        taken := taken + 1;
        return AlreadyThere;
      }
      var ok := Attempt();
      if !ok {
        return NotCreated;
      }
      files := files[name := Node([], STAGING_MODE)];
      Note();
      return Created;
    }

    /** What lands of a write is a prefix of it. */
    method Append(name: string, bytes: seq<byte>) returns (whole: bool)
      requires name in files
      modifies this`files, this`log, this`failures
      ensures Landed(old(files), files, name, bytes, whole)
      ensures log == old(log) + [files] && failures == old(failures) + if whole then 0 else 1
    {
      whole := Attempt();
      var k: int := *;
      k := if whole then |bytes| else if 0 <= k < |bytes| then k else 0;
      files := files[name := LandedAt(files[name], bytes, k)];
      Note();
    }

    method SetMode(name: string, mode: nat) returns (ok: bool)
      requires name in files
      modifies this`files, this`log, this`failures
      ensures files == if ok then old(files)[name := old(files)[name].(mode := mode)] else old(files)
      ensures log == if ok then old(log) + [files] else old(log)
      ensures failures == old(failures) + if ok then 0 else 1
    {
      ok := Attempt();
      if ok {
        files := files[name := files[name].(mode := mode)];
        Note();
      }
    }

    method Rename(name: string, dest: string) returns (ok: bool)
      requires name in files && name != dest
      modifies this`files, this`log, this`failures
      ensures files == if ok then old(files)[dest := old(files)[name]] - {name} else old(files)
      ensures log == if ok then old(log) + [files] else old(log)
      ensures failures == old(failures) + if ok then 0 else 1
    {
      ok := Attempt();
      if ok {
        files := files[dest := files[name]] - {name};
        Note();
      }
    }

    method Unlink(name: string)
      requires name in files
      modifies this`files, this`log, this`failures, this`unremoved
      ensures files == old(files) - {name} || files == old(files)
      ensures log == if files == old(files) then old(log) else old(log) + [files]
      ensures unremoved == old(unremoved) + if files == old(files) then 1 else 0
      ensures failures >= old(failures)
    {
      var ok := Attempt();
      if ok {
        files := files - {name};
        Note();
      } else {
        unremoved := unremoved + 1;
      }
    }
  }

  // ---- The stream and the staging file ----

  /** A body arriving in pieces: `rest` is what the transport will still deliver. */
  class Body {
    var rest: seq<byte>
    const tail: Wire.Tail

    method Read() returns (ok: bool, chunk: seq<byte>)
      modifies this
      ensures |chunk| <= CHUNK && chunk <= old(rest) && rest == old(rest)[|chunk|..]
      ensures old(rest) != [] ==> ok && chunk != []
      ensures old(rest) == [] ==> ok == tail.Eof?
    {
      if rest == [] {
        return tail.Eof?, [];
      }
      var n: int := *;
      n := if 1 <= n <= |rest| && n <= CHUNK then n else 1;
      ok, chunk := true, rest[..n];
      rest := rest[n..];
    }
  }

  /** The asynchronous file: a write is accepted before it lands, and a failure is kept
      and reported by the next write or by a flush. */
  class Part {
    const dir: Dir
    const name: string
    var stashed: bool
    /** What was accepted, and whether an error has been reported. */
    ghost var accepted: seq<byte>
    ghost var reported: bool
    ghost const before: nat

    constructor (dir: Dir, name: string)
      ensures this.dir == dir && this.name == name && before == dir.failures
      ensures !stashed && accepted == [] && !reported
    {
      this.dir, this.name, before := dir, name, dir.failures;
      stashed, accepted, reported := false, [], false;
    }

    ghost predicate Valid()
      reads this, dir
    {
      && name in dir.files && dir.files[name].bytes <= accepted
      && (!stashed && !reported ==> dir.files[name].bytes == accepted)
      && dir.failures >= before && (stashed || reported ==> dir.failures > before)
    }

    method WriteAll(bytes: seq<byte>) returns (ok: bool)
      requires Valid() && !reported
      modifies this, dir`files, dir`log, dir`failures
      ensures Valid()
      ensures accepted == if ok then old(accepted) + bytes else old(accepted)
      ensures reported == !ok
      ensures dir.files == old(dir.files)[name := Node(dir.files[name].bytes, old(dir.files)[name].mode)]
      ensures old(dir.log) <= dir.log && |dir.log| <= |old(dir.log)| + 1
      ensures forall i :: |old(dir.log)| <= i < |dir.log| ==> dir.log[i] == dir.files
      ensures !ok ==> old(stashed)
    {
      if stashed {
        stashed, reported := false, true;
        return false;
      }
      var whole := dir.Append(name, bytes);
      accepted := accepted + bytes;
      stashed := !whole;
      return true;
    }

    method Flush() returns (ok: bool)
      requires Valid()
      modifies this
      ensures Valid() && accepted == old(accepted)
      ensures ok == !old(stashed) && (ok ==> reported == old(reported) && !stashed) && (!ok ==> reported)
    {
      ok := !stashed;
      if stashed {
        stashed, reported := false, true;
      }
    }
  }

  // ---- Sending ----

  /** What `fstat` says of the opened file: whether it is a regular one, and its mode. */
  datatype Meta = Meta(regular: bool, mode: nat)

  /** Permission bits, length and digest of what a regular file holds. `meta` is `None`
      when the file cannot be opened or examined. */
  method StatAndHash(f: Body, meta: Option<Meta>, sha: Digest)
    returns (ok: bool, mode: nat, len: nat, digest: seq<byte>)
    modifies f
    ensures ok <==> meta.Some? && meta.value.regular && f.tail.Eof?
    ensures ok ==> mode == meta.value.mode % 0x1000 && len == |old(f.rest)| && digest == sha(old(f.rest))
    ensures meta.None? || !meta.value.regular ==> f.rest == old(f.rest)
  {
    ok, mode, len, digest := false, 0, 0, [];
    if meta.None? || !meta.value.regular {
      return;
    }
    var hashed: seq<byte> := [];
    while true
      invariant hashed + f.rest == old(f.rest) && len == |hashed|
      decreases |f.rest|
    {
      var got, buf := f.Read();
      if !got {
        return;
      }
      if |buf| == 0 {
        break;
      }
      hashed, len := hashed + buf, len + |buf|;
    }
    assert hashed == old(f.rest);
    ok, mode, digest := true, meta.value.mode % 0x1000, sha(hashed);
  }

  /** A body reported sent is the whole file; otherwise some prefix went out. */
  method SendFileBody(f: Body, out: Wire.Sink) returns (ok: bool)
    modifies f, out
    ensures ok ==> f.tail.Eof? && out.data == old(out.data) + old(f.rest)
    ensures old(out.data) <= out.data <= old(out.data) + old(f.rest)
    ensures !ok ==> f.tail.Reset? || out.broken
  {
    while true
      invariant old(out.data) <= out.data && out.data + f.rest == old(out.data) + old(f.rest)
      decreases |f.rest|
    {
      ghost var before, rest := out.data, f.rest;
      var got, buf := f.Read();
      if !got {
        return false;
      }
      if |buf| == 0 {
        break;
      }
      Assoc(before, buf, f.rest);
      assert rest == buf + f.rest;
      var wrote := out.WriteAll(buf);
      if !wrote {
        return false;
      }
    }
    ok := out.Flush();
  }

  // ---- Room ----

  /** What `statvfs` reports, each field a 64-bit count. */
  datatype Room = Room(blocks: nat, free: nat, size: nat)

  function SaturatingMul(a: nat, b: nat): nat {
    if a * b < U64 then a * b else U64 - 1
  }

  /** A file system that reports no blocks keeps no account and always has room. */
  predicate HasRoom(room: Room, len: nat) {
    room.blocks == 0 || len <= room.free * room.size
  }

  /** `ensure_free_space`: for a length of 64 bits, saturating loses nothing. */
  method EnsureFreeSpace(room: Room, len: nat) returns (ok: bool)
    requires len < U64
    ensures ok <==> HasRoom(room, len)
  {
    if room.blocks == 0 {
      return true;
    }
    var free := SaturatingMul(room.free, room.size);
    ok := len <= free;
  }

  // ---- Receiving ----

  /** Nothing but the staging file differs from `was`, and that holds at most `len`. */
  ghost predicate Quiet(was: Files, now: Files, tmp: string, len: nat) {
    && now - {tmp} == was
    && (tmp in now ==> |now[tmp].bytes| <= len)
  }

  /** The same of every state since `from`. */
  ghost predicate QuietSince(log: seq<Files>, from: nat, was: Files, tmp: string, len: nat) {
    forall i :: from <= i < |log| ==> Quiet(was, log[i], tmp, len)
  }

  /** Eight bytes nobody can foresee. */
  method Draw() returns (nonce: seq<byte>)
    ensures |nonce| == 8
  {
    var drawn: seq<byte> := *;
    nonce := if |drawn| == 8 then drawn else seq(8, i => 0);
  }

  /** The staging file: next to `dest`, under a name nothing had. */
  method CreatePart(dir: Dir, dest: string) returns (tmp: Option<string>)
    modifies dir`files, dir`log, dir`failures, dir`taken
    ensures tmp.Some? ==> tmp.value !in old(dir.files) && tmp.value != dest
    ensures tmp.Some? ==> dest + ".egdod-part." <= tmp.value && |tmp.value| == |dest| + 12 + 16
    ensures dir.files == if tmp.Some? then old(dir.files)[tmp.value := Node([], 0x180)] else old(dir.files)
    ensures dir.log == if tmp.Some? then old(dir.log) + [dir.files] else old(dir.log)
    ensures tmp.None? <==> dir.failures > old(dir.failures) || dir.taken == old(dir.taken) + 8
    ensures dir.failures >= old(dir.failures) && old(dir.taken) <= dir.taken <= old(dir.taken) + 8
  {
    tmp := None;
    for tries := 0 to 8
      invariant dir.files == old(dir.files) && dir.log == old(dir.log)
      invariant dir.failures == old(dir.failures) && dir.taken == old(dir.taken) + tries
    {
      var drawn := dir.Attempt();
      if !drawn {
        return;
      }
      var nonce := Draw();
      var name := dest + ".egdod-part." + Hex.Encode(nonce);
      Hex.EncodeShape(nonce);
      var made := dir.Create(name);
      if made == Created {
        return Some(name);
      }
      if made == NotCreated {
        return;
      }
    }
  }

  /** The body into the staging file, stopping at the announced length. */
  method Drain(peer: Body, part: Part, len: nat, ghost was: Files) returns (ok: bool, hashed: seq<byte>)
    requires part.Valid() && part.accepted == [] && !part.stashed && !part.reported
    requires part.name !in was && Quiet(was, part.dir.files, part.name, len)
    modifies peer, part, part.dir`files, part.dir`log, part.dir`failures
    ensures part.Valid() && Quiet(was, part.dir.files, part.name, len)
    ensures old(part.dir.log) <= part.dir.log
    ensures QuietSince(part.dir.log, |old(part.dir.log)|, was, part.name, len)
    ensures hashed + peer.rest == old(peer.rest) && |hashed| <= len + CHUNK
    ensures ok ==> peer.rest == [] && peer.tail.Eof? && part.accepted == hashed && |hashed| <= len
    ensures part.reported ==> !ok
    ensures !ok && !part.reported ==> |hashed| > len || peer.tail.Reset?
  {
    hashed := [];
    while true
      invariant part.Valid() && !part.reported && part.accepted == hashed
      invariant Quiet(was, part.dir.files, part.name, len)
      invariant old(part.dir.log) <= part.dir.log
      invariant QuietSince(part.dir.log, |old(part.dir.log)|, was, part.name, len)
      invariant hashed + peer.rest == old(peer.rest) && |hashed| <= len
      decreases |peer.rest|
    {
      ghost var rest, sofar := peer.rest, hashed;
      var got, buf := peer.Read();
      if !got {
        return false, hashed;
      }
      if |buf| == 0 {
        return true, hashed;
      }
      assert rest == buf + peer.rest;
      Assoc(sofar, buf, peer.rest);
      hashed := hashed + buf;
      if |hashed| > len {
        return false, hashed;
      }
      var wrote := part.WriteAll(buf);
      if !wrote {
        return false, hashed;
      }
    }
  }

  /** How a transfer that failed leaves things: at every moment quiet, and now as before
      but for a staging file that would not go. */
  ghost predicate Kept(was: Files, now: Files, log: seq<Files>, from: nat, tmp: string, len: nat, stuck: bool) {
    QuietSince(log, from, was, tmp, len) && Quiet(was, now, tmp, len) && (now == was || stuck)
  }

  /** How one that succeeded does: quiet until the one step that put `node` in place. */
  ghost predicate Replaced(was: Files, now: Files, log: seq<Files>, from: nat, tmp: string, len: nat,
                           dest: string, node: Node) {
    && now == was[dest := node]
    && |log| > from && log[|log| - 1] == now && QuietSince(log[..|log| - 1], from, was, tmp, len)
  }

  /** Removes the staging file if it can. */
  method Discard(dir: Dir, tmp: string, ghost was: Files, len: nat)
    requires tmp in dir.files && tmp !in was && Quiet(was, dir.files, tmp, len)
    modifies dir`files, dir`log, dir`failures, dir`unremoved
    ensures old(dir.log) <= dir.log && dir.failures >= old(dir.failures) && dir.unremoved >= old(dir.unremoved)
    ensures Kept(was, dir.files, dir.log, |old(dir.log)|, tmp, len, dir.unremoved > old(dir.unremoved))
  {
    dir.Unlink(tmp);
  }

  /** The verified staging file takes its mode and then the destination's name. */
  method Land(dir: Dir, tmp: string, dest: string, mode: nat, ghost was: Files, len: nat) returns (ok: bool)
    requires tmp in dir.files && tmp !in was && tmp != dest && Quiet(was, dir.files, tmp, len)
    modifies dir`files, dir`log, dir`failures, dir`unremoved
    ensures old(dir.log) <= dir.log && dir.failures >= old(dir.failures) && dir.unremoved >= old(dir.unremoved)
    ensures ok ==>
      Replaced(was, dir.files, dir.log, |old(dir.log)|, tmp, len, dest, Node(old(dir.files)[tmp].bytes, mode))
    ensures !ok ==> dir.failures > old(dir.failures)
    ensures !ok ==> Kept(was, dir.files, dir.log, |old(dir.log)|, tmp, len, dir.unremoved > old(dir.unremoved))
  {
    ok := dir.SetMode(tmp, mode);
    if ok {
      ok := dir.Rename(tmp, dest);
    }
    if !ok {
      Discard(dir, tmp, was, len);
    }
  }

  /** The header's claim holds of the bytes that arrive. */
  predicate Sound(sha: Digest, body: seq<byte>, len: nat, digest: seq<byte>) {
    |body| == len && sha(body) == digest
  }

  /** No more is taken from the peer than the announced length and one chunk. */
  ghost predicate Took(was: seq<byte>, rest: seq<byte>, len: nat) {
    exists n :: 0 <= n <= |was| && n <= len + CHUNK && rest == was[n..]
  }

  method ReceiveInto(peer: Body, dir: Dir, tmp: string, dest: string, len: nat, sha: Digest, digest: seq<byte>,
                     mode: nat, ghost was: Files)
    returns (ok: bool)
    requires tmp !in was && tmp != dest && dir.files == was[tmp := Node([], STAGING_MODE)]
    modifies peer, dir`files, dir`log, dir`failures, dir`unremoved
    ensures old(dir.log) <= dir.log && Took(old(peer.rest), peer.rest, len)
    ensures dir.failures >= old(dir.failures) && dir.unremoved >= old(dir.unremoved)
    ensures ok ==> peer.tail.Eof? && Sound(sha, old(peer.rest), len, digest)
    ensures ok ==> Replaced(was, dir.files, dir.log, |old(dir.log)|, tmp, len, dest, Node(old(peer.rest), mode))
    ensures !ok ==> Kept(was, dir.files, dir.log, |old(dir.log)|, tmp, len, dir.unremoved > old(dir.unremoved))
    ensures dir.failures == old(dir.failures) ==> (ok <==> peer.tail.Eof? && Sound(sha, old(peer.rest), len, digest))
  {
    var part := new Part(dir, tmp);
    var drained, hashed := Drain(peer, part, len, was);
    assert old(peer.rest)[|hashed|..] == peer.rest;
    assert drained ==> hashed == old(peer.rest);
    var flushed := part.Flush();
    if flushed {
      flushed := dir.Attempt();
    }
    ok := drained && flushed && |hashed| == len && sha(hashed) == digest;
    if ok {
      ok := Land(dir, tmp, dest, mode, was, len);
    } else {
      Discard(dir, tmp, was, len);
    }
  }

  /** `dest` is `None` for a path with no file name and `room` is `None` when `statvfs`
      fails. `tmp` is the staging file, if there was one. */
  method RecvFileBody(peer: Body, dir: Dir, dest: Option<string>, len: nat, sha: Digest, digest: seq<byte>,
                      mode: nat, max: nat, room: Option<Room>)
    returns (ok: bool, ghost tmp: Option<string>)
    requires len < U64
    modifies peer, dir
    ensures old(dir.log) <= dir.log && Took(old(peer.rest), peer.rest, len)
    // Success: the destination holds exactly the bytes that arrived, as announced.
    ensures ok ==> len <= max && peer.tail.Eof? && Sound(sha, old(peer.rest), len, digest)
    ensures ok ==> tmp.Some? && dest.Some? && Replaced(old(dir.files), dir.files, dir.log, |old(dir.log)|,
                                                      tmp.value, len, dest.value, Node(old(peer.rest), mode))
    // Failure: no file has changed, but for a staging file whose unlink failed.
    ensures !ok && tmp.Some? ==>
      Kept(old(dir.files), dir.files, dir.log, |old(dir.log)|, tmp.value, len, dir.unremoved > old(dir.unremoved))
    ensures tmp.None? ==> !ok && dir.files == old(dir.files) && dir.log == old(dir.log) && peer.rest == old(peer.rest)
    ensures tmp.Some? ==> tmp.value !in old(dir.files) && dest != tmp && dir.missing == 0
    // A header over the ceiling or the free space reads nothing and stages nothing; only
    // one over the ceiling leaves missing directories unmade.
    ensures len > max || (room.Some? && !HasRoom(room.value, len)) ==> tmp.None?
    ensures dir.missing <= old(dir.missing)
    ensures dir.missing < old(dir.missing) ==> len <= max && dest.Some?
    // Unless an operation failed or eight names were taken, success is exactly the header
    // being sound.
    ensures dir.failures == old(dir.failures) && dir.taken < old(dir.taken) + 8 ==>
      (ok <==> dest.Some? && len <= max && room.Some? && HasRoom(room.value, len)
               && peer.tail.Eof? && Sound(sha, old(peer.rest), len, digest))
  {
    ok, tmp := false, None;
    assert old(peer.rest)[0..] == old(peer.rest);
    if len > max || dest.None? {
      return;
    }
    var made := dir.MakeAll();
    if !made || room.None? {
      return;
    }
    var fits := EnsureFreeSpace(room.value, len);
    if !fits {
      return;
    }
    var name := CreatePart(dir, dest.value);
    tmp := name;
    if name.Some? {
      ok := ReceiveInto(peer, dir, name.value, dest.value, len, sha, digest, mode, old(dir.files));
    }
  }
}
