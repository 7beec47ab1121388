/** Copying an open file in chunks, with reads and writes that may be short, while the file may change. */
module OpenFiles {
  import opened Wrappers

  newtype byte = x: int | 0 <= x < 256

  const CHUNK := 64 * 1024

  datatype CopyError = Changed | WriteIncomplete | ReadFailed | WriteFailed

  /** A file at one instant: whether it has a single link, what it holds, and its time stamps. */
  datatype State = State(single: bool, bytes: seq<byte>, stamp: nat)

  /** One file over time, which is counted in system calls. */
  type History = nat -> State

  /** What the walk recorded of a file. */
  datatype Stat = Stat(inode: nat, size: nat, stamp: nat)

  /** The file system's part: a change of the contents changes the stamps, and old stamps do not come back. */
  ghost predicate Stamped(h: History) {
    forall s, t, u | s <= t <= u && h(s).stamp == h(u).stamp :: h(t).bytes == h(s).bytes
  }

  /** The record was made at time `since`, when the file held `bytes`. */
  ghost predicate Recorded(h: History, stat: Stat, since: nat, bytes: seq<byte>) {
    h(since).stamp == stat.stamp && h(since).bytes == bytes && |bytes| == stat.size
  }

  /** The file has held `bytes` from `since` until before `until`. */
  ghost predicate Steady(h: History, since: nat, until: nat, bytes: seq<byte>) {
    forall t | since <= t < until :: h(t).bytes == bytes
  }

  /** Unchanged stamps mean that the file has held the recorded bytes all the time. */
  lemma StampsTell(h: History, stat: Stat, since: nat, bytes: seq<byte>, last: nat)
    requires Stamped(h) && Recorded(h, stat, since, bytes) && since <= last && h(last).stamp == stat.stamp
    ensures Steady(h, since, last + 1, bytes)
  {
  }

  /** The system calls: call number n fails if `fail(n)`, and otherwise moves as much as `amount(n)` allows. */
  class Io {
    const fail: nat -> bool
    const amount: nat -> nat
    var calls: nat

    constructor (fail: nat -> bool, amount: nat -> nat)
      ensures this.fail == fail && this.amount == amount && calls == 0
    {
      this.fail, this.amount, calls := fail, amount, 0;
    }

    /** Calls neither fail nor make no progress. */
    ghost predicate Willing() {
      forall n :: !fail(n) && amount(n) > 0
    }

    /** readSync of at most `requested` bytes at `position`: nothing at the end of the file, else at least
        one byte. The rest of the buffer keeps what it held. */
    method Read(source: seq<byte>, buffer: array<byte>, requested: nat, position: nat) returns (count: Option<nat>)
      requires 0 < requested <= buffer.Length
      modifies buffer, this`calls
      ensures calls == old(calls) + 1
      ensures count.None? ==> !Willing()
      ensures count.Some? ==> count.value <= requested && (count.value == 0 <==> position >= |source|)
      ensures count.Some? && count.value > 0 ==>
        position + count.value <= |source| && buffer[..count.value] == source[position..position + count.value]
    {
      var n := calls;
      calls := calls + 1;
      if fail(n) { return None; }
      if position >= |source| { return Some(0); }
      var limit := if requested < |source| - position then requested else |source| - position;
      var moved := if amount(n) == 0 then 1 else if amount(n) < limit then amount(n) else limit;
      for i := 0 to moved
        invariant buffer[..i] == source[position..position + i] && calls == old(calls) + 1
      {
        buffer[i] := source[position + i];
      }
      count := Some(moved);
    }

    /** readSync of a file that may change between the calls. */
    method ReadFile(h: History, buffer: array<byte>, requested: nat, position: nat) returns (count: Option<nat>)
      requires 0 < requested <= buffer.Length
      modifies buffer, this`calls
      ensures calls == old(calls) + 1
      ensures count.None? ==> !Willing()
      ensures var source := h(old(calls)).bytes;
        count.Some? ==> count.value <= requested && (count.value == 0 <==> position >= |source|)
      ensures var source := h(old(calls)).bytes;
        count.Some? && count.value > 0 ==>
          position + count.value <= |source| && buffer[..count.value] == source[position..position + count.value]
    {
      count := Read(h(calls).bytes, buffer, requested, position);
    }

    /** fstatSync */
    method Status(h: History) returns (state: Option<State>)
      modifies this`calls
      ensures calls == old(calls) + 1
      ensures state.None? ==> !Willing()
      ensures state.Some? ==> state.value == h(old(calls))
    {
      var n := calls;
      calls := calls + 1;
      state := if fail(n) then None else Some(h(n));
    }

    /** writeSync of buffer[offset..offset + length], appended to an open file; it may write less, or nothing. */
    method Write(target: OpenFile, buffer: array<byte>, offset: nat, length: nat) returns (written: Option<nat>)
      requires offset + length <= buffer.Length
      modifies target, this`calls
      ensures calls == old(calls) + 1
      ensures written.None? ==> target.content == old(target.content) && !Willing()
      ensures written.Some? ==> written.value <= length
      ensures written.Some? ==> target.content == old(target.content) + buffer[offset..offset + written.value]
      ensures written.Some? && written.value == 0 && length > 0 ==> !Willing()
    {
      var n := calls;
      calls := calls + 1;
      if fail(n) { return None; }
      var moved := if amount(n) < length then amount(n) else length;
      target.content := target.content + buffer[offset..offset + moved];
      written := Some(moved);
    }
  }

  class OpenFile {
    var content: seq<byte>

    constructor ()
      ensures content == []
    {
      content := [];
    }
  }

  /** writeAll: the first `length` bytes of the buffer, however short the writes. */
  method WriteAll(io: Io, target: OpenFile, buffer: array<byte>, length: nat) returns (error: Option<CopyError>)
    requires length <= buffer.Length
    modifies target, io`calls
    ensures io.calls >= old(io.calls)
    ensures error.None? ==> target.content == old(target.content) + buffer[..length]
    ensures error.Some? ==> !io.Willing()
    ensures error.Some? ==> exists n :: 0 <= n <= length && target.content == old(target.content) + buffer[..n]
  {
    var offset := 0;
    while offset < length
      invariant offset <= length && target.content == old(target.content) + buffer[..offset]
      invariant io.calls >= old(io.calls)
    {
      ghost var before := target.content;
      var written := io.Write(target, buffer, offset, length - offset);
      if written.None? {
        return Some(WriteFailed);
      }
      assert buffer[..offset] + buffer[offset..offset + written.value] == buffer[..offset + written.value];
      if written.value < 1 {
        return Some(WriteIncomplete);
      }
      offset := offset + written.value;
    }
    error := None;
  }

  /** copyOpenFile: `stat` is what the walk recorded when the file held `bytes`, and `h` what the opened file,
      number `inode`, goes through. For every schedule of short reads and writes and of changes to the file, a
      copy without an error is exactly the recorded bytes. If the calls work, it fails exactly if another file
      was opened, or one with several links, or if the stamps are not the recorded ones at the last call. */
  method CopyOpenFile(io: Io, inode: nat, h: History, stat: Stat, target: OpenFile, ghost since: nat,
                      ghost bytes: seq<byte>)
    returns (error: Option<CopyError>)
    requires target.content == [] && since <= io.calls
    requires inode == stat.inode ==> Stamped(h) && Recorded(h, stat, since, bytes)
    modifies target, io`calls
    ensures io.calls > old(io.calls)
    ensures error.None? ==> target.content == bytes && inode == stat.inode && Steady(h, since, io.calls, bytes)
    ensures error.None? ==> h(io.calls - 1).stamp == stat.stamp
    ensures io.Willing() ==>
      (error.None? <==> inode == stat.inode && h(old(io.calls)).single && h(io.calls - 1).stamp == stat.stamp)
    ensures error.Some? && Steady(h, since, io.calls, bytes) ==> target.content <= bytes
  {
    var current := io.Status(h);
    if current.None? { return Some(ReadFailed); }
    if !current.value.single || inode != stat.inode { return Some(Changed); }
    error := CopyChunks(io, h, stat, target, since, bytes);
    if error.Some? { return; }
    ghost var last := io.calls;
    var after := io.Status(h);
    if after.None? { return Some(ReadFailed); }
    if |after.value.bytes| != stat.size || after.value.stamp != stat.stamp {
      error := Some(Changed);
    }
    if h(last).stamp == stat.stamp { StampsTell(h, stat, since, bytes, last); }
  }

  /** A read that meets another length than the recorded one sees other stamps, too. */
  lemma LengthTells(h: History, stat: Stat, since: nat, bytes: seq<byte>, n: nat)
    requires Stamped(h) && Recorded(h, stat, since, bytes) && since <= n && |h(n).bytes| != stat.size
    ensures h(n).stamp != stat.stamp && !Steady(h, since, n + 1, bytes)
  {
  }

  /** One chunk: read at `position` and appended. */
  method CopyChunk(io: Io, h: History, stat: Stat, target: OpenFile, buffer: array<byte>, position: nat,
                   ghost since: nat, ghost bytes: seq<byte>)
    returns (error: Option<CopyError>, copied: nat)
    requires position < stat.size && buffer.Length == CHUNK && since <= io.calls
    requires Stamped(h) && Recorded(h, stat, since, bytes)
    requires Steady(h, since, io.calls, bytes) ==> target.content == bytes[..position]
    modifies target, buffer, io`calls
    ensures io.calls > old(io.calls)
    ensures error.None? ==> 0 < copied <= stat.size - position
    ensures error.None? ==> (Steady(h, since, io.calls, bytes) ==> target.content == bytes[..position + copied])
    ensures error.Some? ==> (Steady(h, since, io.calls, bytes) ==> target.content <= bytes)
    ensures io.Willing() && error.Some? ==> h(io.calls - 1).stamp != stat.stamp
  {
    hide Stamped;
    var requested := if stat.size - position < CHUNK then stat.size - position else CHUNK;
    ghost var n, before := io.calls, target.content;
    copied := 0;
    var count := io.ReadFile(h, buffer, requested, position);
    if count.None? || count.value == 0 {
      assert Steady(h, since, io.calls, bytes) ==> Steady(h, since, n, bytes);
      if count.None? { return Some(ReadFailed), 0; }
      LengthTells(h, stat, since, bytes, n);
      return Some(Changed), 0;
    }
    copied := count.value;
    ghost var chunk := buffer[..copied];
    error := WriteAll(io, target, buffer, copied);
    assert buffer[..copied] == chunk;
    ghost var m := copied;
    if error.Some? { m :| 0 <= m <= copied && target.content == before + buffer[..m]; }
    assert buffer[..m] == chunk[..m] && (m == copied ==> chunk[..m] == chunk);
    ChunkCopied(h, since, n, io.calls, bytes, position, chunk, before, m);
  }

  /** The loop over the chunks, and the read after it that must find the end. */
  method CopyChunks(io: Io, h: History, stat: Stat, target: OpenFile, ghost since: nat, ghost bytes: seq<byte>)
    returns (error: Option<CopyError>)
    requires target.content == [] && since < io.calls && Stamped(h) && Recorded(h, stat, since, bytes)
    modifies target, io`calls
    ensures io.calls > old(io.calls)
    ensures Steady(h, since, io.calls, bytes) ==> target.content <= bytes && (error.None? ==> target.content == bytes)
    ensures io.Willing() && error.Some? ==> h(io.calls - 1).stamp != stat.stamp
  {
    hide Stamped;
    var buffer := new byte[CHUNK];
    var position := 0;
    while position < stat.size
      invariant position <= stat.size && io.calls >= old(io.calls)
      invariant Steady(h, since, io.calls, bytes) ==> target.content == bytes[..position]
      invariant fresh(buffer) && buffer.Length == CHUNK
    {
      var copied;
      error, copied := CopyChunk(io, h, stat, target, buffer, position, since, bytes);
      if error.Some? { return; }
      position := position + copied;
    }
    ghost var n := io.calls;
    assert bytes[..stat.size] == bytes;
    var extra := io.ReadFile(h, buffer, 1, position);
    assert Steady(h, since, io.calls, bytes) ==> Steady(h, since, n, bytes);
    if extra.None? { return Some(ReadFailed); }
    if extra.value != 0 {
      LengthTells(h, stat, since, bytes, n);
      return Some(Changed);
    }
    error := None;
  }

  /** What one turn of the loop adds, if the file is steady. */
  lemma ChunkCopied(h: History, since: nat, n: nat, until: nat, bytes: seq<byte>, position: nat, chunk: seq<byte>,
                    before: seq<byte>, m: nat)
    requires since <= n < until && (Steady(h, since, n, bytes) ==> position <= |bytes| && before == bytes[..position])
    requires position + |chunk| <= |h(n).bytes| && chunk == h(n).bytes[position..position + |chunk|] && m <= |chunk|
    ensures Steady(h, since, until, bytes) ==>
      position + |chunk| <= |bytes| && before + chunk[..m] == bytes[..position + m]
  {
    if Steady(h, since, until, bytes) {
      assert Steady(h, since, n, bytes) && h(n).bytes == bytes;
      assert bytes[..position] + chunk[..m] == bytes[..position + m];
    }
  }
}
