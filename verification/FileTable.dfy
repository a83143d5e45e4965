/** The open-file table that all shards share, on top of the parsed root file system. */
module FileTable {
  import opened Bytes
  import opened Bitmap
  import opened Ext2
  import opened Ext2Image
  import opened RootFs

  const MAX_OPEN_FILES: nat := 16

  datatype OpenFile = OpenFile(active: bool, shard: nat, inode: u32, size: nat, offset: nat)

  const CLOSED := OpenFile(false, 0, 0, 0, 0)

  /** A file system call. `mapped` is the verdict of buffer validation. `Exit` stands for the release
      of a finishing shard's files. */
  datatype Op =
    | Open(path: seq<byte>, mapped: bool)
    | Read(fd: nat, len: nat, mapped: bool)
    | Stat(fd: nat)
    | Close(fd: nat)
    | Exit

  datatype Event = Event(caller: nat, op: Op)

  /** What a call returns: a number or an error, and the bytes put into the caller's buffer. */
  datatype Reply = Reply(code: Option<nat>, bytes: seq<byte>)

  const FAILED := Reply(None, [])

  // ------------------------------------------------------------------ specification

  predicate Owns(files: seq<OpenFile>, s: nat, fd: nat) {
    fd < |files| && files[fd].active && files[fd].shard == s
  }

  /** Each open file is a regular file with its recorded size, read no further than its end. */
  ghost predicate Consistent(model: seq<byte>, files: seq<OpenFile>) {
    && |files| == MAX_OPEN_FILES
    && forall fd: nat :: fd < |files| ==>
         if files[fd].active then
           && files[fd].inode in {11, 12} && files[fd].size == |Contents(model, files[fd].inode)|
           && files[fd].offset <= files[fd].size
         else files[fd] == CLOSED
  }

  /** The lowest closed slot, or the size of the table. */
  function FirstClosed(files: seq<OpenFile>): (fd: nat)
    ensures fd <= |files| && (fd < |files| ==> !files[fd].active)
    ensures forall g: nat :: g < fd ==> files[g].active
  {
    if files == [] || !files[0].active then 0
    else
      var r := FirstClosed(files[1..]);
      assert forall g: nat :: 0 < g < 1 + r ==> files[g] == files[1..][g - 1];
      1 + r
  }

  function Released(files: seq<OpenFile>, s: nat): seq<OpenFile> {
    seq(|files|, i requires 0 <= i < |files| => if files[i].active && files[i].shard == s then CLOSED else files[i])
  }

  /** What a read of `len` bytes returns: the file from the offset on, cut at `len` and at its end. */
  function Slice(model: seq<byte>, f: OpenFile, len: nat): seq<byte> {
    var c := Contents(model, f.inode);
    if f.offset >= |c| then [] else c[f.offset..f.offset + Min(len, |c| - f.offset)]
  }

  function Effect(model: seq<byte>, files: seq<OpenFile>, e: Event): (seq<OpenFile>, Reply) {
    match e.op
    case Open(path, mapped) =>
      var ino := Named(BaseName(path));
      if path == [] || |path| > 256 || !mapped || ino.None? || ino.value == 2 || FirstClosed(files) == |files| then (files, FAILED)
      else
        var fd := FirstClosed(files);
        (files[fd := OpenFile(true, e.caller, ino.value, |Contents(model, ino.value)|, 0)], Reply(Some(fd), []))
    case Read(fd, len, mapped) =>
      if !Owns(files, e.caller, fd) || len == 0 || !mapped then (files, FAILED)
      else
        var bytes := Slice(model, files[fd], len);
        (files[fd := files[fd].(offset := files[fd].offset + |bytes|)], Reply(Some(|bytes|), bytes))
    case Stat(fd) =>
      if !Owns(files, e.caller, fd) then (files, FAILED) else (files, Reply(Some(files[fd].size), []))
    case Close(fd) =>
      if !Owns(files, e.caller, fd) then (files, FAILED) else (files[fd := CLOSED], Reply(Some(0), []))
    case Exit => (Released(files, e.caller), Reply(Some(0), []))
  }

  // ------------------------------------------------------------------ one step

  lemma EffectIsValid(model: seq<byte>, files: seq<OpenFile>, e: Event)
    requires Consistent(model, files)
    ensures Consistent(model, Effect(model, files, e).0)
  {}

  lemma InBounds(model: seq<byte>, files: seq<OpenFile>, s: nat, fd: nat)
    requires Consistent(model, files) && Owns(files, s, fd)
    ensures files[fd].offset <= |Contents(model, files[fd].inode)|
  {}

  lemma TableSize(model: seq<byte>, files: seq<OpenFile>)
    requires Consistent(model, files)
    ensures |files| == MAX_OPEN_FILES
  {}

  /** Slot `fd` is the only one that may differ. */
  ghost predicate OnlySlot(files: seq<OpenFile>, after: seq<OpenFile>, fd: nat) {
    |after| == |files| && forall g: nat :: g < |files| && g != fd ==> after[g] == files[g]
  }

  /** An open succeeds exactly for "hello.txt" and "model.bin", with or without one slash in front, in a
      buffer of at most 256 valid bytes, while a slot is closed. It takes the lowest closed slot, at the
      start of that file. */
  lemma OpenIsExact(model: seq<byte>, files: seq<OpenFile>, s: nat, path: seq<byte>, mapped: bool)
    requires Consistent(model, files)
    ensures var (after, reply) := Effect(model, files, Event(s, Open(path, mapped)));
            var isHello, isModel := path in [HELLO_NAME, [47] + HELLO_NAME], path in [MODEL_NAME, [47] + MODEL_NAME];
            && (reply.code.Some? <==> mapped && (isHello || isModel) && exists fd: nat :: fd < |files| && !files[fd].active)
            && (reply.code.None? ==> after == files)
            && (reply.code.Some? ==>
                  var fd := reply.code.value;
                  && Owns(after, s, fd) && OnlySlot(files, after, fd) && after[fd].offset == 0
                  && Contents(model, after[fd].inode) == (if isHello then HELLO_TEXT else model)
                  && forall g: nat :: g < |files| && !files[g].active ==> fd <= g)
  {
    BaseNames(path);
  }

  lemma BaseNames(path: seq<byte>)
    ensures BaseName(path) == HELLO_NAME <==> path in [HELLO_NAME, [47] + HELLO_NAME]
    ensures BaseName(path) == MODEL_NAME <==> path in [MODEL_NAME, [47] + MODEL_NAME]
    ensures HELLO_NAME != MODEL_NAME && HELLO_NAME != DOT && HELLO_NAME != DOTDOT && MODEL_NAME != DOT && MODEL_NAME != DOTDOT
  {
    if path != [] && path[0] == 47 { assert path == [47] + path[1..]; }
    assert HELLO_NAME[0] == 104 && MODEL_NAME[0] == 109 && DOT[0] == 46 && DOTDOT[0] == 46;
  }

  /** A read on one's own descriptor returns the next bytes of the file, as many as asked for or as there are
      left, and moves past exactly them. Any other read fails and changes nothing. */
  lemma ReadIsExact(model: seq<byte>, files: seq<OpenFile>, s: nat, fd: nat, len: nat, mapped: bool)
    requires Consistent(model, files)
    ensures var (after, reply) := Effect(model, files, Event(s, Read(fd, len, mapped)));
            if Owns(files, s, fd) && len > 0 && mapped
            then var contents, at := Contents(model, files[fd].inode), files[fd].offset;
                 && reply.code == Some(|reply.bytes|) && at + |reply.bytes| <= |contents|
                 && reply.bytes == contents[at..at + |reply.bytes|]
                 && (|reply.bytes| == len || (|reply.bytes| < len && at + |reply.bytes| == |contents|))
                 && OnlySlot(files, after, fd) && after[fd] == files[fd].(offset := at + |reply.bytes|)
            else reply == FAILED && after == files
  {}

  /** The owner of a descriptor learns the length of the file, and only the owner. */
  lemma StatIsLength(model: seq<byte>, files: seq<OpenFile>, s: nat, fd: nat)
    requires Consistent(model, files)
    ensures var (after, reply) := Effect(model, files, Event(s, Stat(fd)));
            && after == files
            && reply.code == if Owns(files, s, fd) then Some(|Contents(model, files[fd].inode)|) else None
  {}

  /** Only the owner closes a descriptor, and only that one. */
  lemma CloseIsExact(model: seq<byte>, files: seq<OpenFile>, s: nat, fd: nat)
    requires Consistent(model, files)
    ensures var (after, reply) := Effect(model, files, Event(s, Close(fd)));
            && (reply.code.Some? <==> Owns(files, s, fd))
            && OnlySlot(files, after, fd) && (reply.code.Some? ==> !after[fd].active) && (reply.code.None? ==> after == files)
  {}

  /** The end of a shard closes its descriptors and no others. */
  lemma ExitIsExact(model: seq<byte>, files: seq<OpenFile>, s: nat, fd: nat)
    requires Consistent(model, files) && fd < |files|
    ensures var after := Effect(model, files, Event(s, Exit)).0;
            |after| == |files| && if Owns(files, s, fd) then !after[fd].active else after[fd] == files[fd]
  {}

  /** Calls of other shards leave a shard's open files alone, and cannot open over them. */
  lemma OthersLeaveMine(model: seq<byte>, files: seq<OpenFile>, e: Event, s: nat, fd: nat)
    requires Consistent(model, files) && e.caller != s && Owns(files, s, fd)
    ensures fd < |Effect(model, files, e).0| && Effect(model, files, e).0[fd] == files[fd]
  {}

  /** A descriptor belongs to the shard that opened it and has not exited since: a step gives it to the
      caller, takes it from the caller, or leaves its owner. */
  lemma OwnerIsCaller(model: seq<byte>, files: seq<OpenFile>, e: Event, s: nat, fd: nat)
    requires Consistent(model, files)
    ensures Owns(Effect(model, files, e).0, s, fd) ==> Owns(files, s, fd) || (e.caller == s && e.op.Open?)
    ensures Owns(files, s, fd) && !Owns(Effect(model, files, e).0, s, fd) ==> e.caller == s && (e.op.Close? || e.op.Exit?)
    ensures e.op.Exit? ==> !Owns(Effect(model, files, e).0, e.caller, fd)
  {}

  // ------------------------------------------------------------------ runs

  /** The table after a run of calls by any shards. */
  function Run(model: seq<byte>, files: seq<OpenFile>, events: seq<Event>): seq<OpenFile>
    decreases |events|
  {
    if events == [] then files
    else
      var n := |events| - 1;
      Effect(model, Run(model, files, events[..n]), events[n]).0
  }

  /** All bytes that reads of shard `s` on `fd` returned during a run. */
  function ReadDuring(model: seq<byte>, files: seq<OpenFile>, events: seq<Event>, s: nat, fd: nat): seq<byte>
    decreases |events|
  {
    if events == [] then []
    else
      var n := |events| - 1;
      var e := events[n];
      ReadDuring(model, files, events[..n], s, fd)
      + if e.caller == s && e.op.Read? && e.op.fd == fd then Effect(model, Run(model, files, events[..n]), e).1.bytes else []
  }

  /** Shard `s` keeps `fd` open during a run. */
  predicate KeepsOpen(events: seq<Event>, s: nat, fd: nat) {
    forall k :: 0 <= k < |events| && events[k].caller == s ==> events[k].op != Exit && events[k].op != Close(fd)
  }

  lemma {:induction false} RunIsValid(model: seq<byte>, files: seq<OpenFile>, events: seq<Event>)
    requires Consistent(model, files)
    ensures Consistent(model, Run(model, files, events))
    decreases |events|
  {
    if events != [] {
      var n := |events| - 1;
      RunIsValid(model, files, events[..n]);
      EffectIsValid(model, Run(model, files, events[..n]), events[n]);
    }
  }

  /** Whatever all shards do in between, the reads on a descriptor return consecutive parts of its file,
      from where it stood to where it stands. */
  lemma {:induction false} ReadsConcatenate(model: seq<byte>, files: seq<OpenFile>, events: seq<Event>, s: nat, fd: nat)
    requires Consistent(model, files) && Owns(files, s, fd) && KeepsOpen(events, s, fd)
    ensures var after := Run(model, files, events);
            && Owns(after, s, fd) && after[fd] == files[fd].(offset := after[fd].offset)
            && files[fd].offset <= after[fd].offset <= |Contents(model, files[fd].inode)|
            && ReadDuring(model, files, events, s, fd) == Contents(model, files[fd].inode)[files[fd].offset..after[fd].offset]
    decreases |events|
  {
    hide Effect, Consistent, Contents;
    InBounds(model, files, s, fd);
    if events != [] {
      var n := |events| - 1;
      assert KeepsOpen(events[..n], s, fd);
      ReadsConcatenate(model, files, events[..n], s, fd);
      RunIsValid(model, files, events[..n]);
      OneRead(model, Run(model, files, events[..n]), events[n], s, fd);
      var c, a := Contents(model, files[fd].inode), files[fd].offset;
      var b, d := Run(model, files, events[..n])[fd].offset, Run(model, files, events)[fd].offset;
      assert c[a..b] + c[b..d] == c[a..d];
    }
  }

  /** What one event adds to the bytes read on `fd`. */
  lemma OneRead(model: seq<byte>, files: seq<OpenFile>, e: Event, s: nat, fd: nat)
    requires Consistent(model, files) && Owns(files, s, fd) && (e.caller == s ==> e.op != Exit && e.op != Close(fd))
    ensures var (after, reply) := Effect(model, files, e);
            && Owns(after, s, fd) && after[fd] == files[fd].(offset := after[fd].offset)
            && files[fd].offset <= after[fd].offset <= |Contents(model, files[fd].inode)|
            && (if e.caller == s && e.op.Read? && e.op.fd == fd then reply.bytes else [])
               == Contents(model, files[fd].inode)[files[fd].offset..after[fd].offset]
  {
    if e.caller != s { OthersLeaveMine(model, files, e, s, fd); } else { OwnStep(model, files, e, s, fd); }
  }

  lemma OwnStep(model: seq<byte>, files: seq<OpenFile>, e: Event, s: nat, fd: nat)
    requires Consistent(model, files) && Owns(files, s, fd) && e.caller == s && e.op != Exit && e.op != Close(fd)
    ensures var (after, reply) := Effect(model, files, e);
            && Owns(after, s, fd) && after[fd] == files[fd].(offset := after[fd].offset)
            && (if e.op.Read? && e.op.fd == fd then
                  && files[fd].offset <= after[fd].offset <= |Contents(model, files[fd].inode)|
                  && reply.bytes == Contents(model, files[fd].inode)[files[fd].offset..after[fd].offset]
                else after[fd] == files[fd])
  {}

  /** Over every run, a shard that owns a descriptor at its end either owned it at the start or opened
      it during the run, and has not exited since: no descriptor belongs to a finished shard. */
  lemma {:induction false} OwnersAreUnfinished(model: seq<byte>, files: seq<OpenFile>, events: seq<Event>, s: nat, fd: nat, k: nat)
    requires Consistent(model, files) && k < |events| && events[k] == Event(s, Exit)
    requires forall j :: k < j < |events| ==> events[j].caller != s
    ensures !Owns(Run(model, files, events), s, fd)
    decreases |events|
  {
    var n := |events| - 1;
    RunIsValid(model, files, events[..n]);
    OwnerIsCaller(model, Run(model, files, events[..n]), events[n], s, fd);
    if k < n { OwnersAreUnfinished(model, files, events[..n], s, fd, k); }
  }

  // ------------------------------------------------------------------ the table in place

  class Table {
    const image: seq<byte>
    ghost const model: seq<byte>
    var files: seq<OpenFile>

    ghost predicate Valid()
      reads this
    {
      Laid(image, model) && Consistent(model, files)
    }

    constructor (image: seq<byte>, ghost model: seq<byte>)
      requires Laid(image, model)
      ensures Valid() && this.image == image && this.model == model
      ensures forall s, fd :: !Owns(files, s, fd)
    {
      this.image, this.model := image, model;
      files := seq(MAX_OPEN_FILES, _ => CLOSED);
    }

    method FsOpen(caller: nat, path: seq<byte>, mapped: bool) returns (r: Option<nat>)
      requires Valid()
      modifies this
      ensures Valid() && (files, Reply(r, [])) == Effect(model, old(files), Event(caller, Open(path, mapped)))
    {
      hide Laid, InodeAt, Lookup;
      EffectIsValid(model, files, Event(caller, Open(path, mapped)));
      if |path| == 0 || |path| > 256 { return None; }
      if !mapped { return None; }
      Names(image, model, path);
      var ino := LookupPath(Mounted(image), path);
      if ino.value.None? { return None; }
      InodeOf(image, model, ino.value.value);
      var inode := ReadInode(Mounted(image), ino.value.value);
      if inode.value.None? { return None; }
      if !IsRegularFile(inode.value.value) { return None; }
      for fd := 0 to MAX_OPEN_FILES
        invariant files == old(files) && forall g: nat :: g < fd ==> files[g].active
      {
        if !files[fd].active {
          assert fd == FirstClosed(files);
          files := files[fd := OpenFile(true, caller, ino.value.value, inode.value.value.size, 0)];
          return Some(fd);
        }
      }
      return None;
    }

    method FsRead(caller: nat, fd: nat, buf: array<byte>, mapped: bool) returns (r: Option<nat>)
      requires Valid()
      modifies this, buf
      ensures var (files', reply) := Effect(model, old(files), Event(caller, Read(fd, buf.Length, mapped)));
              && Valid() && files == files' && r == reply.code
              && |reply.bytes| <= buf.Length && buf[..|reply.bytes|] == reply.bytes
              && buf[|reply.bytes|..] == old(buf[..])[|reply.bytes|..]
    {
      hide Laid;
      EffectIsValid(model, files, Event(caller, Read(fd, buf.Length, mapped)));
      if fd >= MAX_OPEN_FILES { return None; }
      var file := files[fd];
      if !file.active || file.shard != caller { return None; }
      if buf.Length == 0 || !mapped { return None; }
      FileSizes(image, model, file.inode);
      var n := ReadBack(image, model, file.inode, file.offset, buf);
      files := files[fd := file.(offset := file.offset + n)];
      return Some(n);
    }

    method FsStat(caller: nat, fd: nat) returns (r: Option<nat>)
      requires Valid()
      ensures (files, Reply(r, [])) == Effect(model, files, Event(caller, Stat(fd)))
    {
      if fd >= MAX_OPEN_FILES { return None; }
      if !files[fd].active || files[fd].shard != caller { return None; }
      return Some(files[fd].size);
    }

    method FsClose(caller: nat, fd: nat) returns (r: Option<nat>)
      requires Valid()
      modifies this
      ensures Valid() && (files, Reply(r, [])) == Effect(model, old(files), Event(caller, Close(fd)))
    {
      EffectIsValid(model, files, Event(caller, Close(fd)));
      if fd >= MAX_OPEN_FILES { return None; }
      if !files[fd].active || files[fd].shard != caller { return None; }
      files := files[fd := CLOSED];
      return Some(0);
    }

    method ReleaseShard(s: nat)
      requires Valid()
      modifies this
      ensures Valid() && files == Effect(model, old(files), Event(s, Exit)).0
    {
      hide Laid, Consistent;
      EffectIsValid(model, files, Event(s, Exit));
      TableSize(model, files);
      for i := 0 to MAX_OPEN_FILES
        invariant |files| == MAX_OPEN_FILES
        invariant forall j :: 0 <= j < i ==> files[j] == Released(old(files), s)[j]
        invariant forall j :: i <= j < MAX_OPEN_FILES ==> files[j] == old(files)[j]
      {
        if files[i].active && files[i].shard == s {
          files := files[i := CLOSED];
        }
      }
      assert files == Released(old(files), s);
    }

    /** One call by any shard; used for the shards that run in between. */
    method Execute(e: Event)
      requires Valid()
      modifies this
      ensures Valid() && files == Effect(model, old(files), e).0
    {
      match e.op
      case Open(path, mapped) => var _ := FsOpen(e.caller, path, mapped);
      case Read(fd, len, mapped) =>
        var buf := new byte[len](_ => 0);
        var _ := FsRead(e.caller, fd, buf, mapped);
      case Stat(fd) => var _ := FsStat(e.caller, fd);
      case Close(fd) => var _ := FsClose(e.caller, fd);
      case Exit => ReleaseShard(e.caller);
    }
  }

  lemma FileSizes(img: seq<byte>, model: seq<byte>, ino: u32)
    requires Laid(img, model) && ino in {11, 12}
    ensures |Contents(model, ino)| < 0x1_0000_0000
  {}

  /** The load loop of a shard: read a file in parts of at most 4096 bytes. Before part `k` the calls
      `others[k]` of other shards run, and `valid[k]` is the verdict of buffer validation on it. What has been
      loaded is always the start of the file; without a bad buffer it is the whole file. */
  method LoadFile(t: Table, s: nat, fd: nat, others: nat -> seq<Event>, valid: nat -> bool) returns (data: seq<byte>)
    requires t.Valid() && Owns(t.files, s, fd) && t.files[fd].offset == 0
    requires forall k: nat, j :: 0 <= j < |others(k)| ==> others(k)[j].caller != s
    modifies t
    ensures t.Valid() && Owns(t.files, s, fd)
    ensures data <= Contents(t.model, old(t.files[fd]).inode)
    ensures (forall k: nat :: valid(k)) ==> data == Contents(t.model, old(t.files[fd]).inode)
  {
    hide Laid;
    var size := t.files[fd].size;
    ghost var file := t.files[fd];
    ghost var contents := Contents(t.model, file.inode);
    data := [];
    var turn := 0;
    while |data| < size
      invariant t.Valid() && size == |contents| && |data| <= size && data == contents[..|data|]
      invariant Owns(t.files, s, fd) && t.files[fd] == file.(offset := |data|)
      decreases size - |data|
    {
      for j := 0 to |others(turn)|
        invariant t.Valid() && Owns(t.files, s, fd) && t.files[fd] == file.(offset := |data|)
      {
        OthersLeaveMine(t.model, t.files, others(turn)[j], s, fd);
        t.Execute(others(turn)[j]);
      }
      var chunk := Min(4096, size - |data|);
      var buf := new byte[chunk](_ => 0);
      var n := t.FsRead(s, fd, buf, valid(turn));
      if n.None? || n.value == 0 { break; }
      data := data + buf[..n.value];
      turn := turn + 1;
    }
  }
}
