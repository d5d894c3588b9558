/**
  * Atomic creation of a new file with rollback: write_new_file_atomically in src/core/files.rs,
  * over one directory in which every system call may fail.
  *
  * A failing call leaves the directory alone, except that a failing write may leave any prefix.
  * The process or the machine may stop between any two calls, so every state in between is
  * recorded in `trace`.
  */
module Files {
  import opened Text

  /**
    * Names refer to inodes, so that a hard link shares its content. `synced` holds the inodes whose
    * content is on disk, `durable` the names as of the last sync of the directory and `pending` the
    * changes of names since; any of those may or may not have reached the disk.
    */
  datatype Directory = Directory(names: map<string, nat>, data: map<nat, Bytes>, nextInode: nat,
                                 synced: set<nat>, durable: map<string, nat>, pending: set<(string, Option<nat>)>)

  function Bind(names: map<string, nat>, name: string): Option<nat> { if name in names then Some(names[name]) else None }

  /** After a power failure the name may refer to this inode, or to none. */
  predicate MayBind(d: Directory, name: string, b: Option<nat>) { b == Bind(d.durable, name) || (name, b) in d.pending }

  /** After a power failure the file may have this content, or be absent. */
  ghost predicate MayHold(d: Directory, name: string, v: Option<Bytes>) {
    exists b :: MayBind(d, name, b) && Shows(d, b, v)
  }

  predicate Shows(d: Directory, b: Option<nat>, v: Option<Bytes>) {
    b.Some? == v.Some? && (b.Some? && b.value in d.synced && b.value in d.data ==> v.value == d.data[b.value])
  }

  ghost predicate Sane(d: Directory) {
    && (forall n :: n in d.names ==> d.names[n] in d.data)
    && (forall i :: i in d.data ==> i < d.nextInode)
    && (forall n: string, b: Option<nat> :: MayBind(d, n, b) && b.Some? ==> b.value in d.data)
    && (forall n: string :: MayBind(d, n, Bind(d.names, n)))
  }

  ghost function Content(d: Directory, name: string): Option<Bytes>
    requires Sane(d)
  {
    if name in d.names then Some(d.data[d.names[name]]) else None
  }

  /** What goes wrong: `write` is the number of bytes written before the write failed. */
  datatype Faults = Faults(open: bool, write: Option<nat>, sync: bool, link: bool, unlinkTemp: bool, syncDir: bool,
                           undoLink: bool, undoTemp: bool, undoSync: bool)

  predicate NoFaults(f: Faults) { !f.open && f.write.None? && !f.sync && !f.link && !f.unlinkTemp && !f.syncDir }

  datatype Outcome = Created | Failed | RollbackFailed

  datatype Removal = Removed | NotFound | Refused

  /** Two directories hold the same files, whatever the inode numbers. */
  ghost predicate SameFiles(a: Directory, b: Directory)
    requires Sane(a) && Sane(b)
  {
    forall n: string :: Content(a, n) == Content(b, n)
  }

  /** What an onlooker may find at any moment while `dest` is being created. */
  ghost predicate CrashSafe(before: Directory, now: Directory, dest: string, temp: string, content: Bytes)
    requires Sane(before) && Sane(now)
  {
    && (forall n: string :: n != dest && n != temp ==> Content(now, n) == Content(before, n))
    && (Content(now, dest) == Content(before, dest) || (dest !in before.names && Content(now, dest) == Some(content)))
    && (temp in before.names ==> Content(now, temp) == Content(before, temp))
  }

  /** What may be found after a power failure: nothing that was not possible before, save the
    * complete file, its absence, and the temporary file in any state. */
  ghost predicate PowerSafe(before: Directory, now: Directory, dest: string, temp: string, content: Bytes) {
    forall n: string, v: Option<Bytes> :: MayHold(now, n, v) ==>
      || MayHold(before, n, v)
      || (n == temp && temp !in before.names)
      || (n == dest && dest !in before.names && (v == None || v == Some(content)))
  }

  ghost predicate NothingNewOnDisk(before: Directory, now: Directory) {
    forall n: string, v: Option<Bytes> :: MayHold(now, n, v) ==> MayHold(before, n, v)
  }

  /** The hidden name the content is first written under: process id and a counter make it unlikely to be taken. */
  function TempName(file: string, pid: nat, counter: nat): (temp: string)
    ensures temp != file
  {
    "." + file + "." + Decimal(pid) + "." + Decimal(counter) + ".tmp"
  }

  lemma DecimalsDiffer(a: nat, b: nat)
    requires Decimal(a) == Decimal(b)
    ensures a == b
  {
    DecimalParses(a);
    DecimalParses(b);
  }

  lemma FirstDot(a: string, x: string, b: string, y: string)
    requires '.' !in a && '.' !in b && a + "." + x == b + "." + y
    ensures a == b && x == y
  {
    var s := a + "." + x;
    assert forall i :: 0 <= i < |a| ==> s[i] == a[i];
    assert forall i :: 0 <= i < |b| ==> s[i] == b[i];
    assert s[|a|] == '.' && s[|b|] == '.';
    assert |a| == |b|;
    assert s[..|a|] == a && s[..|b|] == b && s[|a| + 1..] == x && s[|b| + 1..] == y;
  }

  /** No two attempts for one file share a temporary name, unless process id and counter are the same. */
  lemma TempNamesDiffer(file: string, pid: nat, counter: nat, pid': nat, counter': nat)
    requires TempName(file, pid, counter) == TempName(file, pid', counter')
    ensures pid == pid' && counter == counter'
  {
    var front := "." + file + ".";
    var x, x' := Decimal(counter) + ".tmp", Decimal(counter') + ".tmp";
    var rest, rest' := Decimal(pid) + "." + x, Decimal(pid') + "." + x';
    assert TempName(file, pid, counter) == front + rest && TempName(file, pid', counter') == front + rest';
    assert (front + rest)[|front|..] == rest && (front + rest')[|front|..] == rest';
    NoDot(pid);
    NoDot(pid');
    FirstDot(Decimal(pid), x, Decimal(pid'), x');
    assert x[..|x| - 4] == Decimal(counter) && x'[..|x'| - 4] == Decimal(counter');
    DecimalsDiffer(pid, pid');
    DecimalsDiffer(counter, counter');
  }

  lemma NoDot(n: nat)
    ensures '.' !in Decimal(n)
  {
    DecimalParses(n);
  }

  // ----- the system calls -----

  function WithNew(d: Directory, name: string): Directory {
    d.(names := d.names[name := d.nextInode], data := d.data[d.nextInode := []], nextInode := d.nextInode + 1,
       synced := d.synced - {d.nextInode}, pending := d.pending + {(name, Some(d.nextInode))})
  }

  function WithData(d: Directory, inode: nat, bytes: Bytes): Directory {
    d.(data := d.data[inode := bytes], synced := d.synced - {inode})
  }

  function WithSynced(d: Directory, inode: nat): Directory { d.(synced := d.synced + {inode}) }

  function WithLink(d: Directory, name: string, inode: nat): Directory {
    d.(names := d.names[name := inode], pending := d.pending + {(name, Some(inode))})
  }

  function Without(d: Directory, name: string): Directory {
    d.(names := d.names - {name}, pending := d.pending + {(name, None)})
  }

  function WithDirectorySynced(d: Directory): Directory { d.(durable := d.names, pending := {}) }

  // ----- the stages of the write -----

  function StageNames(before: Directory, dest: string, temp: string, temporary: bool, linked: bool): map<string, nat> {
    var m := if temporary then before.names[temp := before.nextInode] else before.names;
    if linked then m[dest := before.nextInode] else m
  }

  /** The new inode is complete and on disk. */
  predicate Complete(before: Directory, now: Directory, content: Bytes) {
    before.nextInode in now.data && now.data[before.nextInode] == content && before.nextInode in now.synced
  }

  predicate NewBinding(before: Directory, now: Directory, dest: string, temp: string, content: Bytes, n: string, b: Option<nat>) {
    || (n == temp && temp !in before.names)
    || (n == dest && dest !in before.names && (b == None || (b == Some(before.nextInode) && Complete(before, now, content))))
  }

  predicate OldFileKept(before: Directory, now: Directory, i: nat)
    requires i in before.data
  {
    i in now.data && now.data[i] == before.data[i] && (i in before.synced <==> i in now.synced)
  }

  /** The old files are untouched; the new inode is named by the temporary name, by dest, by both or by neither. */
  ghost predicate Stage(before: Directory, now: Directory, dest: string, temp: string, content: Bytes, temporary: bool, linked: bool) {
    && Sane(before) && Sane(now) && dest != temp
    && (forall i :: i in before.data ==> OldFileKept(before, now, i))
    && now.names == StageNames(before, dest, temp, temporary, linked)
    && (temporary ==> temp !in before.names) && (linked ==> dest !in before.names)
    && (temporary || linked ==> before.nextInode in now.data)
    && (linked ==> Complete(before, now, content))
    && (forall n: string, b: Option<nat> :: MayBind(now, n, b) ==>
          MayBind(before, n, b) || NewBinding(before, now, dest, temp, content, n, b))
  }

  lemma StageIsSafe(before: Directory, now: Directory, dest: string, temp: string, content: Bytes, temporary: bool, linked: bool)
    requires Stage(before, now, dest, temp, content, temporary, linked)
    ensures CrashSafe(before, now, dest, temp, content)
    ensures !temporary && !linked ==> SameFiles(now, before)
    ensures !temporary && linked ==> Content(now, dest) == Some(content) && forall n: string :: n != dest ==> Content(now, n) == Content(before, n)
  {
    hide MayBind;
    assert forall i :: i in before.data ==> OldFileKept(before, now, i);
  }

  lemma StageSurvives(before: Directory, now: Directory, dest: string, temp: string, content: Bytes, temporary: bool, linked: bool)
    requires Stage(before, now, dest, temp, content, temporary, linked)
    ensures PowerSafe(before, now, dest, temp, content)
  {
    hide MayBind, StageNames;
    forall n: string, v: Option<Bytes> | MayHold(now, n, v) && !NewBindingShown(before, dest, temp, content, n, v)
      ensures MayHold(before, n, v)
    {
      var b :| MayBind(now, n, b) && Shows(now, b, v);
      assert MayBind(before, n, b) && (b.Some? ==> OldFileKept(before, now, b.value));
      assert Shows(before, b, v);
    }
  }

  predicate NewBindingShown(before: Directory, dest: string, temp: string, content: Bytes, n: string, v: Option<Bytes>) {
    (n == temp && temp !in before.names) || (n == dest && dest !in before.names && (v == None || v == Some(content)))
  }

  /** After the directory is synced with nothing new in it, or with only dest. */
  lemma SyncedStage(before: Directory, now: Directory, dest: string, temp: string, content: Bytes, temporary: bool, linked: bool)
    requires Stage(before, now, dest, temp, content, temporary, linked)
    ensures var d := WithDirectorySynced(now);
      && Stage(before, d, dest, temp, content, temporary, linked)
      && (!temporary && !linked ==> NothingNewOnDisk(before, d))
      && (linked ==> forall v :: MayHold(d, dest, v) ==> v == Some(content))
  {
    hide StageNames;
    var d := WithDirectorySynced(now);
    forall n: string, b | MayBind(d, n, b) ensures MayBind(now, n, b) { assert b == Bind(now.names, n); }
    assert Stage(before, d, dest, temp, content, temporary, linked);
    if !temporary && !linked { NamesAsBefore(before, d, dest, temp, content); }
    if linked { assert Bind(StageNames(before, dest, temp, temporary, linked), dest) == Some(before.nextInode) by { NewName(before, dest, temp, temporary); } }
  }

  lemma NewName(before: Directory, dest: string, temp: string, temporary: bool)
    ensures Bind(StageNames(before, dest, temp, temporary, true), dest) == Some(before.nextInode)
  {
  }

  lemma NamesAsBefore(before: Directory, d: Directory, dest: string, temp: string, content: Bytes)
    requires Stage(before, d, dest, temp, content, false, false) && d.durable == d.names && d.pending == {}
    ensures NothingNewOnDisk(before, d)
  {
    forall n: string, v: Option<Bytes> | MayHold(d, n, v) ensures MayHold(before, n, v) {
      var b :| MayBind(d, n, b) && Shows(d, b, v);
      assert b == Bind(before.names, n) && MayBind(before, n, b);
      assert b.Some? ==> OldFileKept(before, d, b.value);
      assert Shows(before, b, v);
    }
  }

  lemma NothingDone(before: Directory, dest: string, temp: string, content: Bytes)
    requires Sane(before) && dest != temp
    ensures Stage(before, before, dest, temp, content, false, false) && NothingNewOnDisk(before, before)
  {
  }

  /** The temporary file in any state: created, written in part or in full, synced or not. */
  function TempState(before: Directory, temp: string, bytes: Bytes, synced: bool): Directory {
    var d := WithData(WithNew(before, temp), before.nextInode, bytes);
    if synced then WithSynced(d, before.nextInode) else d
  }

  lemma EmptyTemp(before: Directory, temp: string)
    ensures WithNew(before, temp) == TempState(before, temp, [], false)
  {
    var d := WithNew(before, temp);
    assert d.data[before.nextInode := []] == d.data && d.synced - {before.nextInode} == d.synced;
  }

  lemma TempWritten(before: Directory, dest: string, temp: string, content: Bytes, bytes: Bytes, synced: bool)
    requires Sane(before) && dest != temp && temp !in before.names
    ensures Stage(before, TempState(before, temp, bytes, synced), dest, temp, content, true, false)
  {
    var d := TempState(before, temp, bytes, synced);
    forall n: string, b | MayBind(d, n, b) ensures MayBind(before, n, b) || (n == temp && b == Some(before.nextInode)) { }
    forall n: string ensures MayBind(d, n, Bind(d.names, n)) { assert MayBind(before, n, Bind(before.names, n)); }
  }

  lemma DestLinked(before: Directory, dest: string, temp: string, content: Bytes)
    requires Sane(before) && dest != temp && temp !in before.names && dest !in before.names
    ensures Stage(before, WithLink(TempState(before, temp, content, true), dest, before.nextInode), dest, temp, content, true, true)
  {
    hide TempState;
    TempWritten(before, dest, temp, content, content, true);
    TempStateFields(before, temp, content);
    var t := TempState(before, temp, content, true);
    var d := WithLink(t, dest, before.nextInode);
    forall n: string, b | MayBind(d, n, b) ensures MayBind(t, n, b) || (n == dest && b == Some(before.nextInode)) { }
    forall n: string ensures MayBind(d, n, Bind(d.names, n)) { assert MayBind(t, n, Bind(t.names, n)); }
  }

  lemma TempStateFields(before: Directory, temp: string, bytes: Bytes)
    ensures Complete(before, TempState(before, temp, bytes, true), bytes)
  {
  }

  lemma TempRemoved(before: Directory, now: Directory, dest: string, temp: string, content: Bytes, linked: bool)
    requires Stage(before, now, dest, temp, content, true, linked)
    ensures Stage(before, Without(now, temp), dest, temp, content, false, linked)
  {
    var d := Without(now, temp);
    assert d.names == StageNames(before, dest, temp, false, linked);
    forall n: string, b | MayBind(d, n, b) ensures MayBind(now, n, b) || (n == temp && b == None) { }
    forall n: string ensures MayBind(d, n, Bind(d.names, n)) { assert MayBind(now, n, Bind(now.names, n)); }
  }

  lemma DestRemoved(before: Directory, now: Directory, dest: string, temp: string, content: Bytes, temporary: bool)
    requires Stage(before, now, dest, temp, content, temporary, true)
    ensures Stage(before, Without(now, dest), dest, temp, content, temporary, false)
  {
    var d := Without(now, dest);
    assert d.names == StageNames(before, dest, temp, temporary, false);
    forall n: string, b | MayBind(d, n, b) ensures MayBind(now, n, b) || (n == dest && b == None) { }
    forall n: string ensures MayBind(d, n, Bind(d.names, n)) { assert MayBind(now, n, Bind(now.names, n)); }
  }

  lemma StageFacts(before: Directory, now: Directory, dest: string, temp: string, content: Bytes, temporary: bool, linked: bool)
    requires Stage(before, now, dest, temp, content, temporary, linked)
    ensures Sane(before) && Sane(now) && dest != temp
    ensures temporary ==> temp in now.names && temp !in before.names
    ensures linked ==> dest in now.names && dest !in before.names
    ensures !temporary && temp !in before.names ==> temp !in now.names
  {
  }

  /** Every state recorded from position `from` on is one an onlooker may find. */
  ghost predicate TraceSafe(trace: seq<Directory>, from: nat, before: Directory, dest: string, temp: string, content: Bytes)
    requires Sane(before)
  {
    forall i :: from <= i < |trace| ==>
      Sane(trace[i]) && CrashSafe(before, trace[i], dest, temp, content) && PowerSafe(before, trace[i], dest, temp, content)
  }

  lemma StageTraced(before: Directory, now: Directory, dest: string, temp: string, content: Bytes, temporary: bool, linked: bool)
    requires Stage(before, now, dest, temp, content, temporary, linked)
    ensures Sane(now) && CrashSafe(before, now, dest, temp, content) && PowerSafe(before, now, dest, temp, content)
  {
    StageIsSafe(before, now, dest, temp, content, temporary, linked);
    StageSurvives(before, now, dest, temp, content, temporary, linked);
  }

  /** An undo step that is needed fails; a temporary name that is gone needs none, but counts as undone. */
  predicate RollbackFails(linked: bool, created: bool, temporary: bool, f: Faults) {
    var linkUndone, tempUndone := linked && !f.undoLink, created && !(temporary && f.undoTemp);
    (linked && f.undoLink) || (temporary && f.undoTemp) || ((linkUndone || tempUndone) && f.undoSync)
  }

  /** The same, from the faults and the names that were taken before. */
  predicate Stuck(before: Directory, dest: string, temp: string, f: Faults) {
    var created := !f.open && temp !in before.names;
    var linked := created && f.write.None? && !f.sync && !f.link && dest !in before.names;
    RollbackFails(linked, created, created && (!linked || f.unlinkTemp), f)
  }

  class FileSystem {
    var dir: Directory
    ghost var trace: seq<Directory>

    method CreateNew(name: string, fails: bool) returns (inode: Option<nat>)
      modifies this
      ensures trace == old(trace) + [dir]
      ensures inode == if fails || name in old(dir.names) then None else Some(old(dir.nextInode))
      ensures dir == if inode.None? then old(dir) else WithNew(old(dir), name)
    {
      inode := None;
      if !fails && name !in dir.names {
        inode := Some(dir.nextInode);
        dir := WithNew(dir, name);
      }
      trace := trace + [dir];
    }

    /** A failed write leaves a prefix. */
    method WriteAll(inode: nat, content: Bytes, failsAfter: Option<nat>) returns (ok: bool)
      modifies this
      ensures trace == old(trace) + [dir] && ok == failsAfter.None?
      ensures exists bytes :: bytes <= content && (ok ==> bytes == content) && dir == WithData(old(dir), inode, bytes)
    {
      ok := failsAfter.None?;
      var written := if ok || failsAfter.value >= |content| then content else content[..failsAfter.value];
      dir := WithData(dir, inode, written);
      trace := trace + [dir];
    }

    method SyncFile(inode: nat, fails: bool) returns (ok: bool)
      modifies this
      ensures trace == old(trace) + [dir] && ok == !fails
      ensures dir == if ok then WithSynced(old(dir), inode) else old(dir)
    {
      ok := !fails;
      if ok { dir := WithSynced(dir, inode); }
      trace := trace + [dir];
    }

    method HardLink(from: string, to: string, fails: bool) returns (ok: bool)
      modifies this
      ensures trace == old(trace) + [dir]
      ensures ok <==> !fails && from in old(dir.names) && to !in old(dir.names)
      ensures dir == if ok then WithLink(old(dir), to, old(dir.names)[from]) else old(dir)
    {
      ok := !fails && from in dir.names && to !in dir.names;
      if ok { dir := WithLink(dir, to, dir.names[from]); }
      trace := trace + [dir];
    }

    method RemoveFile(name: string, fails: bool) returns (r: Removal)
      modifies this
      ensures trace == old(trace) + [dir]
      ensures r == if name !in old(dir.names) then NotFound else if fails then Refused else Removed
      ensures dir == if r == Removed then Without(old(dir), name) else old(dir)
    {
      if name !in dir.names {
        r := NotFound;
      } else if fails {
        r := Refused;
      } else {
        dir := Without(dir, name);
        r := Removed;
      }
      trace := trace + [dir];
    }

    method SyncDirectory(fails: bool) returns (ok: bool)
      modifies this
      ensures trace == old(trace) + [dir] && ok == !fails
      ensures dir == if ok then WithDirectorySynced(old(dir)) else old(dir)
    {
      ok := !fails;
      if ok { dir := WithDirectorySynced(dir); }
      trace := trace + [dir];
    }

    /** Creates, fills and syncs the temporary file. */
    method WriteTemporary(ghost dest: string, temp: string, content: Bytes, f: Faults) returns (temporaryCreated: bool, ok: bool)
      requires Sane(dir) && dest != temp
      modifies this
      ensures temporaryCreated <==> !f.open && temp !in old(dir.names)
      ensures ok <==> temporaryCreated && f.write.None? && !f.sync
      ensures !temporaryCreated ==> dir == old(dir)
      ensures Stage(old(dir), dir, dest, temp, content, temporaryCreated, false)
      ensures ok ==> dir == TempState(old(dir), temp, content, true)
      ensures old(trace) <= trace && TraceSafe(trace, |old(trace)|, old(dir), dest, temp, content)
    {
      hide CrashSafe, PowerSafe, Stage, Sane;
      temporaryCreated, ok := false, false;
      ghost var before := dir;
      var inode := CreateNew(temp, f.open);
      temporaryCreated := inode.Some?;
      if !temporaryCreated {
        NothingDone(before, dest, temp, content);
        StageTraced(before, dir, dest, temp, content, false, false);
        return;
      }
      EmptyTemp(before, temp);
      TempWritten(before, dest, temp, content, [], false);
      StageTraced(before, dir, dest, temp, content, true, false);
      var written := WriteAll(inode.value, content, f.write);
      ghost var bytes :| bytes <= content && (written ==> bytes == content) && dir == WithData(WithNew(before, temp), inode.value, bytes);
      TempWritten(before, dest, temp, content, bytes, false);
      StageTraced(before, dir, dest, temp, content, true, false);
      if !written { return; }
      ok := SyncFile(inode.value, f.sync);
      TempWritten(before, dest, temp, content, content, ok);
      StageTraced(before, dir, dest, temp, content, true, false);
    }

    /** Links the finished file into place, removes the temporary name and syncs the directory. */
    method Publish(ghost before: Directory, dest: string, temp: string, ghost content: Bytes, f: Faults)
      returns (destinationLinked: bool, done: bool, ghost temporary: bool)
      requires Sane(before) && dest != temp && temp !in before.names && dir == TempState(before, temp, content, true)
      modifies this
      ensures done <==> !f.link && !f.unlinkTemp && !f.syncDir && dest !in before.names
      ensures destinationLinked <==> !f.link && dest !in before.names
      ensures temporary <==> !destinationLinked || f.unlinkTemp
      ensures Stage(before, dir, dest, temp, content, temporary, destinationLinked)
      ensures done ==> destinationLinked && !temporary && forall v :: MayHold(dir, dest, v) ==> v == Some(content)
      ensures old(trace) <= trace && TraceSafe(trace, |old(trace)|, before, dest, temp, content)
    {
      hide CrashSafe, PowerSafe, Stage, MayHold, Sane;
      done, temporary := false, true;
      destinationLinked := HardLink(temp, dest, f.link);
      if !destinationLinked {
        TempWritten(before, dest, temp, content, content, true);
        StageTraced(before, dir, dest, temp, content, true, false);
        return;
      }
      DestLinked(before, dest, temp, content);
      StageTraced(before, dir, dest, temp, content, true, true);
      TempRemoved(before, dir, dest, temp, content, true);
      var removal := RemoveFile(temp, f.unlinkTemp);
      temporary := removal != Removed;
      StageTraced(before, dir, dest, temp, content, temporary, true);
      if removal != Removed { return; }
      SyncedStage(before, dir, dest, temp, content, false, true);
      done := SyncDirectory(f.syncDir);
      StageTraced(before, dir, dest, temp, content, false, true);
    }

    /** Undoes what was done: dest first, then the temporary file; then the directory is synced. */
    method RollBack(ghost before: Directory, dest: string, temp: string, ghost content: Bytes, ghost temporary: bool,
                    temporaryCreated: bool, destinationLinked: bool, f: Faults) returns (failed: bool)
      requires Stage(before, dir, dest, temp, content, temporary, destinationLinked) && (temporary ==> temporaryCreated)
      requires temporaryCreated ==> temp !in before.names
      requires !temporaryCreated && !destinationLinked ==> dir == before
      modifies this
      ensures !failed ==> Stage(before, dir, dest, temp, content, false, false) && NothingNewOnDisk(before, dir)
      ensures failed <==> RollbackFails(destinationLinked, temporaryCreated, temporary, f)
      ensures Sane(dir) && old(trace) <= trace && TraceSafe(trace, |old(trace)|, before, dest, temp, content)
    {
      hide CrashSafe, PowerSafe, NothingNewOnDisk, Stage, Sane;
      StageFacts(before, dir, dest, temp, content, temporary, destinationLinked);
      var removed := false;
      failed := false;
      ghost var linked, named := destinationLinked, temporary;
      if destinationLinked {
        DestRemoved(before, dir, dest, temp, content, temporary);
        var undo := RemoveFile(dest, f.undoLink);
        linked := undo == Refused;
        StageTraced(before, dir, dest, temp, content, temporary, linked);
        if undo == Refused { failed := true; } else { removed := true; }
      }
      if temporaryCreated {
        StageFacts(before, dir, dest, temp, content, temporary, linked);
        if temporary { TempRemoved(before, dir, dest, temp, content, linked); }
        var undo := RemoveFile(temp, f.undoTemp);
        named := temporary && undo == Refused;
        StageTraced(before, dir, dest, temp, content, named, linked);
        if undo == Refused { failed := true; } else { removed := true; }
      }
      if removed {
        SyncedStage(before, dir, dest, temp, content, named, linked);
        var ok := SyncDirectory(f.undoSync);
        StageTraced(before, dir, dest, temp, content, named, linked);
        if !ok { failed := true; }
      } else if !failed {
        NothingDone(before, dest, temp, content);
      }
    }

    /**
      * At every crash point the destination is absent, as it was, or complete, and all other files
      * are as they were; the same holds of what a power failure can leave. Success needs a free name
      * and no fault, and leaves exactly the new file, on disk; an error without a rollback failure
      * leaves the directory as it was, on disk too.
      */
    method WriteNewFileAtomically(dest: string, pid: nat, counter: nat, content: Bytes, f: Faults) returns (r: Outcome)
      requires Sane(dir)
      modifies this
      ensures Sane(dir)
      ensures r == Created <==> NoFaults(f) && dest !in old(dir.names) && TempName(dest, pid, counter) !in old(dir.names)
      ensures r == Created ==> Content(dir, dest) == Some(content) && forall n: string :: n != dest ==> Content(dir, n) == Content(old(dir), n)
      ensures r == Created ==> forall v :: MayHold(dir, dest, v) ==> v == Some(content)
      ensures r == Failed ==> SameFiles(dir, old(dir)) && NothingNewOnDisk(old(dir), dir)
      ensures r == RollbackFailed <==> r != Created && Stuck(old(dir), dest, TempName(dest, pid, counter), f)
      ensures old(trace) <= trace && TraceSafe(trace, |old(trace)|, old(dir), dest, TempName(dest, pid, counter), content)
    {
      hide CrashSafe, PowerSafe, Content, Stage, MayHold, NothingNewOnDisk, Sane, TempName;
      ghost var before := dir;
      var temp := TempName(dest, pid, counter);
      var temporaryCreated, written := WriteTemporary(dest, temp, content, f);
      var destinationLinked, done := false, false;
      ghost var temporary := temporaryCreated;
      if written { destinationLinked, done, temporary := Publish(before, dest, temp, content, f); }
      if done {
        StageFacts(before, dir, dest, temp, content, false, true);
        StageIsSafe(before, dir, dest, temp, content, false, true);
        return Created;
      }
      var failed := RollBack(before, dest, temp, content, temporary, temporaryCreated, destinationLinked, f);
      if failed { return RollbackFailed; }
      StageIsSafe(before, dir, dest, temp, content, false, false);
      return Failed;
    }
  }
}
