/** Publishing a file under a name others may read or swap at any moment, for every pattern of short
    writes, failures, crashes and swaps. */
module Publication {
  import opened Results
  import opened Seqs
  import opened FileSystem

  function Only(i: Option<Inode>): set<Inode> {
    if i.Some? then {i.value} else {}
  }

  // ---- the calls, as functions of the world ----

  function Checked(w: World, n: Name, expected: Option<Inode>): (World, Outcome<()>) {
    var (v, found) := LstatOf(w, n);
    (v, match found
        case Crashed => Crashed
        case Failed => Failed
        case Done(i) => if i == expected then Done(()) else Failed)
  }

  datatype Filling = Filling(world: World, outcome: Outcome<()>, owned: bool, info: Option<Inode>)

  /** Learns the identity of the new file, secures it and writes it out. */
  function FilledOwn(w: World, i: Inode, bytes: seq<Byte>): (World, Outcome<()>, Option<Inode>) {
    var (w1, stated) := Called(w);
    if !stated.Done? then (w1, stated, None)
    else
      var (w2, secured) := Called(w1);
      if !secured.Done? then (w2, secured, Some(i))
      else
        var (w3, written) := WrittenAll(w2, i, bytes);
        (w3, written, Some(i))
  }

  function Filled(w: World, temporary: Name, bytes: seq<Byte>): Filling {
    var (v, created) := Created(w, temporary);
    if created.Failed? then Filling(v, Failed, false, None)
    else if created.Crashed? then Filling(v, Crashed, false, None)
    else
      var (u, r, info) := FilledOwn(v, created.value, bytes);
      Filling(u, r, true, info)
  }

  function CheckedAndRenamed(w: World, first: Name, expectedFirst: Option<Inode>, second: Name,
                             expectedSecond: Option<Inode>, target: Name, temporary: Name): (World, Outcome<()>)
  {
    var (w1, a) := Checked(w, first, expectedFirst);
    if !a.Done? then (w1, a)
    else
      var (w2, b) := Checked(w1, second, expectedSecond);
      if !b.Done? then (w2, b) else Replaced(w2, temporary, target)
  }

  function StoreRenamed(w: World, target: Name, temporary: Name, expected: Option<Inode>, info: Option<Inode>)
    : (World, Outcome<()>)
  {
    var (v, synced) := Called(w);
    if !synced.Done? then (v, synced)
    else CheckedAndRenamed(v, temporary, info, target, expected, target, temporary)
  }

  function TextRenamed(w: World, target: Name, temporary: Name, expected: Option<Inode>, info: Option<Inode>)
    : (World, Outcome<()>)
  {
    var (w1, early) := Checked(w, target, expected);
    if !early.Done? then (w1, early)
    else
      var (w2, synced) := Called(w1);
      if !synced.Done? then (w2, synced)
      else CheckedAndRenamed(w2, target, expected, temporary, info, target, temporary)
  }

  /** Cleanup: our name is unlinked if it still seems to be ours, or if we never learned what is. */
  function CleanedUp(w: World, temporary: Name, info: Option<Inode>): World {
    if info.None? then Unlinked(w, temporary).0
    else
      var (v, ours) := Checked(w, temporary, info);
      if ours.Done? then Unlinked(v, temporary).0 else v
  }

  function FilledAndRenamed(w: World, target: Name, temporary: Name, expected: Option<Inode>, bytes: seq<Byte>)
    : (World, Outcome<()>)
  {
    var f := Filled(w, temporary, bytes);
    var (v, r) := if f.outcome.Done? then StoreRenamed(f.world, target, temporary, expected, f.info)
                  else (f.world, f.outcome);
    (if r.Failed? && f.info.Some? then CleanedUp(v, temporary, f.info) else v, r)
  }

  function StoreWritten(w: World, target: Name, temporary: Name, bytes: seq<Byte>): (World, Outcome<()>) {
    var (w1, found) := LstatOf(w, target);
    if found.Failed? then (w1, Failed)
    else if found.Crashed? then (w1, Crashed)
    else
      var (w2, again) := if found.value.Some? then Checked(w1, target, found.value) else (w1, Done(()));
      if !again.Done? then (w2, again)
      else FilledAndRenamed(w2, target, temporary, found.value, bytes)
  }

  function TextWritten(w: World, target: Name, temporary: Name, bytes: seq<Byte>): (World, Outcome<()>) {
    var (w1, found) := LstatOf(w, target);
    if found.Failed? then (w1, Failed)
    else if found.Crashed? then (w1, Crashed)
    else
      var f := Filled(w1, temporary, bytes);
      var (v, r) := if f.outcome.Done? then TextRenamed(f.world, target, temporary, found.value, f.info)
                    else (f.world, f.outcome);
      (if r.Failed? && f.owned then CleanedUp(v, temporary, f.info) else v, r)
  }

  function SyncedAndLinked(w: World, binding: Name, temporary: Name): (World, Outcome<()>, bool) {
    var (v, synced) := Called(w);
    if !synced.Done? then (v, synced, false) else Linked(v, temporary, binding)
  }

  function BindingPublished(w: World, binding: Name, temporary: Name, bytes: seq<Byte>): (World, Outcome<()>, bool) {
    var f := Filled(w, temporary, bytes);
    var (v, r, linked) := if f.outcome.Done? then SyncedAndLinked(f.world, binding, temporary)
                          else (f.world, f.outcome, false);
    (if !r.Crashed? && f.owned then Unlinked(v, temporary).0 else v, r, linked)
  }

  // ---- while we work ----

  /** We have done nothing but create a file of our own under the temporary name: every other name is
      as the others left it, and nothing that was on the disk has lost its bytes. */
  ghost predicate Working(fs: Files, before: Disk, temporary: Name, mine: Option<Inode>)
    reads fs
  {
    && fs.Valid() && fs.Keeps(before)
    && fs.Untouched({temporary})
    && fs.removed == {}
    && (mine.Some? ==> mine.value !in before.data && mine.value in fs.disk.data)
  }

  ghost predicate Complete(fs: Files, mine: Option<Inode>, bytes: seq<Byte>)
    reads fs
  {
    mine.Some? && mine.value in fs.disk.data && fs.disk.data[mine.value] == bytes
  }

  /** Looks at a name and insists on what it finds. */
  method Check(fs: Files, n: Name, expected: Option<Inode>, ghost before: Disk, ghost temporary: Name,
               ghost mine: Option<Inode>)
    returns (r: Outcome<()>)
    requires Working(fs, before, temporary, mine)
    modifies fs
    ensures Working(fs, before, temporary, mine) && fs.Keeps(old(fs.disk))
    ensures OthersActed(old(fs.Now()), fs.Now()) && |fs.calls| == |old(fs.calls)| + 1
    ensures r.Done? ==> At(fs.disk.names, n) == expected
    ensures (fs.Here(), r) == Checked(old(fs.Here()), n, expected)
  {
    var found := fs.Lstat(n);
    match found {
      case Crashed => return Crashed;
      case Failed => return Failed;
      case Done(i) => return if i == expected then Done(()) else Failed;
    }
  }

  /** Any call on the descriptor of our file that changes nothing we model. */
  method Descriptor(fs: Files, ghost before: Disk, ghost temporary: Name, ghost mine: Option<Inode>)
    returns (r: Outcome<()>)
    requires Working(fs, before, temporary, mine)
    modifies fs
    ensures Working(fs, before, temporary, mine) && fs.Keeps(old(fs.disk))
    ensures OthersActed(old(fs.Now()), fs.Now()) && |fs.calls| == |old(fs.calls)| + 1
    ensures (fs.Here(), r) == Called(old(fs.Here()))
  {
    r := fs.OnDescriptor();
  }

  /** Fills the file just created. `info` is the identity the program itself has learned; before that
      it owns a file it could not recognize. */
  method FillOwn(fs: Files, temporary: Name, i: Inode, bytes: seq<Byte>, ghost before: Disk)
    returns (r: Outcome<()>, info: Option<Inode>)
    requires Working(fs, before, temporary, Some(i)) && fs.disk.data[i] == []
    modifies fs
    ensures Working(fs, before, temporary, Some(i)) && OthersActed(old(fs.Now()), fs.Now())
    ensures info == Some(i) || (info == None && !r.Done? && |fs.calls| == |old(fs.calls)| + 1)
    ensures r.Done? ==> info.Some? && Complete(fs, Some(i), bytes)
    ensures (fs.Here(), r, info) == FilledOwn(old(fs.Here()), i, bytes)
  {
    hide Called, WrittenAll, OthersActed;
    info := None;
    r := Descriptor(fs, before, temporary, Some(i));       // fstat
    if r.Done? {
      info := Some(i);
      ghost var stated := fs.Now();
      r := Descriptor(fs, before, temporary, Some(i));     // fchmod
      ActedTwice(old(fs.Now()), stated, fs.Now());
    }
    if r.Done? {
      ghost var secured := fs.Now();
      r := WriteOut(fs, temporary, i, bytes, before);
      ActedTwice(old(fs.Now()), secured, fs.Now());
    }
  }

  method WriteOut(fs: Files, temporary: Name, i: Inode, bytes: seq<Byte>, ghost before: Disk)
    returns (r: Outcome<()>)
    requires Working(fs, before, temporary, Some(i)) && fs.disk.data[i] == []
    modifies fs
    ensures Working(fs, before, temporary, Some(i)) && OthersActed(old(fs.Now()), fs.Now())
    ensures r.Done? ==> Complete(fs, Some(i), bytes)
    ensures (fs.Here(), r) == WrittenAll(old(fs.Here()), i, bytes)
  {
    hide WrittenAll;
    r := fs.WriteAll(i, bytes);
  }

  /** Creates the temporary file and fills it. Afterwards the name points where the others have moved it
      since the creation, which is the first call here. */
  method Fill(fs: Files, temporary: Name, bytes: seq<Byte>, ghost before: Disk)
    returns (r: Outcome<()>, owned: bool, info: Option<Inode>, ghost mine: Option<Inode>)
    requires Working(fs, before, temporary, None) && fs.Untouched({})
    modifies fs
    ensures Working(fs, before, temporary, mine) && |old(fs.calls)| < |fs.calls|
    ensures (owned <==> mine.Some?) && (info.Some? ==> info == mine) && (!owned ==> fs.Untouched({}))
    ensures r.Done? ==> info.Some? && Complete(fs, mine, bytes)
    ensures owned ==>
              At(fs.disk.names, temporary) == Moved(mine, Concat(fs.calls[|old(fs.calls)| + 1..]), temporary)
    ensures owned && info.None? ==> |fs.calls| == |old(fs.calls)| + 2 && !r.Done?
    ensures Filling(fs.Here(), r, owned, info) == Filled(old(fs.Here()), temporary, bytes)
  {
    hide Created, FilledOwn;
    owned, info, mine := false, None, None;
    var created := fs.CreateExclusive(temporary);
    if !created.Done? {
      r := if created.Crashed? then Crashed else Failed;
      return;
    }
    owned, mine := true, Some(created.value);
    r, info := FillOwn(fs, temporary, created.value, bytes, before);
  }

  /** The rename itself. The others may still act before it, so what it publishes is what the temporary
      name points at by then, and what it replaces is what the target names by then. */
  method Rename(fs: Files, target: Name, temporary: Name, ghost before: Disk, ghost mine: Option<Inode>)
    returns (r: Outcome<()>)
    requires Working(fs, before, temporary, mine) && mine.Some? && target != temporary
    modifies fs
    ensures fs.Keeps(old(fs.disk)) && |fs.calls| == |old(fs.calls)| + 1 && old(fs.calls) <= fs.calls
    ensures !r.Done? ==> Working(fs, before, temporary, mine)
    ensures r.Done? ==>
              && Published(fs, before, target, temporary, mine)
              && At(fs.disk.names, target) == Moved(At(old(fs.disk).names, temporary), fs.Recent(1), temporary)
              && At(fs.outside, target) == Moved(At(old(fs.disk).names, target), fs.Recent(1), target)
    ensures (fs.Here(), r) == Replaced(old(fs.Here()), temporary, target)
  {
    hide Replaced, Moved;
    ghost var was;
    assert At(fs.disk.names, target) == At(fs.outside, target);
    r, was := fs.Replace(temporary, target);
    assert fs.calls[|fs.calls| - 1..] == fs.calls[|old(fs.calls)|..];
  }

  /** Published over the target. */
  ghost predicate Published(fs: Files, before: Disk, target: Name, temporary: Name, mine: Option<Inode>)
    reads fs
  {
    && fs.Valid() && fs.Keeps(before)
    && fs.Untouched({temporary, target})
    && fs.removed == {}
    && mine.Some? && mine.value !in before.data && mine.value in fs.disk.data
    && target in fs.disk.names
  }

  lemma LastTwo(i: Option<Inode>, calls: seq<seq<Swap>>, more: seq<seq<Swap>>, n: Name)
    requires |calls| >= 1 && |more| == |calls| + 1 && calls <= more
    ensures Moved(i, Concat(more[|more| - 2..]), n)
            == Moved(Moved(i, Concat(calls[|calls| - 1..]), n), Concat(more[|more| - 1..]), n)
  {
    var a, b := calls[|calls| - 1..], more[|more| - 1..];
    assert more[|more| - 2..] == a + b;
    ConcatAppend(a, b);
    MovedTwice(i, Concat(a), Concat(b), n);
  }

  /** A success published what the others had made of the temporary name, and replaced what they had
      made of the target, since the program last looked: before the last two calls for the name it
      looked at first, before the last one for the other. */
  ghost predicate Unnoticed(fs: Files, first: Name, expectedFirst: Option<Inode>, second: Name,
                            expectedSecond: Option<Inode>, target: Name, temporary: Name)
    reads fs
  {
    && |fs.calls| >= 2
    && (first == temporary && second == target ==>
          && At(fs.disk.names, target) == Moved(expectedFirst, fs.Recent(2), temporary)
          && At(fs.outside, target) == Moved(expectedSecond, fs.Recent(1), target))
    && (first == target && second == temporary ==>
          && At(fs.disk.names, target) == Moved(expectedSecond, fs.Recent(1), temporary)
          && At(fs.outside, target) == Moved(expectedFirst, fs.Recent(2), target))
  }

  method RenameSeen(fs: Files, ghost first: Name, ghost expectedFirst: Option<Inode>, ghost second: Name,
                    ghost expectedSecond: Option<Inode>, target: Name, temporary: Name,
                    ghost before: Disk, ghost mine: Option<Inode>)
    returns (r: Outcome<()>)
    requires Working(fs, before, temporary, mine) && mine.Some? && target != temporary
    requires |fs.calls| >= 1 && At(fs.disk.names, first) == Moved(expectedFirst, fs.Recent(1), first)
    requires At(fs.disk.names, second) == expectedSecond
    modifies fs
    ensures fs.Keeps(old(fs.disk))
    ensures !r.Done? ==> Working(fs, before, temporary, mine)
    ensures r.Done? ==>
              && Published(fs, before, target, temporary, mine)
              && Unnoticed(fs, first, expectedFirst, second, expectedSecond, target, temporary)
    ensures (fs.Here(), r) == Replaced(old(fs.Here()), temporary, target)
  {
    hide OthersActed, Working, Published, Moved, Replaced;
    ghost var calls := fs.calls;
    r := Rename(fs, target, temporary, before, mine);
    LastTwo(expectedFirst, calls, fs.calls, first);
    hide Concat;
  }

  /** Looks at `first` and then at `second`, and renames. */
  method CheckAndRename(fs: Files, first: Name, expectedFirst: Option<Inode>, second: Name, expectedSecond: Option<Inode>,
                        target: Name, temporary: Name, ghost before: Disk, ghost mine: Option<Inode>)
    returns (r: Outcome<()>)
    requires Working(fs, before, temporary, mine) && mine.Some? && target != temporary
    modifies fs
    ensures fs.Keeps(old(fs.disk))
    ensures !r.Done? ==> Working(fs, before, temporary, mine)
    ensures r.Done? ==>
              && Published(fs, before, target, temporary, mine)
              && Unnoticed(fs, first, expectedFirst, second, expectedSecond, target, temporary)
    ensures (fs.Here(), r)
            == CheckedAndRenamed(old(fs.Here()), first, expectedFirst, second, expectedSecond, target, temporary)
  {
    hide Checked, Replaced, Moved, Published, Unnoticed, Working, OthersActed;
    r := Check(fs, first, expectedFirst, before, temporary, mine);
    if !r.Done? {
      return;
    }
    r := CheckSecond(fs, first, expectedFirst, second, expectedSecond, temporary, before, mine);
    if !r.Done? {
      return;
    }
    r := RenameSeen(fs, first, expectedFirst, second, expectedSecond, target, temporary, before, mine);
  }

  method CheckSecond(fs: Files, first: Name, expectedFirst: Option<Inode>, second: Name, expectedSecond: Option<Inode>,
                     temporary: Name, ghost before: Disk, ghost mine: Option<Inode>)
    returns (r: Outcome<()>)
    requires Working(fs, before, temporary, mine) && At(fs.disk.names, first) == expectedFirst
    modifies fs
    ensures Working(fs, before, temporary, mine) && fs.Keeps(old(fs.disk)) && |fs.calls| == |old(fs.calls)| + 1
    ensures r.Done? ==>
              At(fs.disk.names, first) == Moved(expectedFirst, fs.Recent(1), first)
              && At(fs.disk.names, second) == expectedSecond
    ensures (fs.Here(), r) == Checked(old(fs.Here()), second, expectedSecond)
  {
    hide Checked, Moved;
    r := Check(fs, second, expectedSecond, before, temporary, mine);
  }

  // ---- the approval store: check our temporary file, then the target, then rename ----

  method RenameStore(fs: Files, target: Name, temporary: Name, expected: Option<Inode>, info: Option<Inode>,
                     ghost bytes: seq<Byte>, ghost before: Disk)
    returns (r: Outcome<()>)
    requires Working(fs, before, temporary, info) && Complete(fs, info, bytes) && target != temporary
    modifies fs
    ensures !r.Done? ==> Working(fs, before, temporary, info)
    ensures r.Done? ==>
              && Published(fs, before, target, temporary, info) && Complete(fs, info, bytes)
              && Unnoticed(fs, temporary, info, target, expected, target, temporary)
    ensures (fs.Here(), r) == StoreRenamed(old(fs.Here()), target, temporary, expected, info)
  {
    hide Called, CheckedAndRenamed, Unnoticed, Published, OthersActed;
    r := Descriptor(fs, before, temporary, info);          // fsync
    if r.Done? {
      r := CheckAndRename(fs, temporary, info, target, expected, target, temporary, before, info);
    }
  }

  /** Cleanup after a failure. What it unlinks, if anything, is what the temporary name points at by then. */
  method CleanUp(fs: Files, temporary: Name, info: Option<Inode>, ghost before: Disk, ghost mine: Option<Inode>)
    requires Working(fs, before, temporary, mine)
    modifies fs
    ensures fs.Valid() && fs.Keeps(before) && fs.Untouched({temporary})
    ensures |fs.calls| > |old(fs.calls)| && old(fs.calls) <= fs.calls
    ensures fs.removed <= Only(Moved(if info.Some? then info else At(old(fs.disk).names, temporary),
                                     fs.Recent(1), temporary))
    ensures info.None? ==> |fs.calls| == |old(fs.calls)| + 1
    ensures fs.Here() == CleanedUp(old(fs.Here()), temporary, info)
  {
    hide Checked, Unlinked, Moved;
    var ours := Done(());
    if info.Some? {
      ours := Check(fs, temporary, info, before, temporary, mine);
    }
    if ours.Done? {
      ghost var calls := fs.calls;
      var r, was := fs.Unlink(temporary);
      assert fs.calls[|fs.calls| - 1..] == fs.calls[|calls|..];
    }
  }

  /** What a cleanup has unlinked, if anything: what the temporary name pointed at by then, after what
      the others did before the last `k` calls. */
  ghost predicate Removed(fs: Files, mine: Option<Inode>, k: nat, temporary: Name)
    reads fs
  {
    fs.removed != {} ==> k <= |fs.calls| && mine.Some? && fs.removed <= Only(Moved(mine, fs.Recent(k), temporary))
  }

  method FillAndRename(fs: Files, target: Name, temporary: Name, expected: Option<Inode>, serialized: seq<Byte>,
                       ghost before: Disk)
    returns (r: Outcome<()>, ghost mine: Option<Inode>)
    requires Working(fs, before, temporary, None) && fs.Untouched({}) && target != temporary
    modifies fs
    ensures !r.Done? ==>
              fs.Valid() && fs.Keeps(before) && fs.Untouched({temporary}) && Removed(fs, mine, 1, temporary)
    ensures r.Done? ==>
              && Published(fs, before, target, temporary, mine) && Complete(fs, mine, serialized)
              && Unnoticed(fs, temporary, mine, target, expected, target, temporary)
    ensures (fs.Here(), r) == FilledAndRenamed(old(fs.Here()), target, temporary, expected, serialized)
  {
    hide Filled, StoreRenamed, CleanedUp, Unnoticed, Published, Complete, Moved, OthersActed, Disk.Valid;
    var owned, info;
    r, owned, info, mine := Fill(fs, temporary, serialized, before);
    if r.Done? {
      r := RenameStore(fs, target, temporary, expected, info, serialized, before);
    }
    if r.Failed? && info.Some? {
      CleanUp(fs, temporary, info, before, mine);
    }
  }

  /** `_write_serialized_store`. All or nothing: unless the call succeeds, every name but the temporary
      one, the target among them, is as the others left it, with its bytes. If it succeeds its own file
      holds exactly the serialized bytes; the target names that file, and the object replaced is the one
      inspected first, exactly as far as the others have not moved the temporary name before the last
      two calls, or the target before the rename. Cleanup unlinks its own file, or what the others have
      put in its place between the check and the unlinking. */
  method WriteSerializedStore(fs: Files, target: Name, temporary: Name, serialized: seq<Byte>)
    returns (r: Outcome<()>, ghost mine: Option<Inode>, ghost inspected: Option<Inode>)
    requires Working(fs, fs.disk, temporary, None) && fs.Untouched({}) && target != temporary
    modifies fs
    ensures !r.Done? ==>
              fs.Valid() && fs.Keeps(old(fs.disk)) && fs.Untouched({temporary}) && Removed(fs, mine, 1, temporary)
    ensures r.Done? ==>
              && Published(fs, old(fs.disk), target, temporary, mine) && Complete(fs, mine, serialized)
              && |fs.calls| >= 2 && inspected == At(Paused(old(fs.Here())).disk.names, target)
              && At(fs.disk.names, target) == Moved(mine, fs.Recent(2), temporary)
              && At(fs.outside, target) == Moved(inspected, fs.Recent(1), target)
    ensures (fs.Here(), r) == StoreWritten(old(fs.Here()), target, temporary, serialized)
  {
    hide Checked, FilledAndRenamed, Published, Complete, Moved, Disk.Valid;
    mine, inspected := None, None;
    ghost var before := fs.disk;
    var targetInfo := fs.Lstat(target);
    if !targetInfo.Done? {
      r := if targetInfo.Crashed? then Crashed else Failed;
      return;
    }
    inspected := targetInfo.value;
    if targetInfo.value.Some? {
      r := Check(fs, target, targetInfo.value, before, temporary, None);   // the opened target
      if !r.Done? {
        return;
      }
    }
    assert Working(fs, before, temporary, None) && fs.Untouched({});
    hide OthersActed;
    r, mine := FillAndRename(fs, target, temporary, targetInfo.value, serialized, before);
  }

  // ---- workspace files: check the target, then our temporary file, then rename ----

  method RenameText(fs: Files, target: Name, temporary: Name, expected: Option<Inode>, info: Option<Inode>,
                    ghost bytes: seq<Byte>, ghost before: Disk)
    returns (r: Outcome<()>)
    requires Working(fs, before, temporary, info) && Complete(fs, info, bytes) && target != temporary
    modifies fs
    ensures !r.Done? ==> Working(fs, before, temporary, info)
    ensures r.Done? ==>
              && Published(fs, before, target, temporary, info) && Complete(fs, info, bytes)
              && Unnoticed(fs, target, expected, temporary, info, target, temporary)
    ensures (fs.Here(), r) == TextRenamed(old(fs.Here()), target, temporary, expected, info)
  {
    hide Called, Checked, CheckedAndRenamed, Unnoticed, Published, OthersActed;
    r := Check(fs, target, expected, before, temporary, info);
    if !r.Done? {
      return;
    }
    r := Descriptor(fs, before, temporary, info);          // fchmod, fsync
    if !r.Done? {
      return;
    }
    r := CheckAndRename(fs, target, expected, temporary, info, target, temporary, before, info);
  }

  /** `_atomic_write_text`. All or nothing as above, with the checks the other way round, so that here
      the target may have been moved before the last two calls and the temporary name before the
      rename. Cleanup that never learned the identity of its own file unlinks what the temporary name
      points at, whatever the others have done since the creation. */
  method AtomicWriteText(fs: Files, target: Name, temporary: Name, text: seq<Byte>)
    returns (r: Outcome<()>, info: Option<Inode>, ghost mine: Option<Inode>, ghost inspected: Option<Inode>)
    requires Working(fs, fs.disk, temporary, None) && fs.Untouched({}) && target != temporary
    modifies fs
    ensures !r.Done? ==>
              && fs.Valid() && fs.Keeps(old(fs.disk)) && fs.Untouched({temporary})
              && Removed(fs, mine, if info.Some? then 1 else 2, temporary)
    ensures r.Done? ==>
              && Published(fs, old(fs.disk), target, temporary, mine) && Complete(fs, mine, text)
              && |fs.calls| >= 2 && inspected == At(Paused(old(fs.Here())).disk.names, target)
              && At(fs.disk.names, target) == Moved(mine, fs.Recent(1), temporary)
              && At(fs.outside, target) == Moved(inspected, fs.Recent(2), target)
    ensures (fs.Here(), r) == TextWritten(old(fs.Here()), target, temporary, text)
  {
    hide Filled, TextRenamed, CleanedUp, Published, Complete, Moved, Disk.Valid;
    info, mine, inspected := None, None, None;
    ghost var before := fs.disk;
    var targetInfo := fs.Lstat(target);
    if !targetInfo.Done? {
      r := if targetInfo.Crashed? then Crashed else Failed;
      return;
    }
    inspected := targetInfo.value;
    var owned;
    assert Working(fs, before, temporary, None) && fs.Untouched({});
    hide OthersActed;
    ghost var n := |fs.calls|;
    r, owned, info, mine := Fill(fs, temporary, text, before);
    if r.Done? {
      r := RenameText(fs, target, temporary, targetInfo.value, info, text, before);
    }
    if r.Failed? && owned {
      ghost var calls := fs.calls;
      CleanUp(fs, temporary, info, before, mine);
      if info.None? {
        assert calls[n + 1..] == calls[|calls| - 1..];
        LastTwo(mine, calls, fs.calls, temporary);
      }
    }
  }

  // ---- the workspace binding: link, never replace ----

  /** `_publish_binding_manifest`: whoever holds the binding name keeps it. If nobody does, the binding
      appears in one step, and it is our complete file exactly as far as the others have not moved the
      temporary name since its creation, which is the first call. `held` is what the binding name points
      at right after the link; the others may act once more before the temporary name is unlinked. */
  method PublishBinding(fs: Files, binding: Name, temporary: Name, serialized: seq<Byte>)
    returns (r: Outcome<()>, ghost mine: Option<Inode>, ghost linked: bool, ghost held: Option<Inode>)
    requires Working(fs, fs.disk, temporary, None) && fs.Untouched({}) && binding != temporary
    modifies fs
    ensures fs.Valid() && fs.Keeps(old(fs.disk)) && |old(fs.calls)| < |fs.calls|
    ensures !linked ==> fs.Untouched({temporary})
    ensures r.Done? ==> held.Some? && At(fs.disk.names, binding) == Moved(held, fs.Recent(1), binding)
    ensures linked ==>
              && r.Done? && mine.Some? && mine.value !in old(fs.disk).data && Complete(fs, mine, serialized)
              && fs.Untouched({temporary, binding}) && At(fs.outside, binding) == Moved(None, fs.Recent(1), binding)
              && |fs.calls| > |old(fs.calls)| + 1
              && held == Moved(mine, Concat(fs.calls[|old(fs.calls)| + 1..|fs.calls| - 1]), temporary)
    ensures fs.removed != {} ==>
              mine.Some? && fs.removed <= Only(Moved(mine, Concat(fs.calls[|old(fs.calls)| + 1..]), temporary))
    ensures (fs.Here(), r, linked) == BindingPublished(old(fs.Here()), binding, temporary, serialized)
  {
    hide Moved, Disk.Valid, Filled, SyncedAndLinked, Unlinked;
    linked, held := false, None;
    ghost var before, n := fs.disk, |fs.calls| + 1;
    var owned, info;
    r, owned, info, mine := Fill(fs, temporary, serialized, before);
    if r.Done? {
      r, linked, held := LinkFile(fs, binding, temporary, n, serialized, before, mine);
    }
    if !r.Crashed? && owned {
      UnlinkTemporary(fs, binding, temporary, n, before, mine);
    }
  }

  /** The last call: the others act once more, and then the temporary name goes. */
  method UnlinkTemporary(fs: Files, ghost binding: Name, temporary: Name, ghost n: nat, ghost before: Disk,
                         ghost mine: Option<Inode>)
    requires fs.Valid() && fs.Keeps(before) && fs.removed == {} && binding != temporary
    requires n <= |fs.calls| && At(fs.disk.names, temporary) == Moved(mine, Concat(fs.calls[n..]), temporary)
    modifies fs
    ensures fs.Valid() && fs.Keeps(before) && fs.Keeps(old(fs.disk)) && |fs.calls| == |old(fs.calls)| + 1
    ensures n < |fs.calls| && fs.calls[n..|fs.calls| - 1] == old(fs.calls)[n..]
    ensures At(fs.disk.names, binding) == Moved(At(old(fs.disk).names, binding), fs.Recent(1), binding)
    ensures At(fs.outside, binding) == Moved(At(old(fs.outside), binding), fs.Recent(1), binding)
    ensures old(fs.Untouched({temporary})) ==> fs.Untouched({temporary})
    ensures old(fs.Untouched({temporary, binding})) ==> fs.Untouched({temporary, binding})
    ensures fs.removed <= Only(Moved(mine, Concat(fs.calls[n..]), temporary))
    ensures fs.Here() == Unlinked(old(fs.Here()), temporary).0
  {
    hide Moved, Disk.Valid;
    ghost var calls := fs.calls;
    var _, was := fs.Unlink(temporary);
    MovedOn(mine, calls, fs.calls, n, temporary);
    assert fs.calls[|fs.calls| - 1..] == fs.calls[|calls|..];
    assert fs.calls[n..|fs.calls| - 1] == calls[n..];
  }

  lemma MovedOn(i: Option<Inode>, calls: seq<seq<Swap>>, more: seq<seq<Swap>>, n: nat, name: Name)
    requires n <= |calls| <= |more| && calls <= more
    ensures Moved(i, Concat(more[n..]), name)
            == Moved(Moved(i, Concat(calls[n..]), name), Concat(more[|calls|..]), name)
  {
    assert more[n..] == calls[n..] + more[|calls|..];
    ConcatAppend(calls[n..], more[|calls|..]);
    MovedTwice(i, Concat(calls[n..]), Concat(more[|calls|..]), name);
  }

  /** Finishes the file and links it. */
  method LinkFile(fs: Files, binding: Name, temporary: Name, ghost n: nat, ghost bytes: seq<Byte>,
                  ghost before: Disk, ghost mine: Option<Inode>)
    returns (r: Outcome<()>, ghost linked: bool, ghost held: Option<Inode>)
    requires Working(fs, before, temporary, mine) && Complete(fs, mine, bytes) && binding != temporary
    requires n <= |fs.calls| && At(fs.disk.names, temporary) == Moved(mine, Concat(fs.calls[n..]), temporary)
    modifies fs
    ensures fs.Valid() && fs.Keeps(before) && Complete(fs, mine, bytes) && fs.removed == {}
    ensures n <= |fs.calls| && old(fs.calls) <= fs.calls && |old(fs.calls)| < |fs.calls|
    ensures At(fs.disk.names, temporary) == Moved(mine, Concat(fs.calls[n..]), temporary)
    ensures held == At(fs.disk.names, binding) && (r.Done? ==> held.Some?)
    ensures !linked ==> fs.Untouched({temporary})
    ensures linked ==>
              && r.Done? && fs.Untouched({temporary, binding}) && At(fs.outside, binding) == None
              && held == At(fs.disk.names, temporary)
    ensures (fs.Here(), r, linked) == SyncedAndLinked(old(fs.Here()), binding, temporary)
  {
    hide Moved, Disk.Valid, Linked, Called;
    ghost var calls := fs.calls;
    r := Descriptor(fs, before, temporary, mine);          // fsync, close
    MovedOn(mine, calls, fs.calls, n, temporary);
    linked, held := false, At(fs.disk.names, binding);
    if r.Done? {
      calls := fs.calls;
      ghost var was;
      var l;
      assert At(fs.disk.names, binding) == At(fs.outside, binding);
      r, l, was := fs.Link(temporary, binding);
      linked, held := l, At(fs.disk.names, binding);
      MovedOn(mine, calls, fs.calls, n, temporary);
    }
  }
}
