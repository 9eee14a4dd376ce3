/** When the publication routines succeed, in terms of what the others do and of the calls that fail. */
module PublicationExact {
  import opened Results
  import opened Seqs
  import opened FileSystem
  import opened Publication

  // ---- a schedule: after the last turn listed nothing happens ----

  function TurnAt(turns: seq<Turn>, k: nat): Turn {
    if k < |turns| then turns[k] else Turn([], NoFault)
  }

  function Rest(turns: seq<Turn>, k: nat): seq<Turn> {
    if k <= |turns| then turns[k..] else []
  }

  /** Calls `from` up to `to` are neither refused nor the end of the process. */
  ghost predicate Answered(turns: seq<Turn>, from: nat, to: nat) {
    forall k :: from <= k < to ==> !TurnAt(turns, k).fault.Error? && !TurnAt(turns, k).fault.Crash?
  }

  /** What the others do before calls `from` up to `to`. */
  function Swaps(turns: seq<Turn>, from: nat, to: nat): seq<Swap>
    requires from <= to
  {
    if from == to then [] else Swaps(turns, from, to - 1) + TurnAt(turns, to - 1).swaps
  }

  /** Where a name is found by call `to`, if before call `from` it was at `i`. */
  function Found(turns: seq<Turn>, i: Option<Inode>, n: Name, from: nat, to: nat): Option<Inode>
    requires from <= to
  {
    Moved(i, Swaps(turns, from, to + 1), n)
  }

  /** What calls `k` up to `k + m` take if each is short. */
  function Offered(turns: seq<Turn>, k: nat, m: nat): nat
    decreases m
  {
    if m == 0 then 0
    else (if TurnAt(turns, k).fault.Short? then TurnAt(turns, k).fault.n else 0) + Offered(turns, k + 1, m - 1)
  }

  /** The `m` calls from `k` on write exactly `size` bytes: all but the last are short, and the last takes
      the rest. */
  ghost predicate WritesOut(turns: seq<Turn>, k: nat, m: nat, size: nat) {
    if m == 0 then size == 0
    else
      && (forall j :: k <= j < k + m - 1 ==> TurnAt(turns, j).fault.Short? && TurnAt(turns, j).fault.n > 0)
      && Offered(turns, k, m - 1) < size
      && var last := TurnAt(turns, k + m - 1).fault;
         last.NoFault? || (last.Short? && last.n > 0 && Offered(turns, k, m - 1) + last.n >= size)
  }

  // ---- the worlds a call leads to ----

  lemma {:induction false} SwapsJoin(turns: seq<Turn>, a: nat, b: nat, c: nat)
    requires a <= b <= c
    ensures Swaps(turns, a, c) == Swaps(turns, a, b) + Swaps(turns, b, c)
  {
    if b < c {
      SwapsJoin(turns, a, b, c - 1);
    }
  }

  lemma FoundNext(turns: seq<Turn>, i: Option<Inode>, n: Name, a: nat, b: nat, c: nat)
    requires a <= b <= c
    ensures Moved(i, Swaps(turns, a, c), n) == Moved(Moved(i, Swaps(turns, a, b), n), Swaps(turns, b, c), n)
  {
    SwapsJoin(turns, a, b, c);
    MovedTwice(i, Swaps(turns, a, b), Swaps(turns, b, c), n);
  }

  lemma {:induction false} SwappedAllMoves(d: Disk, swaps: seq<Swap>, n: Name)
    ensures At(SwappedAll(d, swaps).names, n) == Moved(At(d.names, n), swaps, n)
  {
    if swaps != [] {
      SwappedAllMoves(d, swaps[..|swaps| - 1], n);
    }
  }

  lemma {:induction false} SwappedTwice(d: Disk, a: seq<Swap>, b: seq<Swap>)
    ensures SwappedAll(d, a + b) == SwappedAll(SwappedAll(d, a), b)
  {
    if b == [] {
      assert a + b == a;
    } else {
      assert (a + b)[..|a + b| - 1] == a + b[..|b| - 1];
      SwappedTwice(d, a, b[..|b| - 1]);
    }
  }

  /** `v` is reached from `w` by calls `from` up to `to` of the schedule, which have moved no name. */
  ghost predicate Reached(turns: seq<Turn>, w: World, from: nat, v: World, to: nat) {
    && from <= to
    && w.turns == Rest(turns, from) && v.turns == Rest(turns, to)
    && forall n :: At(v.disk.names, n) == Moved(At(w.disk.names, n), Swaps(turns, from, to), n)
  }

  lemma ReachedTwice(turns: seq<Turn>, u: World, a: nat, v: World, b: nat, w: World, c: nat)
    requires Reached(turns, u, a, v, b) && Reached(turns, v, b, w, c)
    ensures Reached(turns, u, a, w, c)
  {
    hide Swaps, Moved;
    forall n ensures At(w.disk.names, n) == Moved(At(u.disk.names, n), Swaps(turns, a, c), n) {
      FoundNext(turns, At(u.disk.names, n), n, a, b, c);
    }
  }

  lemma OneSwaps(turns: seq<Turn>, k: nat)
    ensures Swaps(turns, k, k + 1) == TurnAt(turns, k).swaps
  {
    assert Swaps(turns, k, k) == [];
  }

  lemma PausedIs(turns: seq<Turn>, w: World, k: nat)
    requires w.turns == Rest(turns, k)
    ensures Paused(w) == World(SwappedAll(w.disk, TurnAt(turns, k).swaps), Rest(turns, k + 1))
    ensures Answer(w, ()).Done? <==> !TurnAt(turns, k).fault.Error? && !TurnAt(turns, k).fault.Crash?
  {
    if w.turns == [] {
      assert SwappedAll(w.disk, []) == w.disk;
    } else {
      assert w.turns[0] == TurnAt(turns, k) && w.turns[1..] == Rest(turns, k + 1);
      hide SwappedAll;
    }
  }

  /** One call, from the schedule's point of view. */
  lemma OneCall(turns: seq<Turn>, w: World, k: nat)
    requires w.turns == Rest(turns, k)
    ensures Reached(turns, w, k, Paused(w), k + 1)
    ensures Paused(w).disk == SwappedAll(w.disk, TurnAt(turns, k).swaps)
    ensures Answer(w, ()).Done? <==> Answered(turns, k, k + 1)
  {
    hide SwappedAll, Swaps, Moved, Paused, Answer, Rest, TurnAt;
    OneSwaps(turns, k);
    PausedIs(turns, w, k);
    forall n ensures At(Paused(w).disk.names, n) == Moved(At(w.disk.names, n), TurnAt(turns, k).swaps, n) {
      SwappedAllMoves(w.disk, TurnAt(turns, k).swaps, n);
    }
  }

  // ---- writing out ----

  lemma OneWrite(turns: seq<Turn>, w: World, k: nat, i: Inode, bytes: seq<Byte>)
    requires w.turns == Rest(turns, k)
    ensures Reached(turns, w, k, Written(w, i, bytes).0, k + 1) && Written(w, i, bytes).0.turns == Rest(turns, k + 1)
    ensures Written(w, i, bytes).1.Done? <==> Answered(turns, k, k + 1)
    ensures Written(w, i, bytes).1.Done? ==> Written(w, i, bytes).1.value == Taken(TurnAt(turns, k).fault, |bytes|)
  {
    OneCall(turns, w, k);
    hide Swaps, Moved, SwappedAll;
    assert w.turns != [] ==> w.turns[0] == TurnAt(turns, k);
  }

  lemma ReachedNone(turns: seq<Turn>, w: World, k: nat)
    requires w.turns == Rest(turns, k)
    ensures Reached(turns, w, k, w, k)
  {
  }

  lemma {:induction false} WritesWhen(turns: seq<Turn>, w: World, k: nat, i: Inode, bytes: seq<Byte>, m: nat)
    requires w.turns == Rest(turns, k) && WritesOut(turns, k, m, |bytes|)
    ensures WrittenAll(w, i, bytes).1.Done? && Reached(turns, w, k, WrittenAll(w, i, bytes).0, k + m)
    decreases m
  {
    hide Reached, Moved, Swaps, SwappedAll, Written;
    if m == 0 {
      ReachedNone(turns, w, k);
    } else {
      var (v, r) := Written(w, i, bytes);
      OneWrite(turns, w, k, i, bytes);
      WritesRest(turns, k, m, |bytes|);
      WritesWhen(turns, v, k + 1, i, bytes[r.value..], m - 1);
      ReachedTwice(turns, w, k, v, k + 1, WrittenAll(w, i, bytes).0, k + m);
    }
  }

  lemma WritesRest(turns: seq<Turn>, k: nat, m: nat, size: nat)
    requires m > 0 && WritesOut(turns, k, m, size)
    ensures Answered(turns, k, k + 1)
    ensures 0 < Taken(TurnAt(turns, k).fault, size) <= size
    ensures WritesOut(turns, k + 1, m - 1, size - Taken(TurnAt(turns, k).fault, size))
  {
    if m > 1 {
      assert k + 1 + (m - 1) - 1 == k + m - 1;
    }
  }

  lemma {:induction false} WritesOnlyWhen(turns: seq<Turn>, w: World, k: nat, i: Inode, bytes: seq<Byte>)
    returns (m: nat)
    requires w.turns == Rest(turns, k)
    ensures WrittenAll(w, i, bytes).1.Done? ==> WritesOut(turns, k, m, |bytes|)
    decreases |bytes|
  {
    hide Reached, Written;
    m := 0;
    if WrittenAll(w, i, bytes).1.Done? && bytes != [] {
      var (v, r) := Written(w, i, bytes);
      OneWrite(turns, w, k, i, bytes);
      m := WritesOnlyWhen(turns, v, k + 1, i, bytes[r.value..]);
      m := m + 1;
      WritesFrom(turns, k, m, |bytes|);
    }
  }

  lemma WritesFrom(turns: seq<Turn>, k: nat, m: nat, size: nat)
    requires m > 0 && Answered(turns, k, k + 1)
    requires 0 < Taken(TurnAt(turns, k).fault, size) <= size
    requires WritesOut(turns, k + 1, m - 1, size - Taken(TurnAt(turns, k).fault, size))
    ensures WritesOut(turns, k, m, size)
  {
    if m > 1 {
      assert k + 1 + (m - 1) - 1 == k + m - 1;
      assert TurnAt(turns, k).fault.Short?;
      assert Offered(turns, k, m - 1) == TurnAt(turns, k).fault.n + Offered(turns, k + 1, m - 2);
    }
  }

  // ---- the temporary file ----

  /** The temporary file is created, identified, secured and written out in `m` writes. */
  ghost predicate FillsOut(turns: seq<Turn>, k: nat, at: Option<Inode>, temporary: Name, size: nat, m: nat) {
    && Answered(turns, k, k + 3)
    && Found(turns, at, temporary, k, k) == None
    && WritesOut(turns, k + 3, m, size)
  }

  /** Where the names are once the file is filled: ours where the others have moved it since creation. */
  ghost predicate AfterFill(turns: seq<Turn>, w: World, k: nat, temporary: Name, m: nat, f: Filling) {
    && f.outcome.Done? && f.owned && f.info == Some(Paused(w).disk.next)
    && f.world.turns == Rest(turns, k + 3 + m)
    && At(f.world.disk.names, temporary) == Moved(f.info, Swaps(turns, k + 1, k + 3 + m), temporary)
    && (forall n :: n != temporary ==> At(f.world.disk.names, n) == Moved(At(w.disk.names, n), Swaps(turns, k, k + 3 + m), n))
  }

  lemma CreatedExact(turns: seq<Turn>, w: World, k: nat, temporary: Name)
    requires w.turns == Rest(turns, k)
    ensures var (v, r) := Created(w, temporary);
            && v.turns == Rest(turns, k + 1)
            && (r.Done? <==> Answered(turns, k, k + 1) && Found(turns, At(w.disk.names, temporary), temporary, k, k) == None)
            && (r.Done? ==>
                  && r.value == Paused(w).disk.next && At(v.disk.names, temporary) == Some(r.value)
                  && forall n :: n != temporary ==> At(v.disk.names, n) == Moved(At(w.disk.names, n), Swaps(turns, k, k + 1), n))
  {
    OneCall(turns, w, k);
    hide Swaps, Moved, SwappedAll, Paused, Rest;
  }

  lemma FilledWhen(turns: seq<Turn>, w: World, k: nat, temporary: Name, bytes: seq<Byte>, m: nat)
    requires w.turns == Rest(turns, k) && FillsOut(turns, k, At(w.disk.names, temporary), temporary, |bytes|, m)
    ensures AfterFill(turns, w, k, temporary, m, Filled(w, temporary, bytes))
  {
    hide Swaps, Moved, SwappedAll, Paused, Rest, WritesOut, Created, WrittenAll;
    CreatedExact(turns, w, k, temporary);
    var (v, i) := Created(w, temporary);
    OneCall(turns, v, k + 1);
    var w1 := Paused(v);
    OneCall(turns, w1, k + 2);
    var w2 := Paused(w1);
    WritesWhen(turns, w2, k + 3, i.value, bytes, m);
    var u := WrittenAll(w2, i.value, bytes).0;
    ReachedTwice(turns, v, k + 1, w1, k + 2, w2, k + 3);
    ReachedTwice(turns, v, k + 1, w2, k + 3, u, k + 3 + m);
    forall n | n != temporary
      ensures At(u.disk.names, n) == Moved(At(w.disk.names, n), Swaps(turns, k, k + 3 + m), n)
    {
      FoundNext(turns, At(w.disk.names, n), n, k, k + 1, k + 3 + m);
    }
  }

  lemma FilledOnlyWhen(turns: seq<Turn>, w: World, k: nat, temporary: Name, bytes: seq<Byte>) returns (m: nat)
    requires w.turns == Rest(turns, k)
    ensures Filled(w, temporary, bytes).outcome.Done? ==>
              FillsOut(turns, k, At(w.disk.names, temporary), temporary, |bytes|, m)
  {
    hide Swaps, Moved, SwappedAll, Paused, Rest, WritesOut, Created, WrittenAll, Found;
    m := 0;
    CreatedExact(turns, w, k, temporary);
    if Filled(w, temporary, bytes).outcome.Done? {
      var (v, i) := Created(w, temporary);
      OneCall(turns, v, k + 1);
      OneCall(turns, Paused(v), k + 2);
      m := WritesOnlyWhen(turns, Paused(Paused(v)), k + 3, i.value, bytes);
    }
  }

  lemma StillFound(turns: seq<Turn>, i: Option<Inode>, n: Name, a: nat, b: nat, k: nat)
    requires a <= b <= k
    ensures Found(turns, Moved(i, Swaps(turns, a, b), n), n, b, k) == Found(turns, i, n, a, k)
  {
    FoundNext(turns, i, n, a, b, k + 1);
  }

  // ---- the binding ----

  /** The binding call needs: its file filled; the sync and the link answered; and, at the link, some file
      under the temporary name. What is under the binding name does not matter. */
  ghost predicate Binds(turns: seq<Turn>, d: Disk, temporary: Name, size: nat, m: nat) {
    && FillsOut(turns, 0, At(d.names, temporary), temporary, size, m)
    && Answered(turns, 3 + m, 5 + m)
    && Found(turns, Some(SwappedAll(d, TurnAt(turns, 0).swaps).next), temporary, 1, 4 + m).Some?
  }

  lemma LinksWhen(turns: seq<Turn>, w: World, k: nat, binding: Name, temporary: Name)
    requires w.turns == Rest(turns, k)
    ensures var (_, r, linked) := SyncedAndLinked(w, binding, temporary);
            && (r.Done? <==> Answered(turns, k, k + 2)
                             && Found(turns, At(w.disk.names, temporary), temporary, k, k + 1).Some?)
            && (linked <==> r.Done? && Found(turns, At(w.disk.names, binding), binding, k, k + 1) == None)
  {
    hide Swaps, Moved, SwappedAll, Paused, Rest;
    OneCall(turns, w, k);
    var v := Paused(w);
    OneCall(turns, v, k + 1);
    ReachedTwice(turns, w, k, v, k + 1, Paused(v), k + 2);
  }

  lemma BindsWhen(w: World, binding: Name, temporary: Name, bytes: seq<Byte>, m: nat)
    requires FillsOut(w.turns, 0, At(w.disk.names, temporary), temporary, |bytes|, m) && binding != temporary
    ensures var (_, r, linked) := BindingPublished(w, binding, temporary, bytes);
            && (r.Done? <==> Binds(w.turns, w.disk, temporary, |bytes|, m))
            && (linked <==> r.Done? && Found(w.turns, At(w.disk.names, binding), binding, 0, 4 + m) == None)
  {
    var turns := w.turns;
    assert w.turns == Rest(turns, 0);
    hide Swaps, Moved, SwappedAll, Paused, Rest, WritesOut, Filled, Unlinked, SyncedAndLinked;
    FilledWhen(turns, w, 0, temporary, bytes, m);
    OneCall(turns, w, 0);
    var f := Filled(w, temporary, bytes);
    LinksWhen(turns, f.world, 3 + m, binding, temporary);
    StillFound(turns, f.info, temporary, 1, 3 + m, 4 + m);
    StillFound(turns, At(w.disk.names, binding), binding, 0, 3 + m, 4 + m);
    hide Found, Answered;
  }

  lemma BindsExactly(w: World, binding: Name, temporary: Name, bytes: seq<Byte>)
    requires binding != temporary
    ensures BindingPublished(w, binding, temporary, bytes).1.Done?
            <==> exists m: nat :: Binds(w.turns, w.disk, temporary, |bytes|, m)
  {
    assert w.turns == Rest(w.turns, 0);
    assert BindingPublished(w, binding, temporary, bytes).1.Done? ==> Filled(w, temporary, bytes).outcome.Done?;
    hide BindingPublished;
    var m := FilledOnlyWhen(w.turns, w, 0, temporary, bytes);
    hide Found, Moved, Swaps, WritesOut, Answered;
    if BindingPublished(w, binding, temporary, bytes).1.Done? {
      BindsWhen(w, binding, temporary, bytes, m);
    } else if k: nat :| Binds(w.turns, w.disk, temporary, |bytes|, k) {
      BindsWhen(w, binding, temporary, bytes, k);
    }
  }

  /** The disk with a complete new file under one more name. */
  function WithFile(d: Disk, n: Name, bytes: seq<Byte>): Disk {
    Disk(d.names[n := d.next], d.data[d.next := bytes], d.next + 1)
  }

  lemma FillsCalmly(d: Disk, temporary: Name, bytes: seq<Byte>)
    requires d.Valid() && temporary !in d.names
    ensures Filled(World(d, []), temporary, bytes)
            == Filling(World(WithFile(d, temporary, bytes), []), Done(()), true, Some(d.next))
  {
    var d1, d2 := WithFile(d, temporary, []), WithFile(d, temporary, bytes);
    assert Created(World(d, []), temporary) == (World(d1, []), Done(d.next));
    CalmWrites(d1, d.next, bytes);
    assert d1.data[d.next := bytes] == d2.data;
    hide WrittenAll;
  }

  /** Left alone, the call puts a complete new file under the binding name, or leaves the one there, and the
      temporary name is gone. */
  lemma BindsCalmly(d: Disk, binding: Name, temporary: Name, bytes: seq<Byte>)
    requires d.Valid() && binding != temporary && temporary !in d.names
    ensures BindingPublished(World(d, []), binding, temporary, bytes)
            == (World(if binding in d.names then WithFile(d, binding, bytes).(names := d.names)
                      else WithFile(d, binding, bytes), []), Done(()), binding !in d.names)
  {
    hide Filled;
    FillsCalmly(d, temporary, bytes);
    var names := WithFile(d, temporary, bytes).names;
    assert names - {temporary} == d.names;
    assert names[binding := d.next] - {temporary} == d.names[binding := d.next];
  }

  /** Left alone, the store and the workspace writer put a complete new file under the target, and the
      temporary name is gone. */
  lemma WritesCalmly(d: Disk, target: Name, temporary: Name, bytes: seq<Byte>)
    requires d.Valid() && target != temporary && temporary !in d.names
    ensures StoreWritten(World(d, []), target, temporary, bytes) == (World(WithFile(d, target, bytes), []), Done(()))
    ensures TextWritten(World(d, []), target, temporary, bytes) == (World(WithFile(d, target, bytes), []), Done(()))
  {
    hide Filled;
    FillsCalmly(d, temporary, bytes);
    var names := WithFile(d, temporary, bytes).names;
    assert names[target := d.next] - {temporary} == d.names[target := d.next];
  }

  lemma CalmWrites(d: Disk, i: Inode, bytes: seq<Byte>)
    requires i in d.data && d.data[i] == []
    ensures WrittenAll(World(d, []), i, bytes) == (World(d.(data := d.data[i := bytes]), []), Done(()))
  {
    if bytes == [] {
      assert d.data[i := bytes] == d.data;
    } else {
      assert bytes[..|bytes|] == bytes && [] + bytes == bytes;
      assert Written(World(d, []), i, bytes) == (World(d.(data := d.data[i := bytes]), []), Done(|bytes|));
      assert bytes[|bytes|..] == [];
    }
  }

  // ---- the renames ----

  lemma CheckedExact(turns: seq<Turn>, w: World, k: nat, n: Name, expected: Option<Inode>)
    requires w.turns == Rest(turns, k)
    ensures var (v, r) := Checked(w, n, expected);
            && Reached(turns, w, k, v, k + 1) && v.turns == Rest(turns, k + 1)
            && (r.Done? <==> Answered(turns, k, k + 1) && Found(turns, At(w.disk.names, n), n, k, k) == expected)
  {
    OneCall(turns, w, k);
    hide Swaps, Moved, SwappedAll, Paused, Rest;
  }

  /** Both looks find what they should, and at the rename there is some file under the temporary name. */
  ghost predicate Renames(turns: seq<Turn>, names: map<Name, Inode>, k: nat, first: Name, expectedFirst: Option<Inode>,
                          second: Name, expectedSecond: Option<Inode>, temporary: Name) {
    && Answered(turns, k, k + 3)
    && Found(turns, At(names, first), first, k, k) == expectedFirst
    && Found(turns, At(names, second), second, k, k + 1) == expectedSecond
    && Found(turns, At(names, temporary), temporary, k, k + 2).Some?
  }

  lemma RenamesExactly(turns: seq<Turn>, w: World, k: nat, first: Name, expectedFirst: Option<Inode>,
                       second: Name, expectedSecond: Option<Inode>, target: Name, temporary: Name)
    requires w.turns == Rest(turns, k)
    ensures CheckedAndRenamed(w, first, expectedFirst, second, expectedSecond, target, temporary).1.Done?
            <==> Renames(turns, w.disk.names, k, first, expectedFirst, second, expectedSecond, temporary)
  {
    hide Swaps, Moved, SwappedAll, Paused, Rest, Checked;
    CheckedExact(turns, w, k, first, expectedFirst);
    var w1 := Checked(w, first, expectedFirst).0;
    CheckedExact(turns, w1, k + 1, second, expectedSecond);
    var w2 := Checked(w1, second, expectedSecond).0;
    OneCall(turns, w2, k + 2);
    FoundNext(turns, At(w.disk.names, second), second, k, k + 1, k + 2);
    FoundNext(turns, At(w.disk.names, temporary), temporary, k, k + 1, k + 2);
    FoundNext(turns, At(w.disk.names, temporary), temporary, k, k + 2, k + 3);
  }

  /** From call `c` on the store creates and fills its file and syncs it; at the two looks the temporary name
      is at that file and the target where it was first seen; and at the rename the temporary name exists. */
  ghost predicate StoreReplaces(turns: seq<Turn>, d: Disk, c: nat, target: Name, temporary: Name,
                                expected: Option<Inode>, size: nat, m: nat) {
    var mine := Some(SwappedAll(d, Swaps(turns, 0, c + 1)).next);
    && FillsOut(turns, c, Moved(At(d.names, temporary), Swaps(turns, 0, c), temporary), temporary, size, m)
    && Answered(turns, c + 3 + m, c + 7 + m)
    && Found(turns, mine, temporary, c + 1, c + 4 + m) == mine
    && Found(turns, At(d.names, target), target, 0, c + 5 + m) == expected
    && Found(turns, mine, temporary, c + 1, c + 6 + m).Some?
  }

  /** Nothing but swaps has happened up to call `k`. */
  ghost predicate OnlySwapped(turns: seq<Turn>, d: Disk, k: nat, w: World) {
    && w.turns == Rest(turns, k) && w.disk == SwappedAll(d, Swaps(turns, 0, k))
  }

  lemma OnlySwappedNext(turns: seq<Turn>, d: Disk, k: nat, w: World)
    requires OnlySwapped(turns, d, k, w)
    ensures OnlySwapped(turns, d, k + 1, Paused(w))
    ensures forall n :: At(w.disk.names, n) == Moved(At(d.names, n), Swaps(turns, 0, k), n)
  {
    OneCall(turns, w, k);
    SwappedTwice(d, Swaps(turns, 0, k), TurnAt(turns, k).swaps);
    hide SwappedAll, Paused, Rest;
    forall n ensures At(w.disk.names, n) == Moved(At(d.names, n), Swaps(turns, 0, k), n) {
      SwappedAllMoves(d, Swaps(turns, 0, k), n);
    }
  }

  lemma StoreReplacesWhen(turns: seq<Turn>, d: Disk, w: World, c: nat, target: Name, temporary: Name,
                          expected: Option<Inode>, bytes: seq<Byte>, m: nat)
    requires OnlySwapped(turns, d, c, w) && target != temporary
    requires FillsOut(turns, c, At(w.disk.names, temporary), temporary, |bytes|, m)
    ensures FilledAndRenamed(w, target, temporary, expected, bytes).1.Done?
            <==> StoreReplaces(turns, d, c, target, temporary, expected, |bytes|, m)
  {
    hide Swaps, Moved, SwappedAll, Paused, Rest, WritesOut, Filled, CleanedUp, CheckedAndRenamed, Called, Renames;
    OnlySwappedNext(turns, d, c, w);
    FilledWhen(turns, w, c, temporary, bytes, m);
    StoreRenamesWhen(turns, d, w, c, target, temporary, expected, bytes, m);
    hide StoreRenamed, Answered, Found;
  }

  lemma StoreRenamesWhen(turns: seq<Turn>, d: Disk, w: World, c: nat, target: Name, temporary: Name,
                         expected: Option<Inode>, bytes: seq<Byte>, m: nat)
    requires OnlySwapped(turns, d, c, w) && target != temporary
    requires FillsOut(turns, c, At(w.disk.names, temporary), temporary, |bytes|, m)
    ensures var f := Filled(w, temporary, bytes);
            StoreRenamed(f.world, target, temporary, expected, f.info).1.Done?
            <==> StoreReplaces(turns, d, c, target, temporary, expected, |bytes|, m)
  {
    hide Swaps, Moved, SwappedAll, Paused, Rest, WritesOut, Filled, CheckedAndRenamed;
    OnlySwappedNext(turns, d, c, w);
    FilledWhen(turns, w, c, temporary, bytes, m);
    var f, k := Filled(w, temporary, bytes), c + 3 + m;
    OneCall(turns, f.world, k);
    var v := Paused(f.world);
    RenamesExactly(turns, v, k + 1, temporary, f.info, target, expected, target, temporary);
    FoundNext(turns, f.info, temporary, c + 1, k, k + 1);
    StillFound(turns, f.info, temporary, c + 1, k + 1, k + 1);
    StillFound(turns, f.info, temporary, c + 1, k + 1, k + 3);
    FoundNext(turns, At(w.disk.names, target), target, c, k, k + 1);
    FoundNext(turns, At(d.names, target), target, 0, c, k + 1);
    StillFound(turns, At(d.names, target), target, 0, k + 1, k + 2);
    hide Found;
  }

  lemma StoreReplacesOnlyWhen(turns: seq<Turn>, d: Disk, w: World, c: nat, target: Name, temporary: Name,
                              expected: Option<Inode>, bytes: seq<Byte>)
    requires OnlySwapped(turns, d, c, w) && target != temporary
    ensures FilledAndRenamed(w, target, temporary, expected, bytes).1.Done?
            <==> exists m: nat :: StoreReplaces(turns, d, c, target, temporary, expected, |bytes|, m)
  {
    var m := FilledOnlyWhen(turns, w, c, temporary, bytes);
    OnlySwappedNext(turns, d, c, w);
    hide OnlySwapped, Found, Moved, Swaps, WritesOut, Answered, FillsOut, SwappedAll;
    if FilledAndRenamed(w, target, temporary, expected, bytes).1.Done? {
      assert Filled(w, temporary, bytes).outcome.Done?;
      hide FilledAndRenamed;
      StoreReplacesWhen(turns, d, w, c, target, temporary, expected, bytes, m);
    } else if k: nat :| StoreReplaces(turns, d, c, target, temporary, expected, |bytes|, k) {
      hide FilledAndRenamed;
      StoreReplacesWhen(turns, d, w, c, target, temporary, expected, bytes, k);
    }
  }

  /** The first looks: `w2` is the world after them. */
  lemma StoreLooks(w: World, target: Name, temporary: Name, bytes: seq<Byte>) returns (w2: World)
    ensures var first := Found(w.turns, At(w.disk.names, target), target, 0, 0);
            var c := if first.Some? then 2 else 1;
            && OnlySwapped(w.turns, w.disk, c, w2)
            && (StoreWritten(w, target, temporary, bytes).1.Done?
                <==> && Answered(w.turns, 0, c)
                     && Found(w.turns, At(w.disk.names, target), target, 0, c - 1) == first
                     && FilledAndRenamed(w2, target, temporary, first, bytes).1.Done?)
  {
    var turns, d := w.turns, w.disk;
    assert OnlySwapped(turns, d, 0, w);
    hide Moved, Swaps, FilledAndRenamed, Paused, SwappedAll, Rest;
    OnlySwappedNext(turns, d, 0, w);
    OneCall(turns, w, 0);
    var w1 := Paused(w);
    OnlySwappedNext(turns, d, 1, w1);
    if At(w1.disk.names, target).Some? {
      CheckedExact(turns, w1, 1, target, At(w1.disk.names, target));
      StillFound(turns, At(d.names, target), target, 0, 1, 1);
      w2 := Checked(w1, target, At(w1.disk.names, target)).0;
    } else {
      w2 := w1;
    }
  }

  /** The store is replaced exactly if the target, where there is one, is found again, and then all of the
      above holds. */
  lemma StoreWrittenExactly(w: World, target: Name, temporary: Name, bytes: seq<Byte>)
    requires target != temporary
    ensures var first := Found(w.turns, At(w.disk.names, target), target, 0, 0);
            var c := if first.Some? then 2 else 1;
            StoreWritten(w, target, temporary, bytes).1.Done?
            <==> && Answered(w.turns, 0, c)
                 && Found(w.turns, At(w.disk.names, target), target, 0, c - 1) == first
                 && exists m: nat :: StoreReplaces(w.turns, w.disk, c, target, temporary, first, |bytes|, m)
  {
    var first := Found(w.turns, At(w.disk.names, target), target, 0, 0);
    var w2 := StoreLooks(w, target, temporary, bytes);
    hide FilledAndRenamed, StoreReplaces, Found, OnlySwapped, StoreWritten, Answered;
    StoreReplacesOnlyWhen(w.turns, w.disk, w2, if first.Some? then 2 else 1, target, temporary, first, bytes);
  }

  // ---- workspace files ----

  /** The writer looks, creates and fills its file; the target is where it was first seen at both later looks,
      the temporary name at its file, and at the rename the temporary name exists. */
  ghost predicate TextReplaces(turns: seq<Turn>, d: Disk, target: Name, temporary: Name, size: nat, m: nat) {
    var first := Found(turns, At(d.names, target), target, 0, 0);
    var mine := Some(SwappedAll(d, Swaps(turns, 0, 2)).next);
    && Answered(turns, 0, 1)
    && FillsOut(turns, 1, Moved(At(d.names, temporary), Swaps(turns, 0, 1), temporary), temporary, size, m)
    && Answered(turns, 4 + m, 9 + m)
    && Found(turns, At(d.names, target), target, 0, 4 + m) == first
    && Found(turns, At(d.names, target), target, 0, 6 + m) == first
    && Found(turns, mine, temporary, 2, 7 + m) == mine
    && Found(turns, mine, temporary, 2, 8 + m).Some?
  }

  lemma TextRenamesWhen(turns: seq<Turn>, d: Disk, w: World, target: Name, temporary: Name, bytes: seq<Byte>, m: nat)
    requires OnlySwapped(turns, d, 1, w) && target != temporary && Answered(turns, 0, 1)
    requires FillsOut(turns, 1, At(w.disk.names, temporary), temporary, |bytes|, m)
    ensures var f := Filled(w, temporary, bytes);
            TextRenamed(f.world, target, temporary, Found(turns, At(d.names, target), target, 0, 0), f.info).1.Done?
            <==> TextReplaces(turns, d, target, temporary, |bytes|, m)
  {
    hide Swaps, Moved, SwappedAll, Paused, Rest, WritesOut, Filled, CheckedAndRenamed, Checked;
    OnlySwappedNext(turns, d, 1, w);
    FilledWhen(turns, w, 1, temporary, bytes, m);
    var f, expected := Filled(w, temporary, bytes), Found(turns, At(d.names, target), target, 0, 0);
    CheckedExact(turns, f.world, 4 + m, target, expected);
    var u := Checked(f.world, target, expected).0;
    OneCall(turns, u, 5 + m);
    var v := Paused(u);
    ReachedTwice(turns, f.world, 4 + m, u, 5 + m, v, 6 + m);
    RenamesExactly(turns, v, 6 + m, target, expected, temporary, f.info, target, temporary);
    FoundNext(turns, f.info, temporary, 2, 4 + m, 6 + m);
    StillFound(turns, f.info, temporary, 2, 6 + m, 7 + m);
    StillFound(turns, f.info, temporary, 2, 6 + m, 8 + m);
    FoundNext(turns, At(d.names, target), target, 0, 1, 4 + m);
    StillFound(turns, At(d.names, target), target, 0, 4 + m, 4 + m);
    FoundNext(turns, At(d.names, target), target, 0, 4 + m, 6 + m);
    StillFound(turns, At(d.names, target), target, 0, 6 + m, 6 + m);
    hide Found;
  }

  lemma TextWrittenExactly(w: World, target: Name, temporary: Name, bytes: seq<Byte>)
    requires target != temporary
    ensures TextWritten(w, target, temporary, bytes).1.Done?
            <==> exists m: nat :: TextReplaces(w.turns, w.disk, target, temporary, |bytes|, m)
  {
    var turns, d := w.turns, w.disk;
    assert OnlySwapped(turns, d, 0, w);
    OnlySwappedNext(turns, d, 0, w);
    OneCall(turns, w, 0);
    var w1 := Paused(w);
    OnlySwappedNext(turns, d, 1, w1);
    hide Moved, Swaps, Filled, TextRenamed, CleanedUp, Paused, SwappedAll, FillsOut, Found;
    var m := FilledOnlyWhen(turns, w1, 1, temporary, bytes);
    if TextWritten(w, target, temporary, bytes).1.Done? {
      TextRenamesWhen(turns, d, w1, target, temporary, bytes, m);
    } else if k: nat :| TextReplaces(turns, d, target, temporary, |bytes|, k) {
      FilledWhen(turns, w1, 1, temporary, bytes, k);
      TextRenamesWhen(turns, d, w1, target, temporary, bytes, k);
    }
  }
}
