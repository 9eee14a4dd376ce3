/** Runs of the publication routines in which others act where the program does not look. */
module PublicationWindows {
  import opened Results
  import opened FileSystem
  import opened Publication

  const TARGET: Name := "target"
  const TEMPORARY: Name := "temporary"
  const OLD: seq<Byte> := [1]
  const FOREIGN: seq<Byte> := [2]
  const NEW: seq<Byte> := [3]

  /** The target holds the old bytes, and inode 1 foreign ones. Ours will be inode 2. */
  const DISK := Disk(map[TARGET := 0], map[0 := OLD, 1 := FOREIGN], 2)

  const QUIET := Turn([], NoFault)

  function Calm(n: nat): seq<Turn> {
    if n == 0 then [] else [QUIET] + Calm(n - 1)
  }

  /** Nothing happens before the next call. */
  lemma CalmCall(d: Disk, n: nat, rest: seq<Turn>)
    requires n > 0
    ensures Paused(World(d, Calm(n) + rest)) == World(d, Calm(n - 1) + rest)
    ensures forall x: Option<Inode> :: Answer(World(d, Calm(n) + rest), x) == Done(x)
    ensures Answer(World(d, Calm(n) + rest), ()) == Done(())
    ensures forall i: Inode :: Answer(World(d, Calm(n) + rest), i) == Done(i)
  {
    var turns := Calm(n) + rest;
    assert turns[0] == QUIET && turns[1..] == Calm(n - 1) + rest;
    assert SwappedAll(d, []) == d;
  }

  /** With nothing happening: our file, complete, after eight calls. */
  const CREATED := Disk(map[TARGET := 0, TEMPORARY := 2], map[0 := OLD, 1 := FOREIGN, 2 := []], 3)
  const WRITTEN := Disk(map[TARGET := 0, TEMPORARY := 2], map[0 := OLD, 1 := FOREIGN, 2 := NEW], 3)

  lemma CalmFill(n: nat, rest: seq<Turn>)
    requires n >= 4
    ensures Filled(World(DISK, Calm(n) + rest), TEMPORARY, NEW)
            == Filling(World(WRITTEN, Calm(n - 4) + rest), Done(()), true, Some(2))
  {
    CalmCall(DISK, n, rest);
    CalmCall(CREATED, n - 1, rest);
    CalmCall(CREATED, n - 2, rest);
    CalmCall(CREATED, n - 3, rest);
    assert Created(World(DISK, Calm(n) + rest), TEMPORARY) == (World(CREATED, Calm(n - 1) + rest), Done(2));
    CalmWrite(n - 3, rest);
    hide Created, WrittenAll, Paused, Answer;
  }

  lemma CalmWrite(n: nat, rest: seq<Turn>)
    requires n >= 1
    ensures WrittenAll(World(CREATED, Calm(n) + rest), 2, NEW) == (World(WRITTEN, Calm(n - 1) + rest), Done(()))
  {
    CalmCall(CREATED, n, rest);
    assert (Calm(n) + rest)[0] == QUIET;
    assert NEW[..1] == NEW && [] + NEW == NEW;
    assert CREATED.data[2 := NEW] == WRITTEN.data;
    assert Written(World(CREATED, Calm(n) + rest), 2, NEW) == (World(WRITTEN, Calm(n - 1) + rest), Done(1));
    assert NEW[1..] == [];
  }

  const SWAPPED_TEMPORARY := Disk(map[TARGET := 0, TEMPORARY := 1], WRITTEN.data, 3)
  const SWAPPED_TARGET := Disk(map[TARGET := 1, TEMPORARY := 2], WRITTEN.data, 3)

  const AT_TEMPORARY := Turn([Point(TEMPORARY, 1, [])], NoFault)
  const AT_TARGET := Turn([Point(TARGET, 1, [])], NoFault)

  lemma SwapCall(d: Disk, turn: Turn, swapped: Disk, rest: seq<Turn>)
    requires turn.fault == NoFault && |turn.swaps| == 1 && Swapped(d, turn.swaps[0]) == swapped
    ensures Paused(World(d, [turn] + rest)) == World(swapped, rest)
    ensures forall x: Option<Inode> :: Answer(World(d, [turn] + rest), x) == Done(x)
    ensures Answer(World(d, [turn] + rest), ()) == Done(())
  {
    assert turn.swaps[..0] == [] && SwappedAll(d, []) == d;
    assert ([turn] + rest)[0] == turn && ([turn] + rest)[1..] == rest;
  }

  lemma NoMoreCalls(d: Disk)
    ensures Paused(World(d, [])) == World(d, [])
    ensures forall x: Option<Inode> :: Answer(World(d, []), x) == Done(x)
    ensures Answer(World(d, []), ()) == Done(())
  {
  }

  lemma CalmCheck(d: Disk, n: nat, rest: seq<Turn>, name: Name)
    requires n > 0
    ensures Checked(World(d, Calm(n) + rest), name, At(d.names, name)) == (World(d, Calm(n - 1) + rest), Done(()))
  {
    CalmCall(d, n, rest);
  }

  lemma SwapCheck(d: Disk, turn: Turn, swapped: Disk, rest: seq<Turn>, name: Name)
    requires turn.fault == NoFault && |turn.swaps| == 1 && Swapped(d, turn.swaps[0]) == swapped
    ensures Checked(World(d, [turn] + rest), name, At(swapped.names, name)) == (World(swapped, rest), Done(()))
  {
    SwapCall(d, turn, swapped, rest);
  }

  /** The last two calls: nothing happens before the first look, and `turn` before the second. */
  lemma LateSwap(turn: Turn, swapped: Disk, first: Name, second: Name, i: Inode)
    requires turn.fault == NoFault && |turn.swaps| == 1 && Swapped(WRITTEN, turn.swaps[0]) == swapped
    requires At(swapped.names, TEMPORARY) == Some(i)
    ensures CheckedAndRenamed(World(WRITTEN, Calm(1) + [turn]), first, At(WRITTEN.names, first),
                              second, At(swapped.names, second), TARGET, TEMPORARY)
            == (World(swapped.(names := swapped.names[TARGET := i] - {TEMPORARY}), []), Done(()))
  {
    CalmCheck(WRITTEN, 1, [turn], first);
    assert Calm(0) + [turn] == [turn] + [];
    SwapCheck(WRITTEN, turn, swapped, [], second);
    NoMoreCalls(swapped);
    hide Checked, Calm, Paused, Answer, Swapped;
  }

  lemma CalmLstat(d: Disk, n: nat, rest: seq<Turn>, name: Name)
    requires n > 0
    ensures LstatOf(World(d, Calm(n) + rest), name) == (World(d, Calm(n - 1) + rest), Done(At(d.names, name)))
    ensures Called(World(d, Calm(n) + rest)) == (World(d, Calm(n - 1) + rest), Done(()))
  {
    CalmCall(d, n, rest);
  }

  /** The last three calls: nothing happens before the two looks, and `turn` before the rename. */
  lemma LastSwap(turn: Turn, swapped: Disk, first: Name, second: Name, i: Inode)
    requires turn.fault == NoFault && |turn.swaps| == 1 && Swapped(WRITTEN, turn.swaps[0]) == swapped
    requires At(swapped.names, TEMPORARY) == Some(i)
    ensures CheckedAndRenamed(World(WRITTEN, Calm(1) + [QUIET, turn]), first, At(WRITTEN.names, first),
                              second, At(WRITTEN.names, second), TARGET, TEMPORARY)
            == (World(swapped.(names := swapped.names[TARGET := i] - {TEMPORARY}), []), Done(()))
  {
    CalmCheck(WRITTEN, 1, [QUIET, turn], first);
    assert Calm(0) + [QUIET, turn] == Calm(1) + [turn];
    CalmCheck(WRITTEN, 1, [turn], second);
    assert Calm(0) + [turn] == [turn] + [];
    SwapCall(WRITTEN, turn, swapped, []);
    hide Checked, Calm, Paused, Answer, Swapped;
  }

  // ---- the store ----

  /** Up to its last looks the store has made nine calls, the first eight of them calm. */
  lemma StoreAfterCalm(rest: seq<Turn>, w: World)
    requires CheckedAndRenamed(World(WRITTEN, Calm(1) + rest), TEMPORARY, Some(2), TARGET, Some(0), TARGET, TEMPORARY)
             == (w, Done(()))
    ensures StoreWritten(World(DISK, Calm(8) + rest), TARGET, TEMPORARY, NEW) == (w, Done(()))
  {
    hide FilledAndRenamed, Calm, Checked, LstatOf, StoreWritten, CheckedAndRenamed;
    CalmLstat(DISK, 8, rest, TARGET);
    CalmCheck(DISK, 7, rest, TARGET);
    assert At(DISK.names, TARGET) == Some(0);
    StoreSteps(World(DISK, Calm(8) + rest), World(DISK, Calm(7) + rest), World(DISK, Calm(6) + rest), 0);
    StoreFromFill(rest, w);
  }

  lemma StoreSteps(w: World, w1: World, w2: World, i: Inode)
    requires LstatOf(w, TARGET) == (w1, Done(Some(i))) && Checked(w1, TARGET, Some(i)) == (w2, Done(()))
    ensures StoreWritten(w, TARGET, TEMPORARY, NEW) == FilledAndRenamed(w2, TARGET, TEMPORARY, Some(i), NEW)
  {
    hide FilledAndRenamed, Checked, LstatOf;
  }

  lemma StoreFromFill(rest: seq<Turn>, w: World)
    requires CheckedAndRenamed(World(WRITTEN, Calm(1) + rest), TEMPORARY, Some(2), TARGET, Some(0), TARGET, TEMPORARY)
             == (w, Done(()))
    ensures FilledAndRenamed(World(DISK, Calm(6) + rest), TARGET, TEMPORARY, Some(0), NEW) == (w, Done(()))
  {
    hide Filled, Calm, Called, CheckedAndRenamed;
    CalmFill(6, rest);
    CalmLstat(WRITTEN, 2, rest, TARGET);
    hide LstatOf, WrittenAll, Created, Swapped, Paused;
  }

  /** The temporary name is swapped after the store has looked at it and before it looks at the target.
      The call succeeds, and the target names the foreign file. */
  lemma StorePublishesForeignFile()
    ensures StoreWritten(World(DISK, Calm(8) + [AT_TEMPORARY]), TARGET, TEMPORARY, NEW)
            == (World(Disk(map[TARGET := 1], WRITTEN.data, 3), []), Done(()))
  {
    LateSwap(AT_TEMPORARY, SWAPPED_TEMPORARY, TEMPORARY, TARGET, 1);
    assert SWAPPED_TEMPORARY.names[TARGET := 1] - {TEMPORARY} == map[TARGET := 1];
    StoreAfterCalm([AT_TEMPORARY], World(Disk(map[TARGET := 1], WRITTEN.data, 3), []));
  }

  /** The target is swapped right before the rename. The call succeeds, and the object put there is lost. */
  lemma StoreReplacesForeignObject()
    ensures StoreWritten(World(DISK, Calm(8) + [QUIET, AT_TARGET]), TARGET, TEMPORARY, NEW)
            == (World(Disk(map[TARGET := 2], WRITTEN.data, 3), []), Done(()))
  {
    LastSwap(AT_TARGET, SWAPPED_TARGET, TEMPORARY, TARGET, 2);
    assert SWAPPED_TARGET.names[TARGET := 2] - {TEMPORARY} == map[TARGET := 2];
    StoreAfterCalm([QUIET, AT_TARGET], World(Disk(map[TARGET := 2], WRITTEN.data, 3), []));
  }

  // ---- the workspace writer ----

  lemma TextAfterCalm(rest: seq<Turn>, w: World)
    requires CheckedAndRenamed(World(WRITTEN, Calm(1) + rest), TARGET, Some(0), TEMPORARY, Some(2), TARGET, TEMPORARY)
             == (w, Done(()))
    ensures TextWritten(World(DISK, Calm(8) + rest), TARGET, TEMPORARY, NEW) == (w, Done(()))
  {
    hide Filled, Calm, LstatOf, TextRenamed, TextWritten, WrittenAll, CheckedAndRenamed;
    CalmLstat(DISK, 8, rest, TARGET);
    CalmFill(7, rest);
    TextFromFill(rest, w);
    assert At(DISK.names, TARGET) == Some(0);
    TextSteps(World(DISK, Calm(8) + rest), World(DISK, Calm(7) + rest), World(WRITTEN, Calm(3) + rest), 0, 2);
  }

  lemma TextSteps(w: World, w1: World, w2: World, i: Inode, mine: Inode)
    requires LstatOf(w, TARGET) == (w1, Done(Some(i)))
    requires Filled(w1, TEMPORARY, NEW) == Filling(w2, Done(()), true, Some(mine))
    requires TextRenamed(w2, TARGET, TEMPORARY, Some(i), Some(mine)).1 == Done(())
    ensures TextWritten(w, TARGET, TEMPORARY, NEW) == TextRenamed(w2, TARGET, TEMPORARY, Some(i), Some(mine))
  {
    hide Filled, TextRenamed, LstatOf;
  }

  lemma TextFromFill(rest: seq<Turn>, w: World)
    requires CheckedAndRenamed(World(WRITTEN, Calm(1) + rest), TARGET, Some(0), TEMPORARY, Some(2), TARGET, TEMPORARY)
             == (w, Done(()))
    ensures TextRenamed(World(WRITTEN, Calm(3) + rest), TARGET, TEMPORARY, Some(0), Some(2)) == (w, Done(()))
  {
    hide Calm, Called, Checked, CheckedAndRenamed;
    CalmCheck(WRITTEN, 3, rest, TARGET);
    CalmLstat(WRITTEN, 2, rest, TARGET);
    hide LstatOf;
  }

  /** The target is swapped after the writer has looked at it for the last time and before it looks at its
      temporary file. The call succeeds, and the object put there is lost. */
  lemma TextReplacesForeignObject()
    ensures TextWritten(World(DISK, Calm(8) + [AT_TARGET]), TARGET, TEMPORARY, NEW)
            == (World(Disk(map[TARGET := 2], WRITTEN.data, 3), []), Done(()))
  {
    LateSwap(AT_TARGET, SWAPPED_TARGET, TARGET, TEMPORARY, 2);
    assert SWAPPED_TARGET.names[TARGET := 2] - {TEMPORARY} == map[TARGET := 2];
    TextAfterCalm([AT_TARGET], World(Disk(map[TARGET := 2], WRITTEN.data, 3), []));
  }

  /** The temporary name is swapped right before the rename. The call succeeds, and the target names the
      foreign file. */
  lemma TextPublishesForeignFile()
    ensures TextWritten(World(DISK, Calm(8) + [QUIET, AT_TEMPORARY]), TARGET, TEMPORARY, NEW)
            == (World(Disk(map[TARGET := 1], WRITTEN.data, 3), []), Done(()))
  {
    LastSwap(AT_TEMPORARY, SWAPPED_TEMPORARY, TARGET, TEMPORARY, 1);
    assert SWAPPED_TEMPORARY.names[TARGET := 1] - {TEMPORARY} == map[TARGET := 1];
    TextAfterCalm([QUIET, AT_TEMPORARY], World(Disk(map[TARGET := 1], WRITTEN.data, 3), []));
  }

  /** Cleanup: the workspace writer fails to learn the identity of its file, while the temporary name is
      swapped. The call fails, and the foreign file has lost its name. */
  lemma TextUnlinksForeignFile()
    ensures TextWritten(World(DISK, Calm(2) + [AT_TEMPORARY.(fault := Error)]), TARGET, TEMPORARY, NEW)
            == (World(Disk(map[TARGET := 0], CREATED.data, 3), []), Failed)
  {
    var turn := AT_TEMPORARY.(fault := Error);
    var swapped := Disk(map[TARGET := 0, TEMPORARY := 1], CREATED.data, 3);
    CalmLstat(DISK, 2, [turn], TARGET);
    CalmCall(DISK, 1, [turn]);
    assert Created(World(DISK, Calm(1) + [turn]), TEMPORARY) == (World(CREATED, Calm(0) + [turn]), Done(2));
    assert Calm(0) + [turn] == [turn];
    FailedCall(CREATED, turn, swapped);
    NoMoreCalls(swapped);
    assert swapped.names - {TEMPORARY} == map[TARGET := 0];
    hide Created, Called, Calm, Paused, Answer, SwappedAll, LstatOf;
  }

  lemma FailedCall(d: Disk, turn: Turn, swapped: Disk)
    requires turn.fault == Error && |turn.swaps| == 1 && Swapped(d, turn.swaps[0]) == swapped
    ensures Called(World(d, [turn])) == (World(swapped, []), Failed)
  {
    assert turn.swaps[..0] == [] && SwappedAll(d, []) == d;
    assert [turn][1..] == [];
  }
}
