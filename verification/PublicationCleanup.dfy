/** What a failed publication leaves behind when the others leave the names alone. */
module PublicationCleanup {
  import opened Results
  import opened FileSystem
  import opened Publication
  import opened PublicationExact

  ghost predicate Trouble(t: Turn) {
    t.fault.Error? || t.fault.Crash? || t.fault == Short(0)
  }

  /** Nobody moves a name, and at most one call goes wrong. */
  ghost predicate OneFault(turns: seq<Turn>) {
    && (forall i :: 0 <= i < |turns| ==> turns[i].swaps == [])
    && (forall i, j :: 0 <= i < j < |turns| ==> !Trouble(turns[i]) || !Trouble(turns[j]))
  }

  /** Nobody moves a name, and no call goes wrong. */
  ghost predicate Spent(turns: seq<Turn>) {
    forall i :: 0 <= i < |turns| ==> turns[i].swaps == [] && !Trouble(turns[i])
  }

  lemma OneCallAlone(w: World)
    requires OneFault(w.turns)
    ensures Paused(w).disk == w.disk && OneFault(Paused(w).turns)
    ensures w.turns != [] && Trouble(w.turns[0]) ==> Spent(Paused(w).turns)
    ensures Spent(w.turns) ==> Spent(Paused(w).turns) && Answer(w, ()).Done?
    ensures !Answer(w, ()).Done? ==> Spent(Paused(w).turns)
    ensures Answer(w, ()).Failed? <==> TurnAt(w.turns, 0).fault.Error?
  {
  }

  lemma {:induction false} WriteAlone(w: World, i: Inode, bytes: seq<Byte>)
    requires OneFault(w.turns)
    ensures var (v, r) := WrittenAll(w, i, bytes);
            v.disk.names == w.disk.names && OneFault(v.turns) && (!r.Done? ==> Spent(v.turns))
    decreases |bytes|
  {
    if bytes != [] {
      OneCallAlone(w);
      hide OneFault, Spent;
      var (v, r) := Written(w, i, bytes);
      if r.Done? && r.value > 0 {
        WriteAlone(v, i, bytes[r.value..]);
      }
    }
  }

  lemma FillAlone(w: World, temporary: Name, bytes: seq<Byte>)
    requires OneFault(w.turns) && temporary !in w.disk.names
    ensures var f := Filled(w, temporary, bytes);
            && OneFault(f.world.turns) && (!f.outcome.Done? ==> Spent(f.world.turns))
            && (f.outcome.Done? ==> f.info.Some?)
            && (f.info.Some? ==> f.owned && At(f.world.disk.names, temporary) == f.info)
            && f.world.disk.names - {temporary} == w.disk.names
            && (f.owned <==> temporary in f.world.disk.names)
            && (f.outcome.Failed? && f.owned && f.info.None? <==> TurnAt(w.turns, 1).fault.Error?)
  {
    hide OneFault, Spent, Trouble, WrittenAll;
    OneCallAlone(w);
    var (v, created) := Created(w, temporary);
    OneCallAlone(v);
    if created.Done? {
      var w1 := Paused(v);
      OneCallAlone(w1);
      WriteAlone(Paused(w1), created.value, bytes);
    }
  }

  /** The cleanup, when nothing goes wrong any more: our file loses its name. */
  lemma CleanUpAlone(w: World, temporary: Name, info: Option<Inode>)
    requires Spent(w.turns) && temporary in w.disk.names && (info.Some? ==> info == At(w.disk.names, temporary))
    ensures CleanedUp(w, temporary, info).disk.names == w.disk.names - {temporary}
  {
    OneCallAlone(w);
    OneCallAlone(Paused(w));
    hide Spent, OneFault, Trouble;
  }

  lemma CheckAlone(w: World, n: Name)
    requires OneFault(w.turns)
    ensures var (v, r) := Checked(w, n, At(w.disk.names, n));
            v.disk == w.disk && OneFault(v.turns) && (!r.Done? ==> Spent(v.turns))
  {
    OneCallAlone(w);
    hide OneFault, Spent;
  }

  lemma RenameAlone(w: World, first: Name, second: Name, target: Name, temporary: Name)
    requires OneFault(w.turns) && temporary in w.disk.names
    ensures var (v, r) := CheckedAndRenamed(w, first, At(w.disk.names, first), second, At(w.disk.names, second), target, temporary);
            if r.Done? then v.disk.names == w.disk.names[target := w.disk.names[temporary]] - {temporary}
            else v.disk == w.disk && Spent(v.turns)
  {
    hide OneFault, Spent, Checked;
    CheckAlone(w, first);
    var w1 := Checked(w, first, At(w.disk.names, first)).0;
    CheckAlone(w1, second);
    OneCallAlone(Checked(w1, second, At(w.disk.names, second)).0);
  }

  /** One name has changed, and it exists. */
  ghost predicate Replacing(w: World, target: Name, v: World) {
    target in v.disk.names && v.disk.names - {target} == w.disk.names - {target}
  }

  lemma StoreFillAlone(w: World, target: Name, temporary: Name, bytes: seq<Byte>)
    requires OneFault(w.turns) && temporary !in w.disk.names && target != temporary
    ensures var (v, r) := FilledAndRenamed(w, target, temporary, At(w.disk.names, target), bytes);
            && (r.Done? ==> Replacing(w, target, v))
            && (r.Failed? ==>
                  v.disk.names - {temporary} == w.disk.names
                  && (temporary in v.disk.names <==> TurnAt(w.turns, 1).fault.Error?))
  {
    hide OneFault, Spent, Trouble, Filled, CleanedUp, CheckedAndRenamed;
    FillAlone(w, temporary, bytes);
    var f := Filled(w, temporary, bytes);
    var v := f.world;
    if f.outcome.Done? {
      assert f.info == At(v.disk.names, temporary) && At(v.disk.names, target) == At(w.disk.names, target);
      OneCallAlone(v);
      RenameAlone(Paused(v), temporary, target, target, temporary);
      v := StoreRenamed(v, target, temporary, At(w.disk.names, target), f.info).0;
    }
    var r := FilledAndRenamed(w, target, temporary, At(w.disk.names, target), bytes).1;
    if r.Failed? && f.info.Some? {
      CleanUpAlone(v, temporary, f.info);
    }
    if r.Done? {
      assert v.disk.names == w.disk.names[target := f.info.value];
    }
  }

  lemma TurnsOn(w: World)
    ensures forall k: nat :: TurnAt(Paused(w).turns, k) == TurnAt(w.turns, k + 1)
    ensures Spent(Paused(w).turns) ==> forall k: nat :: !TurnAt(Paused(w).turns, k).fault.Error?
  {
  }

  /** A failed store write leaves every name as it was, and no new one, unless the program failed to learn the
      identity of its own file: then that file keeps the temporary name. */
  lemma StoreLeftAlone(w: World, target: Name, temporary: Name, bytes: seq<Byte>)
    requires OneFault(w.turns) && temporary !in w.disk.names && target != temporary
    ensures var (v, r) := StoreWritten(w, target, temporary, bytes);
            && (r.Done? ==> Replacing(w, target, v))
            && (r.Failed? ==>
                  v.disk.names - {temporary} == w.disk.names
                  && (temporary in v.disk.names
                      <==> TurnAt(w.turns, if target in w.disk.names then 3 else 2).fault.Error?))
  {
    hide FilledAndRenamed, OneFault, Spent, Trouble, Checked, TurnAt, Paused;
    OneCallAlone(w);
    TurnsOn(w);
    var w1 := Paused(w);
    if target in w.disk.names {
      CheckAlone(w1, target);
      CheckTurns(w1, target);
      StoreFillAlone(Checked(w1, target, At(w1.disk.names, target)).0, target, temporary, bytes);
    } else {
      StoreFillAlone(w1, target, temporary, bytes);
    }
  }

  lemma CheckTurns(w: World, n: Name)
    ensures var v := Checked(w, n, At(w.disk.names, n)).0;
            && (forall k: nat :: TurnAt(v.turns, k) == TurnAt(w.turns, k + 1))
            && (Spent(v.turns) ==> forall k: nat :: !TurnAt(v.turns, k).fault.Error?)
  {
    TurnsOn(w);
  }

  /** A failed workspace write leaves every name as it was, and no new one. */
  lemma TextLeftAlone(w: World, target: Name, temporary: Name, bytes: seq<Byte>)
    requires OneFault(w.turns) && temporary !in w.disk.names && target != temporary
    ensures var (v, r) := TextWritten(w, target, temporary, bytes);
            && (r.Done? ==> Replacing(w, target, v))
            && (r.Failed? ==> v.disk.names == w.disk.names)
  {
    hide OneFault, Spent, Trouble, Filled, CleanedUp, TextRenamed;
    OneCallAlone(w);
    var w1 := Paused(w);
    FillAlone(w1, temporary, bytes);
    var f := Filled(w1, temporary, bytes);
    var v := f.world;
    if f.outcome.Done? {
      assert f.info == At(v.disk.names, temporary) && At(v.disk.names, target) == At(w.disk.names, target);
      TextRenameAlone(v, target, temporary);
      v := TextRenamed(v, target, temporary, At(w.disk.names, target), f.info).0;
    }
    if LstatOf(w, target).1.Done? && TextWritten(w, target, temporary, bytes).1.Failed? && f.owned {
      CleanUpAlone(v, temporary, f.info);
    }
  }

  lemma TextRenameAlone(w: World, target: Name, temporary: Name)
    requires OneFault(w.turns) && temporary in w.disk.names
    ensures var (v, r) := TextRenamed(w, target, temporary, At(w.disk.names, target), At(w.disk.names, temporary));
            if r.Done? then v.disk.names == w.disk.names[target := w.disk.names[temporary]] - {temporary}
            else v.disk == w.disk && Spent(v.turns)
  {
    hide OneFault, Spent, Trouble, CheckedAndRenamed, Checked;
    CheckAlone(w, target);
    var w1 := Checked(w, target, At(w.disk.names, target)).0;
    OneCallAlone(w1);
    RenameAlone(Paused(w1), target, temporary, target, temporary);
  }

  /** A failed publication of the binding leaves every name as it was, and no new one. A successful one adds
      the binding if there was none. */
  lemma BindingLeftAlone(w: World, binding: Name, temporary: Name, bytes: seq<Byte>)
    requires OneFault(w.turns) && temporary !in w.disk.names && binding != temporary
    ensures var (v, r, linked) := BindingPublished(w, binding, temporary, bytes);
            && (linked <==> r.Done? && binding !in w.disk.names)
            && (linked ==> binding in v.disk.names && v.disk.names - {temporary, binding} == w.disk.names)
            && (r.Done? && !linked ==> v.disk.names - {temporary} == w.disk.names)
            && (r.Failed? ==> v.disk.names == w.disk.names)
  {
    hide OneFault, Spent, Trouble, Filled;
    FillAlone(w, temporary, bytes);
    var f := Filled(w, temporary, bytes);
    OneCallAlone(f.world);
    OneCallAlone(Paused(f.world));
    OneCallAlone(Paused(Paused(f.world)));
  }
}
