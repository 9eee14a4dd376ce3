/** Names, inodes and bytes; other processes that swap names between our system calls; and system
    calls that fail, write short, or never return because the process dies. */
module FileSystem {
  import opened Results
  import opened Seqs

  newtype Byte = x: int | 0 <= x < 256

  type Name = string
  type Inode = nat

  datatype Disk = Disk(names: map<Name, Inode>, data: map<Inode, seq<Byte>>, next: Inode) {
    predicate Valid() {
      && (forall n :: n in names ==> names[n] in data)
      && (forall i :: i in data ==> i < next)
    }
  }

  /** Another process removes a name, or points it at some inode; `bytes` is what an inode not seen
      before contains. */
  datatype Swap = Remove(name: Name) | Point(name: Name, inode: Inode, bytes: seq<Byte>)

  /** `Short(n)` lets a write take only `n` bytes; to other calls it is no fault. */
  datatype Fault = NoFault | Short(n: nat) | Error | Crash

  datatype Turn = Turn(swaps: seq<Swap>, fault: Fault)

  datatype Outcome<+T> = Done(value: T) | Failed | Crashed

  function Swapped(d: Disk, s: Swap): Disk {
    match s
    case Remove(n) => d.(names := d.names - {n})
    case Point(n, i, bytes) =>
      if i in d.data then d.(names := d.names[n := i])
      else Disk(d.names[n := i], d.data[i := bytes], if i < d.next then d.next else i + 1)
  }

  function SwappedAll(d: Disk, swaps: seq<Swap>): Disk {
    if swaps == [] then d else Swapped(SwappedAll(d, swaps[..|swaps| - 1]), swaps[|swaps| - 1])
  }

  function SwappedNames(names: map<Name, Inode>, s: Swap): map<Name, Inode> {
    match s
    case Remove(n) => names - {n}
    case Point(n, i, _) => names[n := i]
  }

  function At(names: map<Name, Inode>, n: Name): Option<Inode> {
    if n in names then Some(names[n]) else None
  }

  /** Where a name points after these swaps: the last that concerns it counts. */
  function Moved(i: Option<Inode>, swaps: seq<Swap>, n: Name): Option<Inode> {
    if swaps == [] then i
    else
      var last := swaps[|swaps| - 1];
      if last.name == n then (if last.Point? then Some(last.inode) else None)
      else Moved(i, swaps[..|swaps| - 1], n)
  }

  lemma {:induction false} MovedTwice(i: Option<Inode>, a: seq<Swap>, b: seq<Swap>, n: Name)
    ensures Moved(i, a + b, n) == Moved(Moved(i, a, n), b, n)
  {
    if b == [] {
      assert a + b == a;
    } else {
      assert (a + b)[..|a + b| - 1] == a + b[..|b| - 1];
      MovedTwice(i, a, b[..|b| - 1], n);
    }
  }

  /** A name that no swap concerns stays. */
  lemma {:induction false} NotMoved(i: Option<Inode>, swaps: seq<Swap>, n: Name)
    requires forall s :: s in swaps ==> s.name != n
    ensures Moved(i, swaps, n) == i
  {
    if swaps != [] {
      NotMoved(i, swaps[..|swaps| - 1], n);
    }
  }

  /** How many of `n` bytes a write takes. */
  function Taken(fault: Fault, n: nat): (count: nat)
    ensures count <= n
  {
    match fault
    case Short(k) => if k < n then k else n
    case _ => n
  }

  // ---- what a call does, as a function of the disk and of what is to happen ----

  /** `turns`: what the others do before each call to come, and how the call then fails, if it does. */
  datatype World = World(disk: Disk, turns: seq<Turn>)

  function Paused(w: World): World {
    if w.turns == [] then w else World(SwappedAll(w.disk, w.turns[0].swaps), w.turns[1..])
  }

  function Answer<T>(w: World, value: T): Outcome<T> {
    if w.turns == [] then Done(value)
    else
      match w.turns[0].fault
      case Error => Failed
      case Crash => Crashed
      case _ => Done(value)
  }

  function LstatOf(w: World, n: Name): (World, Outcome<Option<Inode>>) {
    (Paused(w), Answer(w, At(Paused(w).disk.names, n)))
  }

  function Called(w: World): (World, Outcome<()>) {
    (Paused(w), Answer(w, ()))
  }

  function Created(w: World, n: Name): (World, Outcome<Inode>) {
    var v, r := Paused(w), Answer(w, Paused(w).disk.next);
    if !r.Done? then (v, r)
    else if n in v.disk.names then (v, Failed)
    else (v.(disk := Disk(v.disk.names[n := r.value], v.disk.data[r.value := []], r.value + 1)), r)
  }

  function Written(w: World, i: Inode, bytes: seq<Byte>): (next: (World, Outcome<nat>))
    ensures next.1.Done? ==> next.1.value <= |bytes|
  {
    var v, count := Paused(w), if w.turns == [] then |bytes| else Taken(w.turns[0].fault, |bytes|);
    var r := Answer(w, count);
    if r.Done? && i in v.disk.data
    then (v.(disk := v.disk.(data := v.disk.data[i := v.disk.data[i] + bytes[..count]])), r)
    else (v, r)
  }

  function WrittenAll(w: World, i: Inode, bytes: seq<Byte>): (World, Outcome<()>)
    decreases |bytes|
  {
    if bytes == [] then (w, Done(()))
    else
      var (v, r) := Written(w, i, bytes);
      if r.Crashed? then (v, Crashed)
      else if r.Failed? || r.value == 0 then (v, Failed)
      else WrittenAll(v, i, bytes[r.value..])
  }

  function Replaced(w: World, from: Name, to: Name): (World, Outcome<()>) {
    var v, r := Paused(w), Answer(w, ());
    if !r.Done? then (v, r)
    else if from !in v.disk.names then (v, Failed)
    else (v.(disk := v.disk.(names := v.disk.names[to := v.disk.names[from]] - {from})), r)
  }

  /** Whether the link was made; a name that exists is no failure. */
  function Linked(w: World, from: Name, to: Name): (World, Outcome<()>, bool) {
    var v, r := Paused(w), Answer(w, ());
    if !r.Done? then (v, r, false)
    else if from !in v.disk.names then (v, Failed, false)
    else if to in v.disk.names then (v, r, false)
    else (v.(disk := v.disk.(names := v.disk.names[to := v.disk.names[from]])), r, true)
  }

  function Unlinked(w: World, n: Name): (World, Outcome<()>) {
    var v, r := Paused(w), Answer(w, ());
    if !r.Done? then (v, r)
    else if n !in v.disk.names then (v, Failed)
    else (v.(disk := v.disk.(names := v.disk.names - {n})), r)
  }

  // ---- what the others do ----

  /** One moment: the names as everyone sees them, the names had we done nothing, what the others have
      done before each of our calls so far, and the inodes whose names we have unlinked. */
  datatype View = View(
    names: map<Name, Inode>, outside: map<Name, Inode>, calls: seq<seq<Swap>>, removed: set<Inode>)

  function Since(a: View, b: View): seq<Swap>
    requires a.calls <= b.calls
  {
    Concat(b.calls[|a.calls|..])
  }

  /** Between two moments only the others have changed names, and by just these swaps. */
  ghost predicate OthersActed(a: View, b: View) {
    && a.calls <= b.calls
    && a.removed == b.removed
    && (forall n :: At(b.names, n) == Moved(At(a.names, n), Since(a, b), n))
    && (forall n :: At(b.outside, n) == Moved(At(a.outside, n), Since(a, b), n))
  }

  lemma ActedTwice(a: View, b: View, c: View)
    requires OthersActed(a, b) && OthersActed(b, c)
    ensures OthersActed(a, c)
  {
    SinceTwice(a, b, c);
    hide Since;
    forall n ensures At(c.names, n) == Moved(At(a.names, n), Since(a, c), n)
      ensures At(c.outside, n) == Moved(At(a.outside, n), Since(a, c), n)
    {
      MovedTwice(At(a.names, n), Since(a, b), Since(b, c), n);
      MovedTwice(At(a.outside, n), Since(a, b), Since(b, c), n);
    }
  }

  lemma SinceTwice(a: View, b: View, c: View)
    requires a.calls <= b.calls <= c.calls
    ensures Since(a, c) == Since(a, b) + Since(b, c)
  {
    Growing(a.calls, b.calls, c.calls);
    ConcatAppend(b.calls[|a.calls|..], c.calls[|b.calls|..]);
  }

  /** Two moments between which nobody has called. */
  lemma ActedNot(a: View)
    ensures OthersActed(a, a)
  {
    assert a.calls[|a.calls|..] == [];
  }

  lemma SwapActs(d: Disk, s: Swap)
    requires d.Valid()
    ensures Swapped(d, s).Valid() && d.next <= Swapped(d, s).next
    ensures forall i :: i in d.data ==> i in Swapped(d, s).data && Swapped(d, s).data[i] == d.data[i]
  {
  }

  /** The names after some swaps, and had we done nothing. */
  ghost predicate SwapsMove(names: map<Name, Inode>, swaps: seq<Swap>, next: map<Name, Inode>) {
    forall n :: At(next, n) == Moved(At(names, n), swaps, n)
  }

  lemma SwapMoves(names: map<Name, Inode>, swaps: seq<Swap>, s: Swap, now: map<Name, Inode>)
    requires SwapsMove(names, swaps, now)
    ensures SwapsMove(names, swaps + [s], SwappedNames(now, s))
  {
    assert (swaps + [s])[..|swaps|] == swaps;
  }

  lemma JustActed(a: View, b: View, swaps: seq<Swap>)
    requires b.calls == a.calls + [swaps] && b.removed == a.removed
    requires SwapsMove(a.names, swaps, b.names) && SwapsMove(a.outside, swaps, b.outside)
    ensures OthersActed(a, b)
  {
    assert b.calls[|a.calls|..] == [swaps];
    assert Concat([swaps]) == swaps + [] == swaps;
    assert Since(a, b) == swaps;
    hide Since, Moved;
  }

  class Files {
    var disk: Disk
    var turns: seq<Turn>                     // what happens before each of our calls
    ghost var outside: map<Name, Inode>      // the names as the others alone would have left them
    ghost var calls: seq<seq<Swap>>          // what the others have done before each call so far
    ghost var removed: set<Inode>            // the inodes whose names we have unlinked

    ghost predicate Valid()
      reads this
    {
      disk.Valid()
    }

    function Here(): World
      reads this
    {
      World(disk, turns)
    }

    ghost function Now(): View
      reads this
    {
      View(disk.names, outside, calls, removed)
    }

    /** What the others have done before the last `k` calls. */
    ghost function Recent(k: nat): seq<Swap>
      requires k <= |calls|
      reads this
    {
      Concat(calls[|calls| - k..])
    }

    /** We and the others agree on every name outside `ours`. */
    ghost predicate Untouched(ours: set<Name>)
      reads this
    {
      forall n :: n !in ours ==> At(disk.names, n) == At(outside, n)
    }

    /** Nothing that was on the disk has lost its bytes. */
    ghost predicate Keeps(before: Disk)
      reads this
    {
      forall i :: i in before.data ==> i in disk.data && disk.data[i] == before.data[i]
    }

    constructor (disk: Disk, turns: seq<Turn>)
      requires disk.Valid()
      ensures Valid() && this.disk == disk && this.turns == turns
      ensures outside == disk.names && calls == [] && removed == {}
    {
      this.disk, this.turns := disk, turns;
      outside, calls, removed := disk.names, [], {};
    }

    /** Lets the others act. They swap names; they do not write into our files. */
    method Pause() returns (fault: Fault)
      requires Valid()
      modifies this
      ensures Valid() && Keeps(old(disk)) && old(disk).next <= disk.next
      ensures OthersActed(old(Now()), Now()) && |calls| == |old(calls)| + 1
      ensures Here() == Paused(old(Here()))
      ensures fault == if old(turns) == [] then NoFault else old(turns)[0].fault
    {
      var swaps: seq<Swap>, next := [], NoFault;
      ghost var w, names, others := Here(), disk.names, outside;
      if turns != [] {
        swaps, next := turns[0].swaps, turns[0].fault;
        turns := turns[1..];
      }
      for i := 0 to |swaps|
        invariant Valid() && Keeps(old(disk)) && old(disk).next <= disk.next
        invariant disk == SwappedAll(old(disk), swaps[..i])
        invariant SwapsMove(names, swaps[..i], disk.names) && SwapsMove(others, swaps[..i], outside)
        invariant calls == old(calls) && removed == old(removed) && turns == Paused(w).turns
      {
        hide Swapped, SwappedNames, Disk.Valid;
        assert swaps[..i + 1] == swaps[..i] + [swaps[i]];
        SwapActs(disk, swaps[i]);
        SwapMoves(names, swaps[..i], swaps[i], disk.names);
        SwapMoves(others, swaps[..i], swaps[i], outside);
        SwappedIsNames(disk, swaps[i]);
        disk := Swapped(disk, swaps[i]);
        outside := SwappedNames(outside, swaps[i]);
      }
      assert swaps[..|swaps|] == swaps;
      calls := calls + [swaps];
      JustActed(old(Now()), Now(), swaps);
      return next;
    }

    /** `lstat` of a name, or none. */
    method Lstat(n: Name) returns (r: Outcome<Option<Inode>>)
      requires Valid()
      modifies this
      ensures Valid() && Keeps(old(disk)) && old(disk).next <= disk.next
      ensures OthersActed(old(Now()), Now()) && |calls| == |old(calls)| + 1
      ensures r.Done? ==> r.value == At(disk.names, n)
      ensures (Here(), r) == LstatOf(old(Here()), n)
    {
      var fault := Pause();
      match fault {
        case Error => return Failed;
        case Crash => return Crashed;
        case _ => return Done(At(disk.names, n));
      }
    }

    /** A call on an open descriptor that changes nothing we model: fstat, fchmod, fsync, close. */
    method OnDescriptor() returns (r: Outcome<()>)
      requires Valid()
      modifies this
      ensures Valid() && Keeps(old(disk)) && old(disk).next <= disk.next
      ensures OthersActed(old(Now()), Now()) && |calls| == |old(calls)| + 1
      ensures (Here(), r) == Called(old(Here()))
    {
      var fault := Pause();
      match fault {
        case Error => return Failed;
        case Crash => return Crashed;
        case _ => return Done(());
      }
    }

    /** `O_CREAT | O_EXCL`: a new empty inode under a name that nobody holds. */
    method CreateExclusive(n: Name) returns (r: Outcome<Inode>)
      requires Valid()
      modifies this
      ensures Valid() && Keeps(old(disk)) && old(disk).next <= disk.next
      ensures r.Done? ==>
                && r.value !in old(disk).data && r.value in disk.data && disk.data[r.value] == []
                && At(disk.names, n) == Some(r.value)
                && removed == old(removed) && old(calls) <= calls
                && (forall m :: m != n && At(old(disk).names, m) == At(old(outside), m) ==> At(disk.names, m) == At(outside, m))
      ensures !r.Done? ==> OthersActed(old(Now()), Now())
      ensures |calls| == |old(calls)| + 1
      ensures (Here(), r) == Created(old(Here()), n)
    {
      var fault := Pause();
      if fault.Crash? {
        return Crashed;
      }
      if fault.Error? || n in disk.names {
        return Failed;
      }
      var i := disk.next;
      disk := Disk(disk.names[n := i], disk.data[i := []], i + 1);
      return Done(i);
    }

    /** One `write`: appends some or all of the bytes, and says how many. */
    method Write(i: Inode, bytes: seq<Byte>) returns (r: Outcome<nat>)
      requires Valid() && i in disk.data && bytes != []
      modifies this
      ensures Valid() && old(disk).next <= disk.next && i in disk.data
      ensures forall j :: j in old(disk).data && j != i ==> j in disk.data && disk.data[j] == old(disk).data[j]
      ensures OthersActed(old(Now()), Now())
      ensures r.Done? ==> r.value <= |bytes| && disk.data[i] == old(disk).data[i] + bytes[..r.value]
      ensures !r.Done? ==> disk.data[i] == old(disk).data[i]
      ensures (Here(), r) == Written(old(Here()), i, bytes)
    {
      var fault := Pause();
      match fault {
        case Error => return Failed;
        case Crash => return Crashed;
        case _ =>
          var count := Taken(fault, |bytes|);
          disk := disk.(data := disk.data[i := disk.data[i] + bytes[..count]]);
          return Done(count);
      }
    }

    /** The loop around `write`: no progress is an error. */
    method WriteAll(i: Inode, bytes: seq<Byte>) returns (r: Outcome<()>)
      requires Valid() && i in disk.data && disk.data[i] == []
      modifies this
      ensures Valid() && old(disk).next <= disk.next && i in disk.data
      ensures forall j :: j in old(disk).data && j != i ==> j in disk.data && disk.data[j] == old(disk).data[j]
      ensures OthersActed(old(Now()), Now())
      ensures disk.data[i] <= bytes
      ensures r.Done? ==> disk.data[i] == bytes
      ensures (Here(), r) == WrittenAll(old(Here()), i, bytes)
    {
      hide Written, OthersActed, Disk.Valid;
      var remaining := bytes;
      ActedNot(Now());
      while remaining != []
        invariant Valid() && old(disk).next <= disk.next && i in disk.data
        invariant forall j :: j in old(disk).data && j != i ==> j in disk.data && disk.data[j] == old(disk).data[j]
        invariant OthersActed(old(Now()), Now())
        invariant disk.data[i] + remaining == bytes
        invariant WrittenAll(old(Here()), i, bytes) == WrittenAll(Here(), i, remaining)
        decreases |remaining|
      {
        ghost var was := Now();
        var written := Write(i, remaining);
        ActedTwice(old(Now()), was, Now());
        if written.Crashed? {
          return Crashed;
        }
        if written.Failed? || written.value == 0 {
          return Failed;
        }
        remaining := remaining[written.value..];
      }
      return Done(());
    }

    /** `rename` over the target. */
    method Replace(from: Name, to: Name) returns (r: Outcome<()>, ghost was: View)
      requires Valid() && from != to
      modifies this
      ensures Valid() && Keeps(old(disk)) && old(disk).next <= disk.next
      ensures OthersActed(old(Now()), was) && |calls| == |old(calls)| + 1
      ensures calls == was.calls && outside == was.outside && removed == was.removed
      ensures r.Done? ==> from in was.names && disk.names == was.names[to := was.names[from]] - {from}
      ensures !r.Done? ==> disk.names == was.names
      ensures (Here(), r) == Replaced(old(Here()), from, to)
    {
      var fault := Pause();
      was := Now();
      match fault {
        case Crash => r := Crashed;
        case Error => r := Failed;
        case _ =>
          if from !in disk.names {
            r := Failed;
          } else {
            disk := disk.(names := disk.names[to := disk.names[from]] - {from});
            r := Done(());
          }
      }
    }

    /** `link`: adds a second name, and leaves alone a name that exists. */
    method Link(from: Name, to: Name) returns (r: Outcome<()>, linked: bool, ghost was: View)
      requires Valid() && from != to
      modifies this
      ensures Valid() && Keeps(old(disk)) && old(disk).next <= disk.next
      ensures OthersActed(old(Now()), was) && |calls| == |old(calls)| + 1
      ensures calls == was.calls && outside == was.outside && removed == was.removed
      ensures linked ==> r.Done? && from in was.names && to !in was.names
                         && disk.names == was.names[to := was.names[from]]
      ensures !linked ==> disk.names == was.names && (r.Done? ==> to in disk.names)
      ensures (Here(), r, linked) == Linked(old(Here()), from, to)
    {
      var fault := Pause();
      was := Now();
      linked := false;
      match fault {
        case Crash => r := Crashed;
        case Error => r := Failed;
        case _ =>
          if from !in disk.names {
            r := Failed;
          } else if to in disk.names {
            r := Done(());
          } else {
            disk := disk.(names := disk.names[to := disk.names[from]]);
            r, linked := Done(()), true;
          }
      }
    }

    method Unlink(n: Name) returns (r: Outcome<()>, ghost was: View)
      requires Valid()
      modifies this
      ensures Valid() && Keeps(old(disk)) && old(disk).next <= disk.next
      ensures OthersActed(old(Now()), was) && |calls| == |old(calls)| + 1
      ensures calls == was.calls && outside == was.outside
      ensures r.Done? ==> n in was.names && disk.names == was.names - {n} && removed == was.removed + {was.names[n]}
      ensures !r.Done? ==> disk.names == was.names && removed == was.removed
      ensures (Here(), r) == Unlinked(old(Here()), n)
    {
      var fault := Pause();
      was := Now();
      match fault {
        case Crash => r := Crashed;
        case Error => r := Failed;
        case _ =>
          if n !in disk.names {
            r := Failed;
          } else {
            removed := removed + {disk.names[n]};
            disk := disk.(names := disk.names - {n});
            r := Done(());
          }
      }
    }
  }

  lemma SwappedIsNames(d: Disk, s: Swap)
    ensures Swapped(d, s).names == SwappedNames(d.names, s)
  {
  }
}
