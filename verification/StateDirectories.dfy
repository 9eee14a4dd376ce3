/** Creating a chain of state directories, binding the last of them, and taking everything back, while
    other processes may add and remove entries and any system call may fail or be the last. */
module StateDirectories {
  import opened Results
  import opened FileSystem

  /** A path by its components, the root being `[]`. */
  type Path = seq<string>

  datatype Node = Node(directory: bool, id: nat)

  type Tree = map<Path, Node>

  function Parent(p: Path): Path
    requires p != []
  {
    p[..|p| - 1]
  }

  /** Every entry lies in a directory. */
  ghost predicate Rooted(tree: Tree) {
    forall p :: p in tree && p != [] ==> Parent(p) in tree && tree[Parent(p)].directory
  }

  predicate Empty(tree: Tree, p: Path) {
    forall q :: q in tree && q != [] ==> Parent(q) != p
  }

  /** What another process does: puts a new entry into a directory, or takes away a file or an empty
      directory. */
  datatype Act = Nothing | Put(path: Path, node: Node) | Take(path: Path)

  datatype Turn = Turn(act: Act, fault: Fault)

  function Acted(tree: Tree, a: Act): Tree {
    match a
    case Nothing => tree
    case Put(p, n) =>
      if p != [] && p !in tree && Parent(p) in tree && tree[Parent(p)].directory then tree[p := n] else tree
    case Take(p) => if p in tree && Empty(tree, p) then tree - {p} else tree
  }

  /** `tree` is `before` with the directories `created` added one after the other. */
  ghost predicate Built(before: Tree, created: seq<Path>, tree: Tree)
    decreases |created|
  {
    if created == [] then tree == before
    else
      var last := created[|created| - 1];
      && last in tree && last != [] && tree[last].directory && Rooted(tree - {last})
      && Built(before, created[..|created| - 1], tree - {last})
  }

  lemma BuiltMore(before: Tree, created: seq<Path>, tree: Tree, p: Path, node: Node)
    requires Built(before, created, tree) && Rooted(tree) && p !in tree && p != [] && node.directory
    ensures Built(before, created + [p], tree[p := node])
  {
    assert (created + [p])[..|created|] == created;
    assert tree[p := node] - {p} == tree;
  }

  /** What was created last is still empty. */
  lemma LastIsEmpty(tree: Tree, last: Path)
    requires Rooted(tree - {last})
    ensures Empty(tree, last)
  {
    forall q | q in tree && q != [] ensures Parent(q) != last {
      if q != last {
        assert q in tree - {last};
      }
    }
  }

  /** `tree` is `base` with these files added in the directory `root`. */
  ghost predicate With(base: Tree, root: Path, files: set<Path>, tree: Tree) {
    && tree.Keys == base.Keys + files && files !! base.Keys
    && (forall p :: p in base ==> tree[p] == base[p])
    && (forall f :: f in files ==> f != [] && Parent(f) == root && !tree[f].directory)
  }

  /** Wherever the way to `target` exists it is a directory, and it begins somewhere. */
  ghost predicate Way(tree: Tree, target: Path) {
    [] in tree && forall n :: 0 <= n <= |target| && target[..n] in tree ==> tree[target[..n]].directory
  }

  lemma WayStays(tree: Tree, target: Path, p: Path, node: Node)
    requires Way(tree, target) && node.directory
    ensures Way(tree[p := node], target)
  {
  }

  /** Every one of these directories holds something. */
  ghost predicate AllHold(tree: Tree, created: seq<Path>) {
    forall p :: p in created ==> !Empty(tree, p)
  }

  lemma {:induction false} PrefixesAreThere(tree: Tree, root: Path, n: nat)
    requires Rooted(tree) && root in tree && n <= |root|
    ensures root[..n] in tree
    decreases |root| - n
  {
    if n == |root| {
      assert root[..n] == root;
    } else {
      PrefixesAreThere(tree, root, n + 1);
      assert root[..n + 1][..n] == root[..n];
    }
  }

  /** A file in the last directory of a chain keeps the whole chain from being removed. */
  lemma FileHoldsChain(tree: Tree, root: Path, created: seq<Path>, file: Path)
    requires Rooted(tree) && root in tree && file in tree && file != [] && Parent(file) == root
    requires forall p :: p in created ==> p <= root
    ensures AllHold(tree, created)
  {
    forall p | p in created ensures !Empty(tree, p) {
      if p == root {
        assert Parent(file) == p;
      } else {
        PrefixesAreThere(tree, root, |p| + 1);
        assert Parent(root[..|p| + 1]) == p;
      }
    }
  }

  lemma BuiltLast(before: Tree, created: seq<Path>, i: nat, tree: Tree)
    requires i < |created| && Built(before, created[..i + 1], tree)
    ensures var p := created[i];
            p in tree && tree[p].directory && Empty(tree, p) && Built(before, created[..i], tree - {p})
  {
    assert created[..i + 1][..i] == created[..i];
    LastIsEmpty(tree, created[i]);
  }

  lemma BuiltNone(before: Tree, tree: Tree)
    ensures Built(before, [], tree) <==> tree == before
  {
  }

  class Directories {
    var tree: Tree
    var turns: seq<Turn>
    var next: nat
    ghost var quiet: bool                  // nobody else has acted
    ghost var taken: set<Path>             // what others have removed
    ghost var removed: set<(Path, Node)>   // what we have removed

    constructor (tree: Tree, turns: seq<Turn>, next: nat)
      requires Rooted(tree)
      ensures this.tree == tree && this.turns == turns && quiet && taken == {} && removed == {}
    {
      this.tree, this.turns, this.next := tree, turns, next;
      quiet, taken, removed := true, {}, {};
    }

    /** Whatever was there before and was not removed by others is still there. */
    ghost predicate Keeps(before: Tree)
      reads this
    {
      Rooted(tree) && forall p :: p in before && p !in taken ==> p in tree && tree[p] == before[p]
    }

    /** We have created these, none of which was there; if nobody else acted that is all there is. */
    ghost predicate Tracks(before: Tree, created: seq<Path>)
      reads this
    {
      && Keeps(before)
      && (forall p :: p in created ==> p in before ==> p in taken)
      && (quiet ==> Built(before, created, tree))
    }

    /** The others act before every system call; then it may fail or never return. */
    method Pause(ghost before: Tree) returns (fault: Fault)
      requires Keeps(before)
      modifies this
      ensures Keeps(before) && removed == old(removed) && old(taken) <= taken
      ensures quiet ==> old(quiet) && tree == old(tree)
      ensures old(turns) == [] ==> turns == [] && fault == NoFault && quiet == old(quiet) && tree == old(tree)
    {
      fault := NoFault;
      if turns != [] {
        var turn := turns[0];
        turns := turns[1..];
        fault := turn.fault;
        if turn.act.Take? && turn.act.path in tree && Empty(tree, turn.act.path) {
          taken := taken + {turn.act.path};
        }
        quiet := quiet && turn.act.Nothing?;
        ActedRooted(tree, turn.act);
        tree := Acted(tree, turn.act);
      }
    }

    method Lstat(p: Path, ghost before: Tree) returns (r: Outcome<Option<Node>>)
      requires Keeps(before)
      modifies this
      ensures Keeps(before) && removed == old(removed) && old(taken) <= taken
      ensures quiet ==> old(quiet) && tree == old(tree)
      ensures r.Done? ==> r.value == if p in tree then Some(tree[p]) else None
      ensures old(turns) == [] ==> turns == [] && r.Done? && quiet == old(quiet) && tree == old(tree)
    {
      var fault := Pause(before);
      r := if fault.Crash? then Crashed else if fault.Error? then Failed
           else Done(if p in tree then Some(tree[p]) else None);
    }

    /** Done(false): the name exists. */
    method Mkdir(p: Path, ghost before: Tree) returns (r: Outcome<bool>)
      requires Keeps(before) && p != []
      modifies this
      ensures Keeps(before) && removed == old(removed) && old(taken) <= taken
      ensures r == Done(true) ==>
                && p in tree && tree[p].directory && (p in before ==> p in taken)
                && (quiet ==> old(quiet) && p !in old(tree) && tree == old(tree)[p := tree[p]])
      ensures r != Done(true) && quiet ==> old(quiet) && tree == old(tree)
      ensures old(turns) == [] ==> turns == [] && quiet == old(quiet)
      ensures old(turns) == [] && p !in old(tree) && Parent(p) in old(tree) && old(tree)[Parent(p)].directory ==>
                r == Done(true)
      ensures old(turns) == [] && p in old(tree) ==> r == Done(false)
    {
      var fault := Pause(before);
      if fault.Crash? {
        return Crashed;
      }
      if fault.Error? || (p !in tree && !(Parent(p) in tree && tree[Parent(p)].directory)) {
        return Failed;
      }
      if p in tree {
        return Done(false);
      }
      tree := tree[p := Node(true, next)];
      next := next + 1;
      return Done(true);
    }

    /** Removes an empty directory. */
    method Rmdir(p: Path, ghost before: Tree) returns (r: Outcome<()>, ghost fault: Fault)
      requires Keeps(before) && (p in before ==> p in taken)
      modifies this
      ensures Keeps(before) && old(taken) <= taken && old(removed) <= removed
      ensures forall e :: e in removed && e !in old(removed) ==> e.0 == p && e.1.directory
      ensures quiet ==>
                && old(quiet)
                && (r.Done? <==> !fault.Crash? && !fault.Error? && p in old(tree) && old(tree)[p].directory
                                 && Empty(old(tree), p))
                && tree == if r.Done? then old(tree) - {p} else old(tree)
      ensures r.Crashed? <==> fault.Crash?
      ensures old(turns) == [] ==> turns == [] && fault == NoFault && quiet == old(quiet)
    {
      var f := Pause(before);
      fault := f;
      if f.Crash? {
        return Crashed, fault;
      }
      if f.Error? || p !in tree || !tree[p].directory || !Empty(tree, p) {
        return Failed, fault;
      }
      removed := removed + {(p, tree[p])};
      tree := tree - {p};
      return Done(()), fault;
    }

    /** A call that touches no name: reading, securing, locking, writing. It fails if `goesWell` is not so. */
    method Call(goesWell: bool, ghost before: Tree) returns (r: Outcome<()>)
      requires Keeps(before)
      modifies this
      ensures Keeps(before) && removed == old(removed) && old(taken) <= taken
      ensures quiet ==> old(quiet) && tree == old(tree)
      ensures !goesWell ==> !r.Done?
      ensures old(turns) == [] ==>
                turns == [] && quiet == old(quiet) && tree == old(tree) && r == if goesWell then Done(()) else Failed
    {
      var fault := Pause(before);
      r := if fault.Crash? then Crashed else if fault.Error? || !goesWell then Failed else Done(());
    }

    /** Creates a file. Done(false): the name exists. */
    method Create(p: Path, ghost before: Tree) returns (r: Outcome<bool>)
      requires Keeps(before) && p != []
      modifies this
      ensures Keeps(before) && removed == old(removed) && old(taken) <= taken
      ensures r == Done(true) ==>
                && p in tree && !tree[p].directory && (p in before ==> p in taken)
                && (quiet ==> old(quiet) && p !in old(tree) && tree == old(tree)[p := tree[p]])
      ensures r != Done(true) && quiet ==> old(quiet) && tree == old(tree)
      ensures r == Done(false) ==> p in tree
      ensures old(turns) == [] ==> turns == [] && quiet == old(quiet) && !r.Crashed?
      ensures old(turns) == [] && p in old(tree) ==> r == Done(false)
      ensures old(turns) == [] && p !in old(tree) && Parent(p) in old(tree) && old(tree)[Parent(p)].directory ==>
                r == Done(true)
    {
      var fault := Pause(before);
      if fault.Crash? {
        return Crashed;
      }
      if fault.Error? || (p !in tree && !(Parent(p) in tree && tree[Parent(p)].directory)) {
        return Failed;
      }
      if p in tree {
        return Done(false);
      }
      tree := tree[p := Node(false, next)];
      next := next + 1;
      return Done(true);
    }

    /** Gives a file a second name. Done(false): the name exists. `links`: the file system can. */
    method Link(from: Path, to: Path, links: bool, ghost before: Tree) returns (r: Outcome<bool>)
      requires Keeps(before) && to != []
      modifies this
      ensures Keeps(before) && removed == old(removed) && old(taken) <= taken
      ensures r == Done(true) ==>
                && to in tree && !tree[to].directory && (to in before ==> to in taken)
                && (quiet ==> old(quiet) && to !in old(tree) && tree == old(tree)[to := tree[to]])
      ensures r != Done(true) && quiet ==> old(quiet) && tree == old(tree)
      ensures !links ==> !r.Done?
      ensures old(turns) == [] ==> turns == [] && quiet == old(quiet) && !r.Crashed?
      ensures old(turns) == [] && links && from in old(tree) && !old(tree)[from].directory
              && Parent(to) in old(tree) && old(tree)[Parent(to)].directory ==>
                r == Done(to !in old(tree))
    {
      var fault := Pause(before);
      if fault.Crash? {
        return Crashed;
      }
      if fault.Error? || !links || from !in tree || tree[from].directory
         || (to !in tree && !(Parent(to) in tree && tree[Parent(to)].directory)) {
        return Failed;
      }
      if to in tree {
        return Done(false);
      }
      tree := tree[to := tree[from]];
      return Done(true);
    }

    /** Removes a name that is no directory's. */
    method Unlink(p: Path, ghost before: Tree) returns (r: Outcome<()>, ghost fault: Fault)
      requires Keeps(before) && (p in before ==> p in taken)
      modifies this
      ensures Keeps(before) && old(taken) <= taken && old(removed) <= removed
      ensures forall e :: e in removed && e !in old(removed) ==> e.0 == p && !e.1.directory
      ensures quiet ==>
                && old(quiet)
                && (r.Done? <==> !fault.Crash? && !fault.Error? && p in old(tree) && !old(tree)[p].directory)
                && tree == if r.Done? then old(tree) - {p} else old(tree)
      ensures r.Crashed? <==> fault.Crash?
      ensures old(turns) == [] ==> turns == [] && fault == NoFault && quiet == old(quiet)
    {
      var f := Pause(before);
      fault := f;
      if f.Crash? {
        return Crashed, fault;
      }
      if f.Error? || p !in tree || tree[p].directory {
        return Failed, fault;
      }
      assert Empty(tree, p);
      removed := removed + {(p, tree[p])};
      tree := tree - {p};
      return Done(()), fault;
    }

    /** `_ensure_directory_component`. */
    method EnsureComponent(p: Path, secureExisting: bool, created: seq<Path>, ghost before: Tree)
      returns (r: Outcome<()>, created': seq<Path>)
      requires Tracks(before, created) && p != []
      modifies this
      ensures Tracks(before, created') && removed == old(removed) && created <= created'
      ensures r.Done? && quiet ==> p in tree && tree[p].directory
      ensures created' == created || created' == created + [p]
      ensures old(turns) == [] ==> turns == [] && quiet == old(quiet)
      ensures old(turns) == [] && p !in old(tree) && Parent(p) in old(tree) && old(tree)[Parent(p)].directory ==>
                r.Done? && created' == created + [p]
      ensures old(turns) == [] && old(quiet) && p in old(tree) && old(tree)[p].directory ==>
                r.Done? && tree == old(tree)
      ensures old(turns) == [] && old(quiet) && p !in old(tree) ==>
                tree == old(tree) || (p in tree && tree[p].directory && tree == old(tree)[p := tree[p]])
    {
      created' := created;
      var made := Mkdir(p, before);
      if !made.Done? {
        r := if made.Crashed? then Crashed else Failed;
        return;
      }
      if made.value {
        if quiet {
          BuiltMore(before, created, old(tree), p, tree[p]);
        }
        created' := created + [p];
      }
      var found := Lstat(p, before);
      if !found.Done? || found.value.None? || !found.value.value.directory {
        r := if found.Crashed? then Crashed else Failed;
        return;
      }
      if made.value || secureExisting {
        var fault := Pause(before);
        if fault.Crash? || fault.Error? {
          r := if fault.Crash? then Crashed else Failed;
          return;
        }
      }
      var again := Lstat(p, before);
      if again == Done(found.value) {
        r := Done(());
      } else {
        r := if again.Crashed? then Crashed else Failed;
      }
    }

    /** One more directory on the way to `target`. */
    method NextOnWay(ghost target: Path, p: Path, secureExisting: bool, created: seq<Path>, ghost before: Tree)
      returns (r: Outcome<()>, created': seq<Path>)
      requires Tracks(before, created) && p != [] && |p| <= |target| && p == target[..|p|]
      requires quiet ==> Parent(p) in tree && tree[Parent(p)].directory
      modifies this
      ensures Tracks(before, created') && removed == old(removed) && created <= created'
      ensures r.Done? && quiet ==> p in tree && tree[p].directory
      ensures created' == created || created' == created + [p]
      ensures old(turns) == [] ==> turns == [] && quiet == old(quiet)
      ensures old(turns) == [] && p !in old(tree) && Parent(p) in old(tree) && old(tree)[Parent(p)].directory ==>
                r.Done? && created' == created + [p]
      ensures old(turns) == [] && old(quiet) && Way(old(tree), target) ==> r.Done? && Way(tree, target)
    {
      hide Built, Rooted;
      ghost var was := tree;
      r, created' := EnsureComponent(p, secureExisting, created, before);
      if tree != was && p in tree && tree[p].directory && Way(was, target) {
        WayStays(was, target, p, tree[p]);
      }
    }

    /** `_ensure_directory_chain`: climbs to the deepest existing ancestor ... */
    method EnsureChain(target: Path, ghost way: Path, created: seq<Path>, ghost before: Tree)
      returns (r: Outcome<()>, created': seq<Path>)
      requires Tracks(before, created) && target <= way
      modifies this
      ensures Tracks(before, created') && removed == old(removed) && created <= created'
      ensures r.Done? && quiet ==> target in tree && tree[target].directory
      ensures forall p :: p in created' ==> p in created || p <= target
      ensures old(turns) == [] ==> turns == [] && quiet == old(quiet)
      ensures old(turns) == [] && target in old(tree) && old(tree)[target].directory && quiet ==>
                r.Done? && created' == created && tree == old(tree)
      ensures old(turns) == [] && old(quiet) && Way(old(tree), way) ==> r.Done? && Way(tree, way)
    {
      hide Built, Rooted;
      created' := created;
      var missing: seq<string>, ancestor := [], target;
      var found := Lstat(ancestor, before);
      assert target[..|target|] == target == way[..|target|];
      while found.Done? && found.value.None? && ancestor != []
        invariant Tracks(before, created) && removed == old(removed)
        invariant |ancestor| + |missing| == |target| && ancestor == target[..|ancestor|] == way[..|ancestor|]
        invariant old(turns) == [] ==> found == Done(if ancestor in old(tree) then Some(old(tree)[ancestor]) else None)
        invariant forall i :: 0 <= i < |missing| ==> missing[i] == target[|target| - 1 - i]
        invariant old(turns) == [] ==> turns == [] && found.Done? && quiet == old(quiet) && tree == old(tree)
        invariant old(turns) == [] && target in old(tree) ==> missing == [] && found == Done(Some(old(tree)[target]))
        decreases |ancestor|
      {
        missing := missing + [ancestor[|ancestor| - 1]];
        ancestor := Parent(ancestor);
        assert ancestor == target[..|ancestor|] == way[..|ancestor|];
        found := Lstat(ancestor, before);
      }
      if found.Done? && found.value.Some? {
        found := Lstat(ancestor, before);                  // must be a directory
      }
      if !found.Done? || found.value.None? || !found.value.value.directory {
        r := if found.Crashed? then Crashed else Failed;
        return;
      }
      r, created' := CreateMissing(target, way, ancestor, missing, created, before);
    }

    /** ... and creates what is missing below it, from the top down. */
    method CreateMissing(target: Path, ghost way: Path, ancestor: Path, missing: seq<string>, created: seq<Path>, ghost before: Tree)
      returns (r: Outcome<()>, created': seq<Path>)
      requires Tracks(before, created) && target <= way
      requires |ancestor| + |missing| == |target| && ancestor == target[..|ancestor|]
      requires forall i :: 0 <= i < |missing| ==> missing[i] == target[|target| - 1 - i]
      requires quiet ==> ancestor in tree && tree[ancestor].directory
      modifies this
      ensures Tracks(before, created') && removed == old(removed) && created <= created'
      ensures r.Done? && quiet ==> target in tree && tree[target].directory
      ensures forall p :: p in created' ==> p in created || p <= target
      ensures old(turns) == [] ==> turns == [] && quiet == old(quiet)
      ensures missing == [] ==> r.Done? && created' == created && tree == old(tree)
      ensures old(turns) == [] && old(quiet) && Way(old(tree), way) ==> r.Done? && Way(tree, way)
    {
      hide Built, Rooted, Way;
      r, created' := Done(()), created;
      var current, i := ancestor, |missing|;
      while i > 0 && r.Done?
        invariant 0 <= i <= |missing|
        invariant Tracks(before, created') && removed == old(removed) && created <= created'
        invariant r.Done? ==> |current| + i == |target| && current == target[..|current|]
        invariant r.Done? && quiet ==> current in tree && tree[current].directory
        invariant forall p :: p in created' ==> p in created || p <= target
        invariant old(turns) == [] ==> turns == [] && quiet == old(quiet)
        invariant missing == [] ==> r.Done? && created' == created && tree == old(tree)
        invariant old(turns) == [] && old(quiet) && Way(old(tree), way) ==> r.Done? && Way(tree, way)
        decreases i
      {
        i := i - 1;
        current := current + [missing[i]];
        assert current == target[..|current|] == way[..|current|];
        r, created' := NextOnWay(way, current, false, created', before);
      }
      assert target[..|target|] == target;
    }

    /** `_rollback_created_directories`: from the last to the first, whatever fails. It removes nothing but
        empty directories at names this attempt created. Left alone and without a fault it takes back the
        directories if they are all that was added, and nothing at all if each of them holds something. */
    method Rollback(created: seq<Path>, ghost before: Tree) returns (ghost clean: bool)
      requires Keeps(before)
      requires forall p :: p in created ==> p in before ==> p in taken
      modifies this
      ensures Keeps(before) && old(removed) <= removed && old(taken) <= taken
      ensures forall e :: e in removed && e !in old(removed) ==> e.0 in created && e.1.directory
      ensures quiet ==> old(quiet)
      ensures quiet && clean && Built(before, created, old(tree)) ==> tree == before
      ensures quiet && clean && AllHold(old(tree), created) ==> tree == old(tree)
      ensures old(turns) == [] ==> clean && quiet == old(quiet)
    {
      hide Built, Empty, Rooted;
      clean := true;
      var i := |created|;
      assert created[..i] == created;
      while i > 0
        invariant 0 <= i <= |created|
        invariant Keeps(before) && old(removed) <= removed && old(taken) <= taken
        invariant forall e :: e in removed && e !in old(removed) ==> e.0 in created && e.1.directory
        invariant quiet ==> old(quiet)
        invariant quiet && clean && Built(before, created, old(tree)) ==> Built(before, created[..i], tree)
        invariant quiet && clean && AllHold(old(tree), created) ==> tree == old(tree)
        invariant old(turns) == [] ==> turns == [] && clean && quiet == old(quiet)
      {
        i := i - 1;
        var p := created[i];
        if quiet && clean && Built(before, created, old(tree)) {
          BuiltLast(before, created, i, tree);
        }
        var r, fault := Rmdir(p, before);
        clean := clean && !fault.Crash? && !fault.Error?;
        if r.Crashed? {
          return;
        }
      }
      if quiet && clean && Built(before, created, old(tree)) {
        assert created[..0] == [];
        BuiltNone(before, tree);
      }
    }

    /** The directories of ToolHub's own below `parent`, each inside the one before. */
    method SecureComponents(parent: Path, names: seq<string>, created: seq<Path>, ghost before: Tree)
      returns (r: Outcome<()>, created': seq<Path>)
      requires Tracks(before, created)
      requires quiet ==> parent in tree && tree[parent].directory
      modifies this
      ensures Tracks(before, created') && removed == old(removed) && created <= created'
      ensures r.Done? && quiet ==> parent + names in tree && tree[parent + names].directory
      ensures forall p :: p in created' ==> p in created || p <= parent + names
      ensures old(turns) == [] ==> turns == [] && quiet == old(quiet)
      ensures old(turns) == [] && quiet && |names| == 1 && parent + names !in old(tree) ==>
                r.Done? && created' == created + [parent + names]
      ensures old(turns) == [] && old(quiet) && Way(old(tree), parent + names) ==> r.Done? && Way(tree, parent + names)
    {
      hide Built, Rooted, Way;
      r, created' := Done(()), created;
      var i := 0;
      assert parent + names[..0] == parent;
      while i < |names| && r.Done?
        invariant 0 <= i <= |names|
        invariant Tracks(before, created') && removed == old(removed) && created <= created'
        invariant r.Done? && quiet ==> parent + names[..i] in tree && tree[parent + names[..i]].directory
        invariant forall p :: p in created' ==> p in created || p <= parent + names
        invariant old(turns) == [] ==> turns == [] && quiet == old(quiet)
        invariant i == 0 ==> tree == old(tree) && created' == created && r.Done?
        invariant old(turns) == [] && quiet && |names| == 1 && parent + names !in old(tree) && i == 1 ==>
                    r.Done? && created' == created + [parent + names]
        invariant old(turns) == [] && old(quiet) && Way(old(tree), parent + names) ==>
                    r.Done? && Way(tree, parent + names)
      {
        assert parent + names[..i + 1] <= parent + names;
        assert Parent(parent + names[..i + 1]) == parent + names[..i];
        assert |names| == 1 ==> names[..i + 1] == names;
        r, created' := NextOnWay(parent + names, parent + names[..i + 1], true, created', before);
        i := i + 1;
      }
      assert r.Done? ==> names[..i] == names;
    }
  }

  lemma ActedRooted(tree: Tree, a: Act)
    requires Rooted(tree)
    ensures Rooted(Acted(tree, a))
  {
  }
}
