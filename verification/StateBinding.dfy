/** Preparing a state root: its directories, the files of the binding step inside them, and what a refusal
    takes back and leaves. */
module StateBinding {
  import opened Results
  import opened FileSystem
  import opened StateDirectories

  const MANIFEST := "workspace-binding.json"
  const LOCK := "workspace-binding.json.lock"

  function TemporaryName(token: string): string {
    "." + MANIFEST + "-" + token + ".tmp"
  }

  /** What the checks find that are not modelled further: the two inspections of the state directory,
      whether the file system has hard links, and whether the manifest is readable and ours. */
  datatype Findings = Findings(first: bool, second: bool, links: bool, manifest: bool)

  /** What a lone process needs to be let in: a clean inspection twice, a readable manifest of its own, and
      hard links if there is no manifest yet. */
  predicate Granted(finds: Findings, root: Path, base: Tree) {
    finds.first && finds.second && finds.manifest && (finds.links || ManifestPath(root) in base)
  }

  lemma FileAdded(base: Tree, root: Path, files: set<Path>, tree: Tree, p: Path, node: Node)
    requires With(base, root, files, tree) && p !in tree && p != [] && Parent(p) == root && !node.directory
    ensures With(base, root, files + {p}, tree[p := node]) && p !in base && p !in files
  {
  }

  lemma FileRemoved(base: Tree, root: Path, files: set<Path>, tree: Tree, p: Path)
    requires With(base, root, files, tree) && p in files
    ensures With(base, root, files - {p}, tree - {p})
  {
  }

  /** The directory itself is there. */
  predicate Opened(base: Tree, root: Path) {
    root in base && base[root].directory
  }

  lemma FileIsThere(base: Tree, root: Path, files: set<Path>, tree: Tree, p: Path)
    requires With(base, root, files, tree) && p in files && Opened(base, root)
    ensures p in tree && !tree[p].directory && Opened(tree, root)
  {
  }

  /** We work in `root`, found the tree as `base`, and have added `files`; none of them was there
      `before` we began at all, unless others took it away. */
  ghost predicate Holding(d: Directories, before: Tree, base: Tree, root: Path, files: set<Path>)
    reads d
  {
    && d.Keeps(before)
    && (forall f :: f in files ==> f in before ==> f in d.taken)
    && (d.quiet ==> With(base, root, files, d.tree))
  }

  lemma RootIsOpen(d: Directories, before: Tree, base: Tree, root: Path, files: set<Path>)
    requires Holding(d, before, base, root, files)
    ensures d.quiet && Opened(base, root) ==> Opened(d.tree, root)
  {
  }

  method CreateFile(d: Directories, p: Path, ghost before: Tree, ghost base: Tree, ghost root: Path,
                    ghost files: set<Path>)
    returns (r: Outcome<bool>, ghost files': set<Path>)
    requires Holding(d, before, base, root, files) && p != [] && Parent(p) == root
    modifies d
    ensures Holding(d, before, base, root, files') && d.removed == old(d.removed) && old(d.taken) <= d.taken
    ensures d.quiet ==> old(d.quiet)
    ensures files' == if r == Done(true) then files + {p} else files
    ensures d.quiet && r.Done? ==> (r.value <==> p !in old(d.tree))
    ensures d.quiet ==> d.tree.Keys == old(d.tree).Keys + if r == Done(true) then {p} else {}
    ensures old(d.turns) == [] && p in old(d.tree) ==> r == Done(false)
    ensures d.quiet && r == Done(true) ==> p !in base && p !in files
    ensures old(d.turns) == [] ==> d.turns == [] && d.quiet == old(d.quiet) && !r.Crashed?
    ensures old(d.turns) == [] && p !in old(d.tree) && Opened(old(d.tree), root) ==>
              r == Done(true)
  {
    hide With, Rooted;
    r := d.Create(p, before);
    files' := files;
    if r == Done(true) {
      files' := files + {p};
      if d.quiet {
        FileAdded(base, root, files, old(d.tree), p, d.tree[p]);
      }
    }
  }

  method LinkFile(d: Directories, from: Path, to: Path, links: bool, ghost before: Tree, ghost base: Tree,
                  ghost root: Path, ghost files: set<Path>)
    returns (r: Outcome<bool>, ghost files': set<Path>)
    requires Holding(d, before, base, root, files) && to != [] && Parent(to) == root
    modifies d
    ensures Holding(d, before, base, root, files') && d.removed == old(d.removed) && old(d.taken) <= d.taken
    ensures d.quiet ==> old(d.quiet)
    ensures files' == if r == Done(true) then files + {to} else files
    ensures d.quiet && r == Done(true) ==> to !in base && to !in files
    ensures !links ==> !r.Done?
    ensures old(d.turns) == [] ==> d.turns == [] && d.quiet == old(d.quiet) && !r.Crashed?
    ensures old(d.turns) == [] && links && old(d.quiet) && from in files && Opened(base, root) ==>
              r == Done(to !in old(d.tree))
  {
    if d.quiet && from in files && Opened(base, root) {
      FileIsThere(base, root, files, d.tree, from);
    }
    hide With, Rooted;
    r := d.Link(from, to, links, before);
    files' := files;
    if r == Done(true) {
      files' := files + {to};
      if d.quiet {
        FileAdded(base, root, files, old(d.tree), to, d.tree[to]);
      }
    }
  }

  /** Best effort; `clean` says that no fault came in between. */
  method UnlinkFile(d: Directories, p: Path, ghost before: Tree, ghost base: Tree, ghost root: Path, ghost files: set<Path>)
    returns (r: Outcome<()>, ghost files': set<Path>, ghost clean: bool)
    requires Holding(d, before, base, root, files) && p in files
    modifies d
    ensures Holding(d, before, base, root, files') && old(d.removed) <= d.removed && old(d.taken) <= d.taken
    ensures d.quiet ==> old(d.quiet)
    ensures forall e :: e in d.removed && e !in old(d.removed) ==> e.0 == p && !e.1.directory && (p in before ==> p in d.taken)
    ensures files' == files || files' == files - {p}
    ensures clean && d.quiet ==> files' == files - {p}
    ensures r.Crashed? ==> !clean
    ensures old(d.turns) == [] ==> d.turns == [] && d.quiet == old(d.quiet) && clean && !r.Crashed?
  {
    hide Rooted;
    ghost var fault;
    r, fault := d.Unlink(p, before);
    clean := !fault.Crash? && !fault.Error?;
    files' := files;
    if r.Done? {
      files' := files - {p};
      if d.quiet {
        FileRemoved(base, root, files, old(d.tree), p);
      }
    }
  }

  /** The three files of the binding step. */
  function LockPath(root: Path): Path { root + [LOCK] }
  function ManifestPath(root: Path): Path { root + [MANIFEST] }
  function TemporaryPath(root: Path, token: string): Path { root + [TemporaryName(token)] }

  lemma PathsDiffer(root: Path, token: string)
    ensures LockPath(root) != ManifestPath(root)
    ensures TemporaryPath(root, token) != LockPath(root) && TemporaryPath(root, token) != ManifestPath(root)
    ensures LockPath(root) != [] && ManifestPath(root) != [] && TemporaryPath(root, token) != []
    ensures Parent(LockPath(root)) == Parent(ManifestPath(root)) == Parent(TemporaryPath(root, token)) == root
  {
    assert LockPath(root)[|root|] == LOCK && ManifestPath(root)[|root|] == MANIFEST;
    assert TemporaryPath(root, token)[|root|] == TemporaryName(token);
    assert TemporaryName(token)[0] == '.' && LOCK[0] == 'w' && MANIFEST[0] == 'w' && |LOCK| != |MANIFEST|;
  }

  /** A call that touches no name, while we hold these files. */
  method CallHeld(d: Directories, goesWell: bool, ghost before: Tree, ghost base: Tree, ghost root: Path,
                  ghost files: set<Path>)
    returns (r: Outcome<()>)
    requires Holding(d, before, base, root, files)
    modifies d
    ensures Holding(d, before, base, root, files) && d.removed == old(d.removed) && old(d.taken) <= d.taken
    ensures d.quiet ==> old(d.quiet) && d.tree == old(d.tree)
    ensures !goesWell ==> !r.Done?
    ensures old(d.turns) == [] ==>
              d.turns == [] && d.quiet == old(d.quiet) && d.tree == old(d.tree) && r == if goesWell then Done(()) else Failed
  {
    hide With, Rooted;
    r := d.Call(goesWell, before);
  }

  /** Secures and writes the temporary file, and links it. */
  method WriteAndLink(d: Directories, root: Path, temporary: Path, links: bool, ghost before: Tree, ghost base: Tree,
                      ghost files: set<Path>)
    returns (r: Outcome<()>, ghost files': set<Path>, ghost linked: bool)
    requires Holding(d, before, base, root, files)
    modifies d
    ensures Holding(d, before, base, root, files') && d.removed == old(d.removed) && old(d.taken) <= d.taken
    ensures d.quiet ==> old(d.quiet)
    ensures files' == files + if linked then {ManifestPath(root)} else {}
    ensures d.quiet && linked ==> ManifestPath(root) !in files
    ensures linked ==> r.Done?
    ensures !links ==> !r.Done?
    ensures old(d.turns) == [] ==> d.turns == [] && d.quiet == old(d.quiet) && !r.Crashed?
    ensures old(d.turns) == [] && links && old(d.quiet) && temporary in files && Opened(base, root) ==>
              r == Done(()) && (linked <==> ManifestPath(root) !in old(d.tree))
  {
    hide With, Rooted, Parent, Opened, Holding;
    PathsDiffer(root, "");
    hide ManifestPath, LockPath, TemporaryPath;
    files', linked := files, false;
    r := CallHeld(d, true, before, base, root, files);                             // fchmod
    if r.Done? {
      r := CallHeld(d, true, before, base, root, files);                           // write, fsync, close
    }
    if r.Done? {
      var l;
      l, files' := LinkFile(d, temporary, ManifestPath(root), links, before, base, root, files');
      linked := l == Done(true);
      r := if l.Crashed? then Crashed else if l.Failed? then Failed else Done(());
    }
  }

  lemma BackAgain(files: set<Path>, temporary: Path, manifest: Path, linked: bool)
    requires temporary !in files && temporary != manifest
    ensures files + {temporary} + (if linked then {manifest} else {}) - {temporary}
            == files + if linked then {manifest} else {}
  {
  }

  /** `_publish_binding_manifest` as far as names go; `linked`: the manifest is there because of it. */
  method PublishManifest(d: Directories, root: Path, token: string, links: bool, ghost before: Tree, ghost base: Tree,
                         ghost files: set<Path>)
    returns (r: Outcome<()>, ghost files': set<Path>, ghost linked: bool, ghost clean: bool)
    requires Holding(d, before, base, root, files)
    modifies d
    ensures Holding(d, before, base, root, files') && old(d.removed) <= d.removed && old(d.taken) <= d.taken
    ensures d.quiet ==> old(d.quiet)
    ensures forall e :: e in d.removed && e !in old(d.removed) ==>
              e.0 == TemporaryPath(root, token) && !e.1.directory && (e.0 in before ==> e.0 in d.taken)
    ensures files <= files' + {TemporaryPath(root, token)}
    ensures d.quiet && clean ==> files' == files + if linked then {ManifestPath(root)} else {}
    ensures r.Crashed? ==> !clean
    ensures !links ==> !r.Done? && !linked
    ensures old(d.turns) == [] ==> d.turns == [] && d.quiet == old(d.quiet) && !r.Crashed? && clean
    ensures old(d.turns) == [] && links && old(d.quiet) && Opened(base, root)
            && TemporaryPath(root, token) !in old(d.tree) ==>
              r == Done(()) && (linked <==> ManifestPath(root) !in old(d.tree))
  {
    RootIsOpen(d, before, base, root, files);
    hide With, Rooted, Parent, Opened, Holding;
    var temporary := TemporaryPath(root, token);
    PathsDiffer(root, token);
    hide TemporaryPath, ManifestPath;
    linked, clean := false, true;
    var made;
    made, files' := CreateFile(d, temporary, before, base, root, files);
    if made != Done(true) {
      r := if made.Crashed? then Crashed else Failed;
      clean := !made.Crashed?;
      return;
    }
    r, files', linked := WriteAndLink(d, root, temporary, links, before, base, files');
    if r.Crashed? {
      clean := false;
      return;
    }
    if d.quiet {
      BackAgain(files, temporary, ManifestPath(root), linked);
    }
    var u;
    u, files', clean := UnlinkFile(d, temporary, before, base, root, files');
    if u.Crashed? {
      r := Crashed;
    }
  }

  /** The inspection, the lock file, the lock, and the inspection under it. `reached`: it got as far as
      the lock file, which nothing removes. */
  method TakeLock(d: Directories, root: Path, finds: Findings, ghost before: Tree, ghost base: Tree)
    returns (r: Outcome<()>, ghost files: set<Path>, ghost reached: bool)
    requires Holding(d, before, base, root, {}) && (d.quiet ==> d.tree == base)
    modifies d
    ensures Holding(d, before, base, root, files) && d.removed == old(d.removed) && old(d.taken) <= d.taken
    ensures d.quiet ==> old(d.quiet) && d.tree.Keys == base.Keys + files
    ensures d.quiet ==> files == if reached && LockPath(root) !in base then {LockPath(root)} else {}
    ensures !reached ==> files == {} && !r.Done?
    ensures old(d.turns) == [] ==> d.turns == [] && d.quiet == old(d.quiet) && !r.Crashed?
    ensures old(d.turns) == [] && finds.first && Opened(old(d.tree), root) ==>
              reached && (finds.second ==> r == Done(()))
    ensures !finds.first || !finds.second ==> !r.Done?
  {
    hide Parent, With, Rooted, Opened, Holding;
    files, reached := {}, false;
    PathsDiffer(root, "");
    hide LockPath, ManifestPath, TemporaryPath;
    r := CallHeld(d, finds.first, before, base, root, {});
    if !r.Done? {
      return;
    }
    var made;
    made, files := CreateFile(d, LockPath(root), before, base, root, {});
    if !made.Done? {
      r := if made.Crashed? then Crashed else Failed;
      return;
    }
    reached := true;
    r := CallHeld(d, true, before, base, root, files);                             // fchmod
    if r.Done? {
      r := CallHeld(d, true, before, base, root, files);                           // flock
    }
    if r.Done? {
      r := CallHeld(d, finds.second, before, base, root, files);
    }
  }

  /** `_bind_state_namespace`, with the inspection that comes before it. */
  method BindNamespace(d: Directories, root: Path, token: string, finds: Findings, ghost before: Tree, ghost base: Tree)
    returns (r: Outcome<()>, ghost files: set<Path>, ghost reached: bool, ghost linked: bool, ghost clean: bool)
    requires Holding(d, before, base, root, {}) && (d.quiet ==> d.tree == base)
    modifies d
    ensures Holding(d, before, base, root, files) && old(d.removed) <= d.removed && old(d.taken) <= d.taken
    ensures d.quiet ==> old(d.quiet)
    ensures forall e :: e in d.removed && e !in old(d.removed) ==>
              e.0 == TemporaryPath(root, token) && !e.1.directory && (e.0 in before ==> e.0 in d.taken)
    ensures linked ==> reached
    ensures r.Done? ==> reached
    ensures d.quiet && clean ==>
              files == (if reached && LockPath(root) !in base then {LockPath(root)} else {})
                       + if linked then {ManifestPath(root)} else {}
    ensures old(d.turns) == [] ==> d.turns == [] && d.quiet == old(d.quiet) && clean && !r.Crashed?
    ensures old(d.turns) == [] && finds.first && root in old(d.tree) && old(d.tree)[root].directory ==> reached
    ensures !finds.links && d.quiet && ManifestPath(root) !in base ==> !r.Done? && !linked
    ensures old(d.turns) == [] && old(d.quiet) && Opened(base, root) && TemporaryPath(root, token) !in base ==>
              (r.Done? <==> Granted(finds, root, base)) && (r.Done? ==> (linked <==> ManifestPath(root) !in base))
  {
    hide Parent, With, Rooted, Holding;
    linked, clean := false, true;
    PathsDiffer(root, token);
    hide LockPath, ManifestPath, TemporaryPath;
    r, files, reached := TakeLock(d, root, finds, before, base);
    if !r.Done? {
      return;
    }
    var found := ReadName(d, ManifestPath(root), before, base, root, files);
    if !found.Done? {
      r := if found.Crashed? then Crashed else Failed;
      return;
    }
    if found.value.None? {
      r, files, linked, clean := PublishManifest(d, root, token, finds.links, before, base, files);
    }
    if r.Done? {
      r := CallHeld(d, finds.manifest, before, base, root, files);
    }
  }

  method ReadName(d: Directories, p: Path, ghost before: Tree, ghost base: Tree, ghost root: Path, ghost files: set<Path>)
    returns (r: Outcome<Option<Node>>)
    requires Holding(d, before, base, root, files)
    modifies d
    ensures Holding(d, before, base, root, files) && d.removed == old(d.removed) && old(d.taken) <= d.taken
    ensures d.quiet ==> old(d.quiet) && d.tree == old(d.tree)
    ensures r.Done? ==> r.value == if p in d.tree then Some(d.tree[p]) else None
    ensures old(d.turns) == [] ==> d.turns == [] && d.quiet == old(d.quiet) && r.Done?
  {
    hide With, Rooted;
    r := d.Lstat(p, before);
  }

  // ---- the whole attempt ----

  /** What the binding step leaves behind: the lock file if it is new, and the manifest if it is linked. */
  function Left(root: Path, before: Tree, reached: bool, linked: bool): set<Path> {
    (if reached && LockPath(root) !in before then {LockPath(root)} else {})
    + (if linked then {ManifestPath(root)} else {})
  }

  /** `before` with these directories and these files added. */
  ghost predicate Extended(before: Tree, created: seq<Path>, files: set<Path>, tree: Tree) {
    && tree.Keys == before.Keys + (set p | p in created) + files
    && (forall p :: p in before ==> tree[p] == before[p])
    && (forall p :: p in created ==> p !in before && tree[p].directory)
    && (forall f :: f in files ==> f !in before && !tree[f].directory)
  }

  lemma {:induction false} BuiltExtends(before: Tree, created: seq<Path>, tree: Tree)
    requires Built(before, created, tree)
    ensures Extended(before, created, {}, tree)
    decreases |created|
  {
    if created != [] {
      var last, front := created[|created| - 1], created[..|created| - 1];
      BuiltExtends(before, front, tree - {last});
      assert created == front + [last];
    }
  }

  /** Where a directory has been created, nothing below it was there before. */
  lemma NothingBelow(before: Tree, created: seq<Path>, root: Path, p: Path)
    requires Rooted(before) && created != [] && root <= p
    requires forall q :: q in created ==> q <= root && q !in before
    ensures p !in before
  {
    var q := created[0];
    assert q in created && q <= root <= p && p[..|q|] == q;
    if p in before {
      PrefixesAreThere(before, p, |q|);
    }
  }

  /** What the refused attempt finds when it comes to rolling back. */
  lemma BeforeRollback(before: Tree, created: seq<Path>, base: Tree, root: Path, files: set<Path>, tree: Tree)
    requires Built(before, created, base) && With(base, root, files, tree) && Rooted(tree) && root in base
    requires forall p :: p in created ==> p <= root
    ensures Extended(before, created, files, tree)
    ensures files == {} ==> Built(before, created, tree)
    ensures files != {} ==> AllHold(tree, created)
  {
    BuiltExtends(before, created, base);
    hide Built, Rooted;
    FilesExtend(before, created, base, root, files, tree);
    if files == {} {
      NoFiles(base, root, tree);
    } else {
      var f :| f in files;
      assert root in tree && f in tree && f != [] && Parent(f) == root;
      hide With, Extended;
      FileHoldsChain(tree, root, created, f);
    }
  }

  lemma NoFiles(base: Tree, root: Path, tree: Tree)
    requires With(base, root, {}, tree)
    ensures tree == base
  {
  }

  lemma FilesExtend(before: Tree, created: seq<Path>, base: Tree, root: Path, files: set<Path>, tree: Tree)
    requires Extended(before, created, {}, base) && With(base, root, files, tree)
    ensures Extended(before, created, files, tree)
  {
  }

  /** What the attempt has made by the time it succeeds or is refused. */
  ghost predicate Made(d: Directories, before: Tree, created: seq<Path>, base: Tree, root: Path, files: set<Path>)
    reads d
  {
    && d.Keeps(before)
    && (forall p :: p in created ==> p <= root && (p in before ==> p in d.taken))
    && (d.quiet ==> Built(before, created, base) && With(base, root, files, d.tree) && (files != {} ==> root in base))
  }

  /** The directories alone. */
  method MakeDirectories(d: Directories, parent: Path, names: seq<string>) returns (r: Outcome<()>, created: seq<Path>)
    requires Rooted(d.tree) && d.quiet && d.taken == {} && d.removed == {}
    modifies d
    ensures d.Tracks(old(d.tree), created) && d.removed == {}
    ensures forall p :: p in created ==> p <= parent + names
    ensures r.Done? && d.quiet ==> parent + names in d.tree && d.tree[parent + names].directory
    ensures old(d.turns) == [] && |names| == 1 && parent in old(d.tree) && old(d.tree)[parent].directory
            && parent + names !in old(d.tree) ==>
              r.Done? && d.quiet && created == [parent + names] && d.turns == []
    ensures old(d.turns) == [] ==> d.turns == [] && d.quiet
    ensures old(d.turns) == [] && Way(old(d.tree), parent + names) ==> r.Done?
  {
    ghost var before := d.tree;
    BuiltNone(before, before);
    assert d.Tracks(before, []);
    assert parent <= parent + names;
    hide Built, Rooted, Way;
    r, created := d.EnsureChain(parent, parent + names, [], before);
    if r.Done? {
      r, created := d.SecureComponents(parent, names, created, before);
    }
  }

  method Attempt(d: Directories, parent: Path, names: seq<string>, token: string, finds: Findings)
    returns (r: Outcome<()>, created: seq<Path>, ghost base: Tree, ghost files: set<Path>,
             ghost reached: bool, ghost linked: bool, ghost clean: bool)
    requires Rooted(d.tree) && d.quiet && d.taken == {} && d.removed == {}
    modifies d
    ensures Made(d, old(d.tree), created, base, parent + names, files)
    ensures forall e :: e in d.removed ==>
              !e.1.directory && e.0 == TemporaryPath(parent + names, token)
              && (e.0 in old(d.tree) ==> e.0 in d.taken)
    ensures linked ==> reached
    ensures d.quiet && clean ==> files == Left(parent + names, base, reached, linked)
    ensures r.Done? ==> reached && (d.quiet ==> parent + names in base && base[parent + names].directory)
    ensures reached && d.quiet ==> parent + names in base
    ensures old(d.turns) == [] && |names| == 1 && parent in old(d.tree) && old(d.tree)[parent].directory
            && parent + names !in old(d.tree) && finds.first && !finds.links ==>
              r.Failed? && d.quiet && clean && reached && !linked && created == [parent + names] && d.turns == []
    ensures old(d.turns) == [] && Way(old(d.tree), parent + names) && TemporaryPath(parent + names, token) !in old(d.tree) ==>
              && d.turns == [] && d.quiet && clean && (r.Done? <==> Granted(finds, parent + names, old(d.tree)))
              && (r.Done? ==> (linked <==> ManifestPath(parent + names) !in old(d.tree)))
  {
    hide Built, Rooted, With, Way;
    reached, linked, clean, files := false, false, true, {};
    ghost var before := d.tree;
    r, created := MakeDirectories(d, parent, names);
    base := d.tree;
    WithNothing(base, parent + names);
    NoneLeft(parent + names, base);
    if r.Done? {
      if d.quiet {
        FilesAreNew(before, created, base, parent + names, token);
      }
      hide Left, Granted;
      if d.quiet && created == [parent + names] {
        ManifestIsNew(before, created, base, parent + names);
      }
      r, files, reached, linked, clean := BindNamespace(d, parent + names, token, finds, before, base);
      LeftIs(parent + names, base, reached, linked);
    }
  }

  /** The files of the binding step are there before and after creating directories. */
  lemma FilesAreNew(before: Tree, created: seq<Path>, base: Tree, root: Path, token: string)
    requires Built(before, created, base) && forall p :: p in created ==> p <= root
    ensures ManifestPath(root) in base <==> ManifestPath(root) in before
    ensures LockPath(root) in base <==> LockPath(root) in before
    ensures TemporaryPath(root, token) in base <==> TemporaryPath(root, token) in before
    ensures forall finds :: Granted(finds, root, base) == Granted(finds, root, before)
  {
    BuiltExtends(before, created, base);
  }

  lemma ManifestIsNew(before: Tree, created: seq<Path>, base: Tree, root: Path)
    requires Rooted(before) && Built(before, created, base) && created == [root]
    ensures ManifestPath(root) !in base
  {
    BuiltExtends(before, created, base);
    assert root in created;
    NothingBelow(before, created, root, ManifestPath(root));
  }

  /** What a rollback that met no fault leaves. */
  lemma RefusalLeaves(before: Tree, created: seq<Path>, base: Tree, root: Path, files: set<Path>, tree: Tree,
                      after: Tree, reached: bool, linked: bool)
    requires Rooted(before) && Rooted(tree) && Built(before, created, base) && With(base, root, files, tree)
    requires files != {} ==> root in base
    requires forall p :: p in created ==> p <= root
    requires files == Left(root, base, reached, linked) && (linked ==> reached)
    requires Built(before, created, tree) ==> after == before
    requires AllHold(tree, created) ==> after == tree
    ensures var left := Left(root, before, reached, linked);
            && (after == before <==> left == {})
            && (left != {} ==> Extended(before, created, left, after))
            && (created != [] ==> (left == {} <==> !reached))
  {
    BuiltExtends(before, created, base);
    assert LockPath(root) !in created;
    if files == {} {
      NoFiles(base, root, tree);
    } else {
      BeforeRollback(before, created, base, root, files, tree);
      var f :| f in files;
      assert f in after && f !in before;
    }
    if created != [] {
      hide Built, With, AllHold, Rooted;
      assert root <= LockPath(root);
      assert forall q :: q in created ==> q <= root && q !in before;
      NothingBelow(before, created, root, LockPath(root));
    }
  }

  lemma SuccessLeaves(before: Tree, created: seq<Path>, base: Tree, root: Path, files: set<Path>, tree: Tree,
                      reached: bool, linked: bool)
    requires Built(before, created, base) && With(base, root, files, tree) && reached
    requires forall p :: p in created ==> p <= root
    requires files == Left(root, base, reached, linked)
    ensures Extended(before, created, Left(root, before, true, linked), tree)
  {
    BuiltExtends(before, created, base);
    FilesExtend(before, created, base, root, files, tree);
    FilesAreNew(before, created, base, root, "");
  }

  lemma NoneLeft(root: Path, base: Tree)
    ensures Left(root, base, false, false) == {}
  {
  }

  lemma LeftIs(root: Path, base: Tree, reached: bool, linked: bool)
    ensures Left(root, base, reached, linked)
            == (if reached && LockPath(root) !in base then {LockPath(root)} else {})
               + if linked then {ManifestPath(root)} else {}
  {
  }

  /** `_load_state_root`: the chain to `parent`, ToolHub's own directories below it (one if the state root
      is configured, three if not), the binding step, and the rollback of a refusal. Whatever happens,
      nothing that was there and that no other process removed is lost.

      If nobody else acts and no cleanup call has a fault, a refusal that leaves no file of the binding
      step leaves the tree exactly as it was found; one that does keeps these files and every directory
      created. As the lock file is never removed, an attempt that created directories takes them back
      exactly if it was refused before it got to the lock file. */
  method PrepareState(d: Directories, parent: Path, names: seq<string>, token: string, finds: Findings)
    returns (r: Outcome<()>, created: seq<Path>, ghost reached: bool, ghost linked: bool, ghost clean: bool)
    requires Rooted(d.tree) && d.quiet && d.taken == {} && d.removed == {}
    modifies d
    ensures d.Keeps(old(d.tree))
    ensures forall e :: e in d.removed ==>
              && (e.0 in old(d.tree) ==> e.0 in d.taken)
              && (if e.1.directory then e.0 in created else e.0 == TemporaryPath(parent + names, token))
    ensures r.Failed? && d.quiet && clean ==>
              var left := Left(parent + names, old(d.tree), reached, linked);
              && (d.tree == old(d.tree) <==> left == {})
              && (left != {} ==> Extended(old(d.tree), created, left, d.tree))
              && (created != [] ==> (left == {} <==> !reached))
    ensures r.Done? && d.quiet ==> parent + names in d.tree && d.tree[parent + names].directory
    ensures r.Done? && d.quiet && clean ==>
              Extended(old(d.tree), created, Left(parent + names, old(d.tree), true, linked), d.tree)
    ensures old(d.turns) == [] && Way(old(d.tree), parent + names) && TemporaryPath(parent + names, token) !in old(d.tree) ==>
              && d.quiet && clean && (r.Done? <==> Granted(finds, parent + names, old(d.tree)))
              && (r.Done? ==> (linked <==> ManifestPath(parent + names) !in old(d.tree)))
    ensures old(d.turns) == [] && |names| == 1 && parent in old(d.tree) && old(d.tree)[parent].directory
            && parent + names !in old(d.tree) && finds.first && !finds.links ==>
              r.Failed? && d.quiet && clean && reached && !linked && created == [parent + names]
  {
    ghost var before, root, base, files := d.tree, parent + names, map[], {};
    r, created, base, files, reached, linked, clean := Attempt(d, parent, names, token, finds);
    ghost var tree := d.tree;
    if r.Done? && d.quiet && clean {
      SuccessLeaves(before, created, base, root, files, tree, reached, linked);
    }
    hide Built, With, AllHold, Extended, Left, Rooted, Way, Granted, ManifestPath, TemporaryPath;
    if r.Failed? {
      ghost var tidy;
      tidy := d.Rollback(created, before);
      clean := clean && tidy;
      if d.quiet && clean {
        RefusalLeaves(before, created, base, root, files, tree, d.tree, reached, linked);
      }
    }
  }

  lemma WithNothing(base: Tree, root: Path)
    ensures With(base, root, {}, base)
  {
  }

  /** A lone process without a single fault, on a file system without hard links: it is refused, and the
      state root it created stays, with the lock file in it. */
  method LoneRefusal() returns (r: Outcome<()>, before: Tree, after: Tree)
    ensures before == map[[] := Node(true, 0)] && r == Failed
    ensures after.Keys == {[], ["state"], LockPath(["state"])} != before.Keys
  {
    before := map[[] := Node(true, 0)];
    var d := new Directories(before, [], 1);
    var created;
    ghost var reached, linked, clean;
    hide Way, Granted, Rooted, TemporaryPath, ManifestPath;
    assert [] + ["state"] == ["state"];
    r, created, reached, linked, clean := PrepareState(d, [], ["state"], "", Findings(true, true, false, true));
    after := d.tree;
    assert LockPath(["state"]) == ["state", LOCK];
    assert Left(["state"], before, reached, linked) == {LockPath(["state"])};
    hide Left, LockPath;
    assert ["state"] in after;
  }
}
