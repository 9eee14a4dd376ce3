/** Any number of processes binding one state directory to their workspaces, without relying on the
    advisory lock: each may be stopped between any two system calls, write short, fail, or die. */
module Binding {
  import opened Results
  import opened FileSystem

  type Pid = nat

  /** How a workspace is written into the manifest, which identity a manifest text names, and which
      identity a workspace has. */
  datatype Codec = Codec(
    serialize: string -> seq<Byte>, identity: seq<Byte> -> Option<string>, key: string -> string)
  {
    ghost predicate Lawful() {
      forall w :: identity(serialize(w)) == Some(key(w))
    }
  }

  datatype Control =
    | Begun(workspace: string)
    | Creating(workspace: string)                        // found no binding
    | Filling(workspace: string, file: Inode, count: nat)
    | Ready(workspace: string, file: Inode)              // complete and closed
    | Linked(workspace: string)                          // linked, or found the name taken
    | Reading(workspace: string)
    | Bound(workspace: string)                           // returned successfully
    | Stopped                                            // failed or died

  /** Temporary names are drawn at random per process and are taken never to collide. */
  datatype State = State(
    binding: Option<Inode>, temporaries: map<Pid, Inode>, data: map<Inode, seq<Byte>>, next: Inode,
    control: map<Pid, Control>)

  datatype Step =
    | Begin(p: Pid, workspace: string)
    | Look(p: Pid)
    | Create(p: Pid)
    | WriteSome(p: Pid, n: nat)
    | Close(p: Pid)
    | Link(p: Pid)
    | Unlink(p: Pid)
    | Read(p: Pid)
    | Stop(p: Pid)

  predicate Enabled(c: Codec, s: State, step: Step) {
    var p := step.p;
    if step.Begin? then p !in s.control
    else
      && p in s.control
      && var k := s.control[p];
         match step
         case Begin(_, _) => false
         case Look(_) => k.Begun?
         case Create(_) => k.Creating?
         case WriteSome(_, n) => k.Filling? && 0 < n && k.count + n <= |c.serialize(k.workspace)|
         case Close(_) => k.Filling? && k.count == |c.serialize(k.workspace)|
         case Link(_) => k.Ready? && p in s.temporaries
         case Unlink(_) => k.Linked?
         case Read(_) => k.Reading?
         case Stop(_) => !k.Bound?
  }

  function Goto(s: State, p: Pid, k: Control): State {
    s.(control := s.control[p := k])
  }

  function Do(c: Codec, s: State, step: Step): State
    requires Enabled(c, s, step)
  {
    var p := step.p;
    if step.Begin? then Goto(s, p, Begun(step.workspace))
    else
      var k := s.control[p];
      match step
      case Look(_) => Goto(s, p, if s.binding.Some? then Reading(k.workspace) else Creating(k.workspace))
      case Create(_) =>
        Goto(s.(temporaries := s.temporaries[p := s.next], data := s.data[s.next := []], next := s.next + 1),
             p, Filling(k.workspace, s.next, 0))
      case WriteSome(_, n) =>
        var text := c.serialize(k.workspace);
        var have := if k.file in s.data then s.data[k.file] else [];
        Goto(s.(data := s.data[k.file := have + text[k.count..k.count + n]]),
             p, Filling(k.workspace, k.file, k.count + n))
      case Close(_) => Goto(s, p, Ready(k.workspace, k.file))
      case Link(_) =>
        Goto(if s.binding.None? then s.(binding := Some(s.temporaries[p])) else s, p, Linked(k.workspace))
      case Unlink(_) => Goto(s.(temporaries := s.temporaries - {p}), p, Reading(k.workspace))
      case Read(_) => Goto(s, p, if Accepts(c, s, k.workspace) then Bound(k.workspace) else Stopped)
      case Stop(_) => Goto(s, p, Stopped)
  }

  /** The manifest names the reader's own workspace. */
  predicate Accepts(c: Codec, s: State, workspace: string) {
    && s.binding.Some? && s.binding.value in s.data
    && c.identity(s.data[s.binding.value]) == Some(c.key(workspace))
  }

  /** Nobody has begun; a binding may exist already, with any content. */
  predicate Start(s: State) {
    && s.control == map[] && s.temporaries == map[]
    && (forall i :: i in s.data ==> i < s.next)
    && (s.binding.Some? ==> s.binding.value in s.data)
  }

  ghost predicate Run(c: Codec, first: State, steps: seq<Step>, s: State) {
    if steps == [] then s == first
    else
      var last := steps[|steps| - 1];
      exists before :: Run(c, first, steps[..|steps| - 1], before) && Enabled(c, before, last) && s == Do(c, before, last)
  }

  // ---- the invariant ----

  /** A process that is filling or has filled its file owns it under its temporary name. */
  ghost predicate OwnFile(c: Codec, s: State, p: Pid, k: Control) {
    && (k.Filling? ==>
          && p in s.temporaries && s.temporaries[p] == k.file && k.file in s.data
          && k.count <= |c.serialize(k.workspace)|
          && s.data[k.file] == c.serialize(k.workspace)[..k.count]
          && s.binding != Some(k.file))
    && (k.Ready? ==>
          && p in s.temporaries && s.temporaries[p] == k.file && k.file in s.data
          && s.data[k.file] == c.serialize(k.workspace))
  }

  ghost predicate FilesKnown(s: State) {
    && (forall i :: i in s.data ==> i < s.next)
    && (s.binding.Some? ==> s.binding.value in s.data)
    && (forall p :: p in s.temporaries ==> s.temporaries[p] in s.data)
  }

  ghost predicate FilesApart(s: State) {
    forall p, q :: p in s.temporaries && q in s.temporaries && p != q ==> s.temporaries[p] != s.temporaries[q]
  }

  ghost predicate BoundAgrees(c: Codec, s: State) {
    forall p :: p in s.control && s.control[p].Bound? ==> Accepts(c, s, s.control[p].workspace)
  }

  ghost predicate Inv(c: Codec, s: State) {
    && FilesKnown(s) && FilesApart(s) && BoundAgrees(c, s)
    && (forall p :: p in s.control ==> OwnFile(c, s, p, s.control[p]))
  }

  /** Once the binding exists it keeps its file and its content; and it appears complete. */
  ghost predicate BindingFixed(c: Codec, s: State, t: State) {
    && (s.binding.Some? && s.binding.value in s.data ==>
          t.binding == s.binding && s.binding.value in t.data
          && t.data[s.binding.value] == s.data[s.binding.value])
    && (s.binding.None? && t.binding.Some? ==>
          t.binding.value in t.data && exists w :: t.data[t.binding.value] == c.serialize(w))
  }

  /** A step that touches no file. */
  lemma QuietStep(c: Codec, s: State, p: Pid, k: Control)
    requires Inv(c, s) && OwnFile(c, s, p, k)
    requires k.Bound? ==> Accepts(c, s, k.workspace)
    ensures Inv(c, Goto(s, p, k)) && BindingFixed(c, s, Goto(s, p, k))
  {
    var t := Goto(s, p, k);
    forall q | q in t.control ensures OwnFile(c, t, q, t.control[q]) {
      assert q != p ==> OwnFile(c, s, q, s.control[q]);
    }
  }

  lemma CreateStep(c: Codec, s: State, p: Pid)
    requires Inv(c, s) && Enabled(c, s, Create(p))
    ensures Inv(c, Do(c, s, Create(p))) && BindingFixed(c, s, Do(c, s, Create(p)))
  {
    var t := Do(c, s, Create(p));
    forall q | q in t.control ensures OwnFile(c, t, q, t.control[q]) {
      assert q != p ==> OwnFile(c, s, q, s.control[q]);
    }
    forall q | q in t.control && t.control[q].Bound? ensures Accepts(c, t, t.control[q].workspace) {
      assert Accepts(c, s, s.control[q].workspace);
    }
  }

  lemma WriteStep(c: Codec, s: State, p: Pid, n: nat)
    requires Inv(c, s) && Enabled(c, s, WriteSome(p, n))
    ensures Inv(c, Do(c, s, WriteSome(p, n))) && BindingFixed(c, s, Do(c, s, WriteSome(p, n)))
  {
    var t, k := Do(c, s, WriteSome(p, n)), s.control[p];
    var text := c.serialize(k.workspace);
    assert OwnFile(c, s, p, k);
    assert text[..k.count] + text[k.count..k.count + n] == text[..k.count + n];
    forall q | q in t.control ensures OwnFile(c, t, q, t.control[q]) {
      assert q != p ==> OwnFile(c, s, q, s.control[q]);
    }
    forall q | q in t.control && t.control[q].Bound? ensures Accepts(c, t, t.control[q].workspace) {
      assert Accepts(c, s, s.control[q].workspace);
    }
  }

  lemma LinkStep(c: Codec, s: State, p: Pid)
    requires Inv(c, s) && Enabled(c, s, Link(p))
    ensures Inv(c, Do(c, s, Link(p))) && BindingFixed(c, s, Do(c, s, Link(p)))
  {
    var t, k := Do(c, s, Link(p)), s.control[p];
    assert OwnFile(c, s, p, k);
    forall q | q in t.control ensures OwnFile(c, t, q, t.control[q]) {
      assert q != p ==> OwnFile(c, s, q, s.control[q]);
    }
    forall q | q in t.control && t.control[q].Bound? ensures Accepts(c, t, t.control[q].workspace) {
      assert Accepts(c, s, s.control[q].workspace);
    }
  }

  lemma UnlinkStep(c: Codec, s: State, p: Pid)
    requires Inv(c, s) && Enabled(c, s, Unlink(p))
    ensures Inv(c, Do(c, s, Unlink(p))) && BindingFixed(c, s, Do(c, s, Unlink(p)))
  {
    var t := Do(c, s, Unlink(p));
    forall q | q in t.control ensures OwnFile(c, t, q, t.control[q]) {
      assert q != p ==> OwnFile(c, s, q, s.control[q]);
    }
    forall q | q in t.control && t.control[q].Bound? ensures Accepts(c, t, t.control[q].workspace) {
      assert Accepts(c, s, s.control[q].workspace);
    }
  }

  lemma StepKeepsInv(c: Codec, s: State, step: Step)
    requires Inv(c, s) && Enabled(c, s, step)
    ensures Inv(c, Do(c, s, step)) && BindingFixed(c, s, Do(c, s, step))
  {
    hide Inv, BindingFixed, Accepts;
    var p := step.p;
    match step {
      case Begin(_, w) => QuietStep(c, s, p, Begun(w));
      case Look(_) =>
        var w := s.control[p].workspace;
        QuietStep(c, s, p, if s.binding.Some? then Reading(w) else Creating(w));
      case Create(_) => CreateStep(c, s, p);
      case WriteSome(_, n) => WriteStep(c, s, p, n);
      case Close(_) =>
        var k := s.control[p];
        Owns(c, s, p);
        assert c.serialize(k.workspace)[..k.count] == c.serialize(k.workspace);
        QuietStep(c, s, p, Ready(k.workspace, k.file));
      case Link(_) => LinkStep(c, s, p);
      case Unlink(_) => UnlinkStep(c, s, p);
      case Read(_) =>
        var w := s.control[p].workspace;
        QuietStep(c, s, p, if Accepts(c, s, w) then Bound(w) else Stopped);
      case Stop(_) => QuietStep(c, s, p, Stopped);
    }
  }

  lemma Owns(c: Codec, s: State, p: Pid)
    requires Inv(c, s) && p in s.control
    ensures OwnFile(c, s, p, s.control[p])
  {
  }

  lemma {:induction false} RunKeepsInv(c: Codec, first: State, steps: seq<Step>, s: State)
    requires Start(first) && Run(c, first, steps, s)
    ensures Inv(c, s)
    ensures BindingFixed(c, first, s)
    decreases |steps|
  {
    hide Enabled, Do, Inv, BindingFixed;
    if steps == [] {
      StartHolds(c, first);
    } else {
      var last := steps[|steps| - 1];
      var before :| Run(c, first, steps[..|steps| - 1], before) && Enabled(c, before, last) && s == Do(c, before, last);
      RunKeepsInv(c, first, steps[..|steps| - 1], before);
      StepKeepsInv(c, before, last);
      FixedTwice(c, first, before, s);
    }
  }

  lemma StartHolds(c: Codec, s: State)
    requires Start(s)
    ensures Inv(c, s) && BindingFixed(c, s, s)
  {
  }

  lemma FixedTwice(c: Codec, r: State, s: State, t: State)
    requires BindingFixed(c, r, s) && BindingFixed(c, s, t)
    requires r.binding.Some? ==> r.binding.value in r.data
    ensures BindingFixed(c, r, t)
  {
  }

  /** Whatever the interleaving and wherever processes stop: the binding that is there keeps its
      content, one that appears is complete at once, and all processes that return successfully have
      the same workspace identity. */
  lemma BindingAgreement(c: Codec, first: State, steps: seq<Step>, s: State)
    requires Start(first) && Run(c, first, steps, s)
    ensures BindingFixed(c, first, s)
    ensures forall step :: Enabled(c, s, step) ==> BindingFixed(c, s, Do(c, s, step))
    ensures forall p, q :: p in s.control && q in s.control && s.control[p].Bound? && s.control[q].Bound? ==>
              c.key(s.control[p].workspace) == c.key(s.control[q].workspace)
    ensures first.binding.None? && c.Lawful() ==>
              forall p :: p in s.control && s.control[p].Bound? ==>
                && s.binding.Some? && s.binding.value in s.data
                && exists w :: s.data[s.binding.value] == c.serialize(w) && c.key(w) == c.key(s.control[p].workspace)
  {
    RunKeepsInv(c, first, steps, s);
    forall step | Enabled(c, s, step) ensures BindingFixed(c, s, Do(c, s, step)) {
      StepKeepsInv(c, s, step);
    }
    forall p | p in s.control && s.control[p].Bound? ensures Accepts(c, s, s.control[p].workspace) {
    }
  }

  // ---- runs in which processes return successfully ----

  lemma Next(c: Codec, first: State, steps: seq<Step>, s: State, step: Step)
    requires Run(c, first, steps, s) && Enabled(c, s, step)
    ensures Run(c, first, steps + [step], Do(c, s, step))
  {
    var all := steps + [step];
    assert all[..|all| - 1] == steps && all[|all| - 1] == step;
    hide Do, Enabled;
    assert Run(c, first, all[..|all| - 1], s) && Enabled(c, s, all[|all| - 1]);
  }

  /** With `first` the disk as it was, `p` alone has got as far as `k`. */
  function Alone(first: State, p: Pid, k: Control, file: seq<Byte>): State {
    first.(temporaries := map[p := first.next], data := first.data[first.next := file], next := first.next + 1,
           control := map[p := k])
  }

  lemma LoneFile(c: Codec, first: State, p: Pid, w: string) returns (steps: seq<Step>)
    requires Start(first) && first.binding.None?
    ensures Run(c, first, steps, Alone(first, p, Ready(w, first.next), c.serialize(w)))
  {
    assert Run(c, first, [], first);
    hide Run;
    LookAlone(c, first, p, w);
    Next(c, first, [], first, Begin(p, w));
    Next(c, first, [] + [Begin(p, w)], first.(control := map[p := Begun(w)]), Look(p));
    steps := [] + [Begin(p, w)] + [Look(p)];
    var s := first.(control := map[p := Creating(w)]);
    Next(c, first, steps, s, Create(p));
    assert Do(c, s, Create(p)) == Alone(first, p, Filling(w, first.next, 0), []);
    steps := steps + [Create(p)];
    steps := LoneWrite(c, first, steps, p, w);
  }

  lemma WriteAlone(c: Codec, first: State, p: Pid, w: string)
    requires c.serialize(w) != []
    ensures var text := c.serialize(w);
            var s := Alone(first, p, Filling(w, first.next, 0), []);
            && Enabled(c, s, WriteSome(p, |text|))
            && Do(c, s, WriteSome(p, |text|)) == Alone(first, p, Filling(w, first.next, |text|), text)
  {
    var text := c.serialize(w);
    assert [] + text[0..0 + |text|] == text;
    assert first.data[first.next := []][first.next := text] == first.data[first.next := text];
  }

  lemma LoneWrite(c: Codec, first: State, before: seq<Step>, p: Pid, w: string) returns (steps: seq<Step>)
    requires Run(c, first, before, Alone(first, p, Filling(w, first.next, 0), []))
    ensures Run(c, first, steps, Alone(first, p, Ready(w, first.next), c.serialize(w)))
  {
    hide Run;
    steps := before;
    var text, s := c.serialize(w), Alone(first, p, Filling(w, first.next, 0), []);
    if text != [] {
      WriteAlone(c, first, p, w);
      hide Do, Enabled;
      Next(c, first, steps, s, WriteSome(p, |text|));
      steps, s := steps + [WriteSome(p, |text|)], Alone(first, p, Filling(w, first.next, |text|), text);
    }
    Next(c, first, steps, s, Close(p));
    assert Do(c, s, Close(p)) == Alone(first, p, Ready(w, first.next), text);
    steps := steps + [Close(p)];
  }

  /** The disk with the file linked, `p` alone at `k`. */
  function LinkedAlone(first: State, p: Pid, k: Control, file: seq<Byte>): State {
    Alone(first, p, k, file).(binding := Some(first.next))
  }

  lemma LinkAlone(c: Codec, first: State, p: Pid, w: string, file: seq<Byte>)
    requires first.binding.None?
    ensures var s := Alone(first, p, Ready(w, first.next), file);
            Enabled(c, s, Link(p)) && Do(c, s, Link(p)) == LinkedAlone(first, p, Linked(w), file)
  {
  }

  lemma UnlinkAlone(c: Codec, first: State, p: Pid, w: string, file: seq<Byte>)
    ensures var s := LinkedAlone(first, p, Linked(w), file);
            Enabled(c, s, Unlink(p))
            && Do(c, s, Unlink(p)) == LinkedAlone(first, p, Reading(w), file).(temporaries := map[])
  {
    assert LinkedAlone(first, p, Linked(w), file).temporaries - {p} == map[];
  }

  lemma ReadAlone(c: Codec, s: State, p: Pid, w: string)
    requires s.control == map[p := Reading(w)]
    ensures Enabled(c, s, Read(p))
    ensures Do(c, s, Read(p)) == s.(control := map[p := if Accepts(c, s, w) then Bound(w) else Stopped])
  {
    hide Accepts;
  }

  /** A process alone on a directory without a binding binds it to its own workspace and returns successfully. */
  lemma LoneBinds(c: Codec, first: State, p: Pid, w: string) returns (steps: seq<Step>, s: State)
    requires Start(first) && first.binding.None? && c.Lawful()
    ensures Run(c, first, steps, s) && s.control == map[p := Bound(w)] && s.temporaries == map[]
    ensures s.binding == Some(first.next) && s.data == first.data[first.next := c.serialize(w)]
  {
    steps := LoneFile(c, first, p, w);
    hide Run, Do, Enabled;
    var file := c.serialize(w);
    LinkAlone(c, first, p, w, file);
    Next(c, first, steps, Alone(first, p, Ready(w, first.next), file), Link(p));
    UnlinkAlone(c, first, p, w, file);
    Next(c, first, steps + [Link(p)], LinkedAlone(first, p, Linked(w), file), Unlink(p));
    var t := LinkedAlone(first, p, Reading(w), file).(temporaries := map[]);
    ReadAlone(c, t, p, w);
    Next(c, first, steps + [Link(p)] + [Unlink(p)], t, Read(p));
    s := Do(c, t, Read(p));
    steps := steps + [Link(p)] + [Unlink(p)] + [Read(p)];
  }

  /** A process that finds a binding, as long as nobody else acts, returns successfully exactly if the manifest
      names its own workspace; it changes no file. */
  lemma LoneReads(c: Codec, first: State, p: Pid, w: string) returns (steps: seq<Step>, s: State)
    requires Start(first) && first.binding.Some?
    ensures Run(c, first, steps, s) && s == first.(control := s.control) && s.control.Keys == {p}
    ensures s.control[p] == if c.identity(first.data[first.binding.value]) == Some(c.key(w)) then Bound(w) else Stopped
  {
    LookAlone(c, first, p, w);
    assert Run(c, first, [], first);
    assert first.binding.value in first.data;
    assert Accepts(c, first.(control := map[p := Reading(w)]), w)
      <==> c.identity(first.data[first.binding.value]) == Some(c.key(w));
    hide *;
    Next(c, first, [], first, Begin(p, w));
    Next(c, first, [] + [Begin(p, w)], first.(control := map[p := Begun(w)]), Look(p));
    var t := first.(control := map[p := Reading(w)]);
    ReadAlone(c, t, p, w);
    Next(c, first, [] + [Begin(p, w)] + [Look(p)], t, Read(p));
    s := Do(c, t, Read(p));
    steps := [] + [Begin(p, w)] + [Look(p)] + [Read(p)];
  }

  lemma LookAlone(c: Codec, first: State, p: Pid, w: string)
    requires Start(first)
    ensures var s := first.(control := map[p := Begun(w)]);
            && Enabled(c, first, Begin(p, w)) && Do(c, first, Begin(p, w)) == s && Enabled(c, s, Look(p))
            && Do(c, s, Look(p))
               == first.(control := map[p := if first.binding.Some? then Reading(w) else Creating(w)])
  {
  }
}
