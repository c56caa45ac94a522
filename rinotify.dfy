/** Recursive inotify watching, one watch node at a time.

    A node is registered on one path with the caller's flags plus the flags
    the recursion itself needs. It then consumes that path's events in
    arrival order: a delete-self event closes the node; a "created
    directory" event starts a child watch on the new directory; every other
    event (the creation event included) whose mask meets the caller's flags
    goes to the node's output. A node on a directory also starts a child
    watch for every entry present when it was set up, and each child's
    output is relayed into its parent's output.

    Goroutines and channels are replaced by explicit sequences: the events a
    node receives, the directory listing it reads, the stream a child
    produces. */
module Rinotify {
  import opened Inotify

  // ---------------------------------------------------------------------
  // Registration mask and event classifiers
  // ---------------------------------------------------------------------

  /** The flags mixed into every registration so that the recursion can see
      new subdirectories and its own deletion. */
  const RequiredFlags: bv32 := IN_ISDIR | IN_CREATE | IN_DELETE_SELF

  /** The mask a node registers with: every bit the caller asked for, the
      three required bits, and nothing else. */
  function RegistrationMask(flags: bv32): (r: bv32)
    ensures forall k: BitIndex :: BitSet(r, k) <==>
      BitSet(flags, k) || k == CreateBit || k == DeleteSelfBit || k == IsDirBit
  {
    forall k: BitIndex
      ensures BitSet(flags | RequiredFlags, k) <==>
        BitSet(flags, k) || k == CreateBit || k == DeleteSelfBit || k == IsDirBit
    {
      OrAt(flags, RequiredFlags, k);
    }
    flags | RequiredFlags
  }

  /** The event reports that the watched path itself was removed. */
  function IsDeleteSelf(m: bv32): (b: bool)
    ensures b <==> BitSet(m, DeleteSelfBit)
  {
    (m & IN_DELETE_SELF) == IN_DELETE_SELF
  }

  /** The event reports a new directory inside the watched one: both the
      create bit and the is-directory bit are set; either alone is not
      enough. */
  function IsNewChildDir(m: bv32): (b: bool)
    ensures b <==> BitSet(m, CreateBit) && BitSet(m, IsDirBit)
  {
    var both := IN_CREATE | IN_ISDIR;
    (m & both) == both
  }

  /** The event is of at least one kind the caller asked for (the unsigned
      test `mask & flags > 0`). */
  function IsRequested(m: bv32, flags: bv32): (b: bool)
    ensures b <==> exists k: BitIndex :: BitSet(m, k) && BitSet(flags, k)
  {
    AndNonZero(m, flags);
    (m & flags) > 0
  }

  // ---------------------------------------------------------------------
  // Bootstrap: one child watch per pre-existing entry
  // ---------------------------------------------------------------------

  /** Path joining, taken as plain concatenation with a separator; the
      lexical clean-up that Go's path.Join also performs is not modelled. */
  function Join(dir: string, name: string): string {
    dir + "/" + name
  }

  /** The child paths a directory's bootstrap watches: one per listed entry,
      in listing order, each the directory joined with the entry name. */
  function ChildPaths(dir: string, names: seq<string>): (r: seq<string>)
    ensures |r| == |names|
    ensures forall i :: 0 <= i < |names| ==> r[i] == Join(dir, names[i])
  {
    if names == [] then []
    else [Join(dir, names[0])] + ChildPaths(dir, names[1..])
  }

  // ---------------------------------------------------------------------
  // The pump of one node, as a state machine over its events
  // ---------------------------------------------------------------------

  /** What one node has done so far: whether its output is closed, the
      events it has put on its output, and the paths it started child
      watches on. */
  datatype NodeState = NodeState(closed: bool, output: seq<Event>, spawned: seq<string>)

  /** The pump's reaction to one event. A closed node has returned and sees
      nothing more. */
  function Step(s: NodeState, ev: Event, flags: bv32): NodeState {
    if s.closed then s
    else if IsDeleteSelf(ev.mask) then s.(closed := true)
    else
      var spawned := if IsNewChildDir(ev.mask) then s.spawned + [ev.name] else s.spawned;
      var output := if IsRequested(ev.mask, flags) then s.output + [ev] else s.output;
      NodeState(false, output, spawned)
  }

  /** The pump's state after the events `evs`, taken in arrival order. */
  function Run(s: NodeState, evs: seq<Event>, flags: bv32): NodeState
    decreases |evs|
  {
    if evs == [] then s else Run(Step(s, evs[0], flags), evs[1..], flags)
  }

  /** The events of `evs` that meet the caller's flags, in arrival order. */
  function Requested(evs: seq<Event>, flags: bv32): seq<Event> {
    if evs == [] then []
    else (if IsRequested(evs[0].mask, flags) then [evs[0]] else []) + Requested(evs[1..], flags)
  }

  /** The paths of the "created directory" events of `evs`, in arrival order. */
  function NewChildDirs(evs: seq<Event>): seq<string> {
    if evs == [] then []
    else (if IsNewChildDir(evs[0].mask) then [evs[0].name] else []) + NewChildDirs(evs[1..])
  }

  /** No event of `evs` is a delete-self. */
  predicate NoDeleteSelf(evs: seq<Event>) {
    forall i :: 0 <= i < |evs| ==> !IsDeleteSelf(evs[i].mask)
  }

  lemma AppendAssoc<T>(a: seq<T>, b: seq<T>, c: seq<T>)
    ensures a + (b + c) == (a + b) + c
  {
  }

  /** Running the pump over two batches is running it over their
      concatenation. */
  lemma {:induction false} RunAppend(s: NodeState, a: seq<Event>, b: seq<Event>, flags: bv32)
    ensures Run(s, a + b, flags) == Run(Run(s, a, flags), b, flags)
    decreases |a|
  {
    if a == [] {
      assert a + b == b;
    } else {
      assert (a + b)[0] == a[0] && (a + b)[1..] == a[1..] + b;
      RunAppend(Step(s, a[0], flags), a[1..], b, flags);
    }
  }

  /** Once the node is closed, no later event changes anything. */
  lemma {:induction false} RunAfterClose(s: NodeState, evs: seq<Event>, flags: bv32)
    requires s.closed
    ensures Run(s, evs, flags) == s
    decreases |evs|
  {
    if evs != [] {
      RunAfterClose(Step(s, evs[0], flags), evs[1..], flags);
    }
  }

  /** Before any delete-self, the node stays open, its output gains exactly
      the requested events and its spawned list exactly the paths of the new
      child directories, both in arrival order. */
  lemma {:induction false} RunOpen(s: NodeState, evs: seq<Event>, flags: bv32)
    requires !s.closed && NoDeleteSelf(evs)
    ensures Run(s, evs, flags)
         == NodeState(false, s.output + Requested(evs, flags), s.spawned + NewChildDirs(evs))
    decreases |evs|
  {
    if evs != [] {
      var t := Step(s, evs[0], flags);
      assert NoDeleteSelf(evs[1..]) by {
        forall i | 0 <= i < |evs[1..]| ensures !IsDeleteSelf(evs[1..][i].mask) {
          assert evs[1..][i] == evs[i + 1];
        }
      }
      var fwd := if IsRequested(evs[0].mask, flags) then [evs[0]] else [];
      var spawn := if IsNewChildDir(evs[0].mask) then [evs[0].name] else [];
      assert t == NodeState(false, s.output + fwd, s.spawned + spawn);
      RunOpen(t, evs[1..], flags);
      AppendAssoc(s.output, fwd, Requested(evs[1..], flags));
      AppendAssoc(s.spawned, spawn, NewChildDirs(evs[1..]));
    }
  }

  /** At the first delete-self, at index `k`, the node closes; that event is
      neither forwarded nor spawned on, whatever the caller's flags, and
      nothing after it has any effect. */
  lemma {:induction false} RunUntilDelete(s: NodeState, evs: seq<Event>, k: nat, flags: bv32)
    requires !s.closed && k < |evs|
    requires IsDeleteSelf(evs[k].mask) && NoDeleteSelf(evs[..k])
    ensures Run(s, evs, flags)
         == NodeState(true, s.output + Requested(evs[..k], flags), s.spawned + NewChildDirs(evs[..k]))
  {
    assert evs == evs[..k] + [evs[k]] + evs[k + 1..];
    RunAppend(s, evs[..k] + [evs[k]], evs[k + 1..], flags);
    RunAppend(s, evs[..k], [evs[k]], flags);
    RunOpen(s, evs[..k], flags);
    var closed := Run(s, evs[..k] + [evs[k]], flags);
    assert closed.closed;
    RunAfterClose(closed, evs[k + 1..], flags);
  }

  /** Filtering distributes over concatenation: events keep their arrival
      order. */
  lemma {:induction false} RequestedAppend(a: seq<Event>, b: seq<Event>, flags: bv32)
    ensures Requested(a + b, flags) == Requested(a, flags) + Requested(b, flags)
    decreases |a|
  {
    if a == [] {
      assert a + b == b;
    } else {
      assert (a + b)[0] == a[0] && (a + b)[1..] == a[1..] + b;
      RequestedAppend(a[1..], b, flags);
    }
  }

  /** The filtered events are exactly the requested events of the input. */
  lemma {:induction false} RequestedMembers(evs: seq<Event>, flags: bv32, e: Event)
    ensures e in Requested(evs, flags) <==> e in evs && IsRequested(e.mask, flags)
    decreases |evs|
  {
    if evs != [] {
      RequestedMembers(evs[1..], flags, e);
      assert evs == [evs[0]] + evs[1..];
    }
  }

  /** Whatever the events, a node only ever adds to its output events that
      meet the caller's flags and are not delete-self events. */
  lemma {:induction false} OutputOnlyRequested(s: NodeState, evs: seq<Event>, flags: bv32)
    requires !s.closed
    ensures |s.output| <= |Run(s, evs, flags).output|
    ensures Run(s, evs, flags).output[..|s.output|] == s.output
    ensures forall e :: e in Run(s, evs, flags).output[|s.output|..] ==>
      e in evs && IsRequested(e.mask, flags) && !IsDeleteSelf(e.mask)
    decreases |evs|
  {
    if evs != [] {
      var t := Step(s, evs[0], flags);
      if t.closed {
        RunAfterClose(t, evs[1..], flags);
        assert Run(s, evs, flags).output[|s.output|..] == [];
      } else {
        var fwd := if IsRequested(evs[0].mask, flags) then [evs[0]] else [];
        assert t.output == s.output + fwd;
        OutputOnlyRequested(t, evs[1..], flags);
        var out := Run(t, evs[1..], flags).output;
        assert out[..|s.output|] == s.output;
        assert out[|s.output|..] == fwd + out[|t.output|..];
        forall e | e in out[|s.output|..]
          ensures e in evs && IsRequested(e.mask, flags) && !IsDeleteSelf(e.mask)
        {
          if e !in fwd {
            assert e in evs[1..];
          }
        }
      }
    }
  }

  // ---------------------------------------------------------------------
  // A watch node with its state updated in place
  // ---------------------------------------------------------------------

  /** One running watch: the path, the caller's flags, the mask registered
      for the path, and what the node has done so far. */
  class WatchNode {
    const path: string
    const flags: bv32
    const registered: bv32
    var closed: bool
    var output: seq<Event>
    var spawned: seq<string>

    function State(): NodeState
      reads this
    {
      NodeState(closed, output, spawned)
    }

    /** Registers the watch: the registration carries the caller's flags
        and the required ones; nothing has been output or spawned yet. */
    constructor (fsPath: string, callerFlags: bv32)
      ensures path == fsPath && flags == callerFlags
      ensures registered == RegistrationMask(callerFlags)
      ensures !closed && output == [] && spawned == []
    {
      path := fsPath;
      flags := callerFlags;
      registered := callerFlags | RequiredFlags;
      closed := false;
      output := [];
      spawned := [];
    }

    /** The pump's handling of one event. Delete-self takes precedence:
        it closes the node and nothing else happens. Otherwise a new child
        directory gets a child watch, and the event is forwarded when it
        meets the caller's flags. */
    method Handle(ev: Event)
      requires !closed
      modifies this`closed, this`output, this`spawned
      ensures State() == Step(old(State()), ev, flags)
      ensures closed <==> IsDeleteSelf(ev.mask)
      ensures closed ==> output == old(output) && spawned == old(spawned)
      ensures !closed ==>
        spawned == old(spawned) + (if IsNewChildDir(ev.mask) then [ev.name] else [])
      ensures !closed ==>
        output == old(output) + (if IsRequested(ev.mask, flags) then [ev] else [])
    {
      if IsDeleteSelf(ev.mask) {
        closed := true;
        return;
      } else if IsNewChildDir(ev.mask) {
        spawned := spawned + [ev.name];
      }
      if IsRequested(ev.mask, flags) {
        output := output + [ev];
      }
    }

    /** The pump loop over the events that arrive for this path. It stops
        at the first delete-self, which is the last event it consumes;
        otherwise it consumes all of them and the node stays open. */
    method Pump(events: seq<Event>) returns (consumed: nat)
      requires !closed
      modifies this`closed, this`output, this`spawned
      ensures consumed <= |events|
      ensures State() == Run(old(State()), events, flags)
      ensures State() == Run(old(State()), events[..consumed], flags)
      ensures closed <==> 0 < consumed && IsDeleteSelf(events[consumed - 1].mask)
      ensures !closed ==> consumed == |events|
      ensures NoDeleteSelf(events[..consumed - (if closed then 1 else 0)])
    {
      var i := 0;
      while i < |events| && !closed
        invariant i <= |events|
        invariant State() == Run(old(State()), events[..i], flags)
        invariant closed <==> 0 < i && IsDeleteSelf(events[i - 1].mask)
        invariant NoDeleteSelf(events[..i - (if closed then 1 else 0)])
      {
        ghost var before := State();
        Handle(events[i]);
        assert events[..i + 1] == events[..i] + [events[i]];
        RunAppend(old(State()), events[..i], [events[i]], flags);
        assert Run(before, [events[i]], flags) == Step(before, events[i], flags);
        if !closed {
          assert events[..i + 1][..i + 1] == events[..i] + [events[i]];
        }
        i := i + 1;
      }
      consumed := i;
      assert events == events[..i] + events[i..];
      RunAppend(old(State()), events[..i], events[i..], flags);
      if closed {
        RunAfterClose(State(), events[i..], flags);
      }
    }

    /** The start-up scan: a directory gets one child watch per listed
        entry, files included, in listing order; anything else gets none. */
    method Bootstrap(isDir: bool, listing: seq<string>)
      modifies this`spawned
      ensures spawned == old(spawned) + (if isDir then ChildPaths(path, listing) else [])
    {
      if isDir {
        for i := 0 to |listing|
          invariant spawned == old(spawned) + ChildPaths(path, listing[..i])
        {
          assert ChildPaths(path, listing[..i + 1]) == ChildPaths(path, listing[..i]) + [Join(path, listing[i])];
          spawned := spawned + [Join(path, listing[i])];
        }
        assert listing[..|listing|] == listing;
      }
    }

    /** Relays a child's output into this node's output, unchanged and in
        order, until the child's stream ends. */
    method Forward(child: seq<Event>)
      requires !closed
      modifies this`output
      ensures output == old(output) + child
    {
      for i := 0 to |child|
        invariant output == old(output) + child[..i]
      {
        assert child[..i + 1] == child[..i] + [child[i]];
        output := output + [child[i]];
      }
      assert child[..|child|] == child;
    }
  }

  /** One node's life, with its concurrency made sequential: register the
      watch, scan the directory's entries, then pump the events that arrive
      for the path. */
  method Watch(fsPath: string, flags: bv32, isDir: bool, listing: seq<string>, events: seq<Event>)
    returns (node: WatchNode)
    ensures fresh(node)
    ensures node.path == fsPath && node.flags == flags
    ensures node.registered == RegistrationMask(flags)
    ensures node.State() == Run(NodeState(false, [], if isDir then ChildPaths(fsPath, listing) else []), events, flags)
  {
    node := new WatchNode(fsPath, flags);
    node.Bootstrap(isDir, listing);
    assert node.State() == NodeState(false, [], if isDir then ChildPaths(fsPath, listing) else []);
    var _ := node.Pump(events);
  }
}
