# rinotify: recursive inotify watching, modelled in Dafny

`rinotify` watches a path and, recursively, every directory below it. It
merges all their inotify events into one stream. Each watched path is one
watch node. The node registers an inotify watch with the caller's flags and
three extra flags that the recursion needs: `IN_ISDIR`, `IN_CREATE` and
`IN_DELETE_SELF`. It then pumps the path's events in arrival order:

- a delete-self event closes the node's output and ends the pump;
- otherwise, a "created directory" event (create and is-directory both set)
  starts a child watch on the new path;
- otherwise, and also for that creation event, the event goes to the output
  when its mask shares a bit with the caller's flags.

When the node is set up on a directory, it also starts one child watch for
each entry the directory already holds, in listing order. A forwarder copies
each child's output into its parent's output until the child's stream ends.

The model replaces the goroutines and channels with explicit finite
sequences. A node's incoming events, the directory listing and a child's
output stream are all sequences.

- `inotify.dfy` (module `Inotify`) holds the inotify flag values of
  inotify(7) as named constants: `IN_CREATE = 0x100`,
  `IN_DELETE_SELF = 0x400` and `IN_ISDIR = 0x40000000`. It also holds the
  event record (path and 32-bit mask) and a bit-level reading of masks.
  `BitSet(m, k)` says that bit `k` of `m` is set. The watcher's bitwise tests
  are specified against it.
- `rinotify.dfy` (module `Rinotify`) holds the registration mask and the
  three event tests as functions. It also holds the pump as a state machine:
  `Step` handles one event and `Run` folds `Step` over a sequence of events.
  Lemmas characterise `Run`. The class `WatchNode` has the fields `closed`,
  `output` and `spawned`. Its methods `Handle`, `Pump`, `Bootstrap` and
  `Forward` update those fields in place, and each is proved against the
  specification functions.

## Model

| member | source | states |
|---|---|---|
| `Rinotify.RegistrationMask` | rinotify.go:30 | bit k of the registered mask is set iff it is set in the caller's flags or k is the create, delete-self or is-directory bit, so the caller's bits and the three required bits are all present and no other bit is |
| `Inotify.FlagsAreSingleBits` | rinotify.go:12 | each of `IN_CREATE`, `IN_DELETE_SELF` and `IN_ISDIR` is exactly one bit: bit 8, bit 10 and bit 30 |
| `Rinotify.IsDeleteSelf` | rinotify.go:83-85 | true iff the delete-self bit (bit 10) of the mask is set |
| `Rinotify.IsNewChildDir` | rinotify.go:87-90 | true iff both the create bit and the is-directory bit are set; either bit alone gives false |
| `Rinotify.IsRequested` | rinotify.go:54 | the unsigned test `mask & flags > 0` holds iff some bit is set in both the event mask and the caller's flags |
| `Inotify.AndNonZero` | rinotify.go:54 | a bitwise and of two masks is non-zero iff the two masks share a set bit |
| `Rinotify.WatchNode.constructor` | rinotify.go:21-33 | a new node records its path and the caller's flags, registers with `RegistrationMask(flags)`, and starts open with empty output and no child watches |
| `Rinotify.WatchNode.Handle` | rinotify.go:41-56 | delete-self takes precedence: it closes the node and leaves output and spawned unchanged, even when the caller asked for delete-self events; otherwise the node stays open, one spawn for the event's path is appended iff create and is-directory are both set, and the event is appended to the output iff its mask shares a bit with the flags |
| `Rinotify.WatchNode.Pump` | rinotify.go:35-62 | the loop leaves the node in the state `Run` gives for the whole event sequence and for the consumed prefix; it stops right after the first delete-self, which is then the last consumed event, and otherwise consumes every event and stays open |
| `Rinotify.RunAppend` | rinotify.go:36-39 | pumping two batches of events one after the other is the same as pumping their concatenation, so events are handled one at a time in arrival order |
| `Rinotify.RunAfterClose` | rinotify.go:41-46 | once a node is closed, no later event changes its closed flag, its output or its spawned list |
| `Rinotify.RunOpen` | rinotify.go:47-56 | over events with no delete-self, the node stays open; its output gains exactly the events whose mask meets the flags, and its spawned list gains exactly the paths of the created-directory events, both in arrival order |
| `Rinotify.RunUntilDelete` | rinotify.go:41-46 | if the first delete-self is at index k, the node ends closed with the output and spawned list of the first k events; the delete-self event and all later events add nothing |
| `Rinotify.RequestedAppend` | rinotify.go:54-55 | filtering by the caller's flags distributes over concatenation, so forwarded events keep their arrival order |
| `Rinotify.RequestedMembers` | rinotify.go:54-55 | an event is among the filtered events iff it is an input event whose mask meets the flags |
| `Rinotify.OutputOnlyRequested` | rinotify.go:41-56 | pumping never removes or reorders the earlier output; every event it adds is an incoming event that meets the flags and is not a delete-self |
| `Rinotify.ChildPaths` | rinotify.go:75-77 | one path per listed entry, in listing order, and the i-th path is the directory joined with the i-th entry name |
| `Rinotify.WatchNode.Bootstrap` | rinotify.go:70-78 | for a directory, the spawned list gains `ChildPaths(path, listing)`: one child watch per entry, files included; for a non-directory it is unchanged |
| `Rinotify.WatchNode.Forward` | rinotify.go:93-97 | the parent's output gains exactly the child's events, unchanged and in order, and the relay ends when the child's stream ends |
| `Rinotify.Watch` | rinotify.go:21-80 | a fresh node registered with `RegistrationMask(flags)`, whose state is the pump run over the events, starting open with no output and with the bootstrap's child paths as its spawned list |

## Left out

- Registering and removing the inotify watch (`inotify.NewWatcher`, `AddWatch`, `watcher.Close`) are calls into a package that is not part of this model. The constructor records the mask passed to `AddWatch` in the field `registered`, and closing is the `closed` flag.
- Filesystem access (`os.Stat`, `ioutil.ReadDir`) is not modelled. `Bootstrap` takes "is a directory" and the listing as parameters.
- Goroutines, `select`, channel buffering (`eventBufferSize`) and backpressure are not modelled. The interleaving of a node's own events with its children's forwarded events is not modelled either. Each stream is a given sequence, so the model says nothing about cross-branch order.
- The recursion across nodes is not modelled as a tree. The model records each spawned child path in `spawned`. Each child is itself a `WatchNode`, and `Forward` relays its output into the parent.
- The `watcher.Error` branch and every `panic` are not modelled. The program aborts on these paths and returns no value.
- `Join` is plain concatenation with a `/` separator. It leaves out the lexical clean-up that Go's `path.Join` performs.
- The event's `Cookie` field is not modelled. The watcher never reads it.
- Rinotify.Watch: runs the bootstrap scan to completion before the pump. In the program the pump goroutine starts first and runs concurrently with the scan, so entries in `spawned` from the two sources may interleave differently.
- Rinotify.WatchNode.Pump: processes a finite sequence and returns when it runs out, leaving the node open. The program's loop instead blocks and waits for further events.
- Rinotify.WatchNode.Forward: requires the parent to be open. In Go a send on a closed channel panics, and the program does nothing to prevent a child's relay from outliving its parent.
- rinotify_test.go is not part of this model. It calls `RecursivelyWatch` with two arguments, but the function takes three.
