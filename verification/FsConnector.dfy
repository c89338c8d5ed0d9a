/** The filesystem connector: the capabilities it declares and the lazily started watcher. */
module FsConnectorObject {
  import opened Prelude
  import opened FsResolve
  import opened FsAllowlist
  import opened HandlerList
  import opened SubscriptionIds

  datatype FilesystemConfig = FilesystemConfig(watchPaths: seq<Path>, readPaths: seq<Path>, writePaths: seq<Path>)

  // ---------------------------------------------------------------- declared capabilities

  datatype Capability =
    | FilesystemRead(path: Path)
    | FilesystemWrite(path: Path)

  function Reads(paths: seq<Path>): seq<Capability> {
    seq(|paths|, i requires 0 <= i < |paths| => FilesystemRead(paths[i]))
  }

  function Writes(paths: seq<Path>): seq<Capability> {
    seq(|paths|, i requires 0 <= i < |paths| => FilesystemWrite(paths[i]))
  }

  /** The first mentions of paths in `paths` that `seen` does not hold, in order. */
  function FirstMentions(paths: seq<Path>, seen: set<Path>): seq<Path> {
    if paths == [] then []
    else if paths[0] in seen then FirstMentions(paths[1..], seen)
    else [paths[0]] + FirstMentions(paths[1..], seen + {paths[0]})
  }

  lemma {:induction false} FirstMentionsExact(paths: seq<Path>, seen: set<Path>)
    ensures forall p :: p in FirstMentions(paths, seen) <==> p in paths && p !in seen
    ensures |FirstMentions(paths, seen)| == |(set p | p in paths) - seen|
  {
    if paths != [] {
      var p, rest := paths[0], paths[1..];
      FirstMentionsExact(rest, if p in seen then seen else seen + {p});
      CountFirst(paths, seen);
    }
  }

  /** The first path counts if it was not seen before. */
  lemma CountFirst(paths: seq<Path>, seen: set<Path>)
    requires paths != []
    ensures var p, all, tail := paths[0], (set q | q in paths), (set q | q in paths[1..]);
            && (p in seen ==> all - seen == tail - seen)
            && (p !in seen ==> |all - seen| == |tail - (seen + {p})| + 1)
  {
    var p, all, tail := paths[0], (set q | q in paths), (set q | q in paths[1..]);
    assert all == tail + {p};
    if p !in seen {
      assert all - seen == (tail - (seen + {p})) + {p};
    }
  }

  lemma {:induction false} FirstMentionsAppend(paths: seq<Path>, p: Path, seen: set<Path>)
    ensures FirstMentions(paths + [p], seen) ==
            if p in seen || p in paths then FirstMentions(paths, seen) else FirstMentions(paths, seen) + [p]
  {
    if paths == [] {
      assert paths + [p] == [p] && [p][1..] == [];
    } else {
      var q := paths[0];
      assert (paths + [p])[1..] == paths[1..] + [p];
      assert p in paths <==> p == q || p in paths[1..];
      FirstMentionsAppend(paths[1..], p, if q in seen then seen else seen + {q});
    }
  }

  /** The capabilities a configuration calls for: all read paths, the watch paths not among them, then all
      write paths. */
  function Capabilities(config: FilesystemConfig): seq<Capability> {
    Reads(config.readPaths)
    + Reads(FirstMentions(config.watchPaths, set p | p in config.readPaths))
    + Writes(config.writePaths)
  }

  /** `config_capabilities`. */
  method ConfigCapabilities(config: FilesystemConfig) returns (capabilities: seq<Capability>)
    ensures capabilities == Capabilities(config)
  {
    capabilities := [];
    var readList, watchList, writeList := config.readPaths, config.watchPaths, config.writePaths;
    for i := 0 to |readList|
      invariant capabilities == Reads(readList[..i])
    {
      capabilities := capabilities + [FilesystemRead(readList[i])];
      assert readList[..i+1] == readList[..i] + [readList[i]];
    }
    assert readList[..|readList|] == readList;
    ghost var declared := set p | p in readList;
    for i := 0 to |watchList|
      invariant capabilities == Reads(readList) + Reads(FirstMentions(watchList[..i], declared))
    {
      assert watchList[..i+1] == watchList[..i] + [watchList[i]];
      OneMoreWatch(readList, watchList[..i], watchList[i]);
      if FilesystemRead(watchList[i]) !in capabilities {
        capabilities := capabilities + [FilesystemRead(watchList[i])];
      }
    }
    assert watchList[..|watchList|] == watchList;
    ghost var readCapabilities := capabilities;
    for i := 0 to |writeList|
      invariant capabilities == readCapabilities + Writes(writeList[..i])
    {
      capabilities := capabilities + [FilesystemWrite(writeList[i])];
      assert writeList[..i+1] == writeList[..i] + [writeList[i]];
    }
    assert writeList[..|writeList|] == writeList;
  }

  lemma ReadsMember(paths: seq<Path>, p: Path)
    ensures FilesystemRead(p) in Reads(paths) <==> p in paths
  {
    if p in paths {
      var i :| 0 <= i < |paths| && paths[i] == p;
      assert Reads(paths)[i] == FilesystemRead(p);
    }
  }

  lemma DeclaredIff(readList: seq<Path>, watchList: seq<Path>, p: Path)
    ensures var declared := set q | q in readList;
            FilesystemRead(p) in Reads(readList) + Reads(FirstMentions(watchList, declared)) <==>
              p in declared || p in watchList
  {
    var declared := set q | q in readList;
    ReadsMember(readList, p);
    ReadsMember(FirstMentions(watchList, declared), p);
    FirstMentionsExact(watchList, declared);
  }

  /** One more watch path adds an entry exactly when none is there yet. */
  lemma OneMoreWatch(readList: seq<Path>, watchList: seq<Path>, p: Path)
    ensures var declared := set q | q in readList;
            var before := Reads(readList) + Reads(FirstMentions(watchList, declared));
            Reads(readList) + Reads(FirstMentions(watchList + [p], declared)) ==
            if FilesystemRead(p) in before then before else before + [FilesystemRead(p)]
  {
    var declared := set q | q in readList;
    FirstMentionsAppend(watchList, p, declared);
    DeclaredIff(readList, watchList, p);
    ReadsAppend(FirstMentions(watchList, declared), p);
  }

  lemma ReadsAppend(paths: seq<Path>, p: Path)
    ensures Reads(paths + [p]) == Reads(paths) + [FilesystemRead(p)]
  {
  }

  /** The declared capabilities are exact: reading is declared for the read and watch paths and nothing else,
      writing for the write paths. */
  lemma CapabilitiesExact(config: FilesystemConfig)
    ensures var capabilities := Capabilities(config);
            && (forall p :: FilesystemRead(p) in capabilities <==> p in config.readPaths || p in config.watchPaths)
            && (forall p :: FilesystemWrite(p) in capabilities <==> p in config.writePaths)
  {
    forall p
      ensures FilesystemRead(p) in Capabilities(config) <==> p in config.readPaths || p in config.watchPaths
    {
      DeclaredIff(config.readPaths, config.watchPaths, p);
    }
    forall p
      ensures FilesystemWrite(p) in Capabilities(config) <==> p in config.writePaths
    {
      WritesMember(config.writePaths, p);
    }
  }

  lemma WritesMember(paths: seq<Path>, p: Path)
    ensures FilesystemWrite(p) in Writes(paths) <==> p in paths
  {
    if p in paths {
      var i :| 0 <= i < |paths| && paths[i] == p;
      assert Writes(paths)[i] == FilesystemWrite(p);
    }
  }

  /** The watch paths that are not read paths anyway. */
  ghost function NewWatches(config: FilesystemConfig): set<Path> {
    (set p | p in config.watchPaths) - (set p | p in config.readPaths)
  }

  lemma Thirds<T>(a: seq<T>, b: seq<T>, c: seq<T>)
    ensures var s := a + b + c;
            |s| == |a| + |b| + |c| && s[..|a|] == a && s[|a|..|a| + |b|] == b && s[|a| + |b|..] == c
  {
  }

  /** The order is reads, new watches, writes, and each new watch path has exactly one entry. */
  lemma CapabilitiesOrdered(config: FilesystemConfig)
    ensures var capabilities, n, m := Capabilities(config), |config.readPaths|, |NewWatches(config)|;
            && |capabilities| == n + m + |config.writePaths|
            && capabilities[..n] == Reads(config.readPaths)
            && capabilities[n + m..] == Writes(config.writePaths)
            && forall p :: FilesystemRead(p) in capabilities[n..n + m] <==> p in NewWatches(config)
  {
    var declared := set p | p in config.readPaths;
    var news := FirstMentions(config.watchPaths, declared);
    FirstMentionsExact(config.watchPaths, declared);
    Thirds(Reads(config.readPaths), Reads(news), Writes(config.writePaths));
    forall p
      ensures FilesystemRead(p) in Reads(news) <==> p in NewWatches(config)
    {
      ReadsMember(news, p);
    }
  }

  // ---------------------------------------------------------------- allowed means declared

  ghost predicate IsReadAllowed(config: FilesystemConfig, fs: FileSystem, p: Path) {
    Within(fs, p, config.readPaths)
  }

  ghost predicate IsWriteAllowed(config: FilesystemConfig, fs: FileSystem, p: Path) {
    Within(fs, p, config.writePaths)
  }

  ghost predicate IsWatchAllowed(config: FilesystemConfig, fs: FileSystem, p: Path) {
    Within(fs, p, config.watchPaths)
  }

  /** The decided location of `p` is at or below the location of a path that a capability declares. */
  ghost predicate IsDeclared(fs: FileSystem, p: Path, capabilities: seq<Capability>, write: bool) {
    Candidate(fs, p).Some? && exists c | c in capabilities ::
      && c.FilesystemWrite? == write && Resolve(fs, c.path).Some?
      && IsAtOrBelow(Resolve(fs, c.path).value, Candidate(fs, p).value)
  }

  lemma AllowedIsDeclaredBy(config: FilesystemConfig, fs: FileSystem, p: Path, e: Path, write: bool)
    requires Candidate(fs, p).Some? && Resolve(fs, e).Some?
    requires IsAtOrBelow(Resolve(fs, e).value, Candidate(fs, p).value)
    requires if write then e in config.writePaths else e in config.readPaths || e in config.watchPaths
    ensures IsDeclared(fs, p, Capabilities(config), write)
  {
    CapabilitiesExact(config);
    var c := if write then FilesystemWrite(e) else FilesystemRead(e);
    assert c in Capabilities(config) && c.path == e;
  }

  /** Whatever the connector reads, watches or writes lies below a path it declared for that; writing is allowed exactly
      where it is declared, and reading or watching together exactly where reading is. */
  lemma AllowedIffDeclared(config: FilesystemConfig, fs: FileSystem, p: Path)
    ensures IsDeclared(fs, p, Capabilities(config), false) <==>
              IsReadAllowed(config, fs, p) || IsWatchAllowed(config, fs, p)
    ensures IsDeclared(fs, p, Capabilities(config), true) <==> IsWriteAllowed(config, fs, p)
  {
    WithinIff(fs, p, config.readPaths);
    WithinIff(fs, p, config.watchPaths);
    WithinIff(fs, p, config.writePaths);
    CapabilitiesExact(config);
    if Candidate(fs, p).Some? {
      var loc := Candidate(fs, p).value;
      forall e | Resolve(fs, e).Some? && IsAtOrBelow(Resolve(fs, e).value, loc)
        ensures e in config.readPaths || e in config.watchPaths ==> IsDeclared(fs, p, Capabilities(config), false)
        ensures e in config.writePaths ==> IsDeclared(fs, p, Capabilities(config), true)
      {
        if e in config.readPaths || e in config.watchPaths {
          AllowedIsDeclaredBy(config, fs, p, e, false);
        }
        if e in config.writePaths {
          AllowedIsDeclaredBy(config, fs, p, e, true);
        }
      }
      forall c | c in Capabilities(config) && Resolve(fs, c.path).Some? && IsAtOrBelow(Resolve(fs, c.path).value, loc)
        ensures c.FilesystemWrite? ==> IsWriteAllowed(config, fs, p)
        ensures c.FilesystemRead? ==> IsReadAllowed(config, fs, p) || IsWatchAllowed(config, fs, p)
      {
        assert c == if c.FilesystemWrite? then FilesystemWrite(c.path) else FilesystemRead(c.path);
      }
    }
  }

  // ---------------------------------------------------------------- the watcher

  predicate IsValidTrigger(trigger: string) {
    trigger in ["file_created", "file_modified", "file_deleted"]
  }

  /** What happened to a file. */
  datatype EventKind = Created | Modified | Deleted | Accessed | Unspecified | OtherKind

  /** `event_kind_to_trigger`. */
  function EventTrigger(kind: EventKind): Option<string> {
    match kind
    case Created => Some("file_created")
    case Modified => Some("file_modified")
    case Deleted => Some("file_deleted")
    case _ => None
  }

  /** The triggers one can register for are exactly those that some file event fires. */
  lemma ValidIffFires(trigger: string)
    ensures IsValidTrigger(trigger) <==> exists kind :: EventTrigger(kind) == Some(trigger)
    ensures EventTrigger(Created) == Some("file_created")
    ensures EventTrigger(Modified) == Some("file_modified")
    ensures EventTrigger(Deleted) == Some("file_deleted")
  {
    if IsValidTrigger(trigger) {
      assert EventTrigger(Created) == Some(trigger) || EventTrigger(Modified) == Some(trigger)
             || EventTrigger(Deleted) == Some(trigger);
    }
  }

  /** What the operating system answers to one start: whether the watcher can be created, and for each configured
      path whether it can be watched. */
  datatype Os = Os(created: bool, answers: seq<Answer>)

  /** The filesystem as it is when one path is checked, and whether that path can then be watched. */
  datatype Answer = Answer(fs: FileSystem, accepts: bool)

  datatype Task =
    | Rejected
    | Registering(id: nat, trigger: string)
    | Starting(id: nat, trigger: string)
    | Returned(id: nat, trigger: string)
    | StartFailed(id: nat, trigger: string)

  /** `watcher` holds the watched paths once installed, and `installs` counts installations; `pushes` counts the
      callbacks ever registered. */
  datatype State = State(
    nextId: nat,
    tasks: map<nat, Task>,
    callbacks: seq<Handler>,
    watcher: Option<seq<Path>>,
    installs: nat,
    pushes: nat)

  const INIT: State := State(1, map[], [], None, 0, 0)

  datatype Step =
    | Begin(task: nat, trigger: string)
    | Push(task: nat, id: nat, trigger: string)
    | EnsureStarted(task: nat, os: Os)
    | Remove(id: nat)

  predicate Enabled(s: State, step: Step) {
    match step
    case Begin(t, _) => t !in s.tasks
    case Push(t, id, trigger) => t in s.tasks && s.tasks[t] == Registering(id, trigger)
    case EnsureStarted(t, _) => t in s.tasks && s.tasks[t].Starting?
    case Remove(_) => true
  }

  /** Path `i` of the configuration passes the watch allow-list and the operating system watches it. */
  ghost predicate Watchable(config: FilesystemConfig, os: Os, i: nat)
    requires i < |config.watchPaths|
  {
    i < |os.answers| && Within(os.answers[i].fs, config.watchPaths[i], config.watchPaths) && os.answers[i].accepts
  }

  ghost predicate StartSucceeds(config: FilesystemConfig, os: Os) {
    os.created && forall i | 0 <= i < |config.watchPaths| :: Watchable(config, os, i)
  }

  ghost function Apply(config: FilesystemConfig, s: State, step: Step): State
    requires Enabled(s, step)
  {
    match step
    case Begin(t, trigger) =>
      if !IsValidTrigger(trigger) then s.(tasks := s.tasks[t := Rejected])
      else s.(tasks := s.tasks[t := Registering(s.nextId, trigger)], nextId := NextCounter(s.nextId))
    case Push(t, id, trigger) =>
      s.(callbacks := s.callbacks + [Handler(id, trigger)], pushes := s.pushes + 1,
         tasks := s.tasks[t := Starting(id, trigger)])
    case EnsureStarted(t, os) =>
      var task := s.tasks[t];
      if s.watcher.Some? then s.(tasks := s.tasks[t := Returned(task.id, task.trigger)])
      else if StartSucceeds(config, os) then
        s.(tasks := s.tasks[t := Returned(task.id, task.trigger)],
           watcher := Some(config.watchPaths), installs := s.installs + 1)
      else s.(tasks := s.tasks[t := StartFailed(task.id, task.trigger)])
    case Remove(id) => s.(callbacks := Retain(s.callbacks, id))
  }

  ghost function Exec(config: FilesystemConfig, run: seq<Step>): Option<State> {
    if run == [] then Some(INIT)
    else
      match Exec(config, run[..|run|-1])
      case None => None
      case Some(s) =>
        var step := run[|run|-1];
        if Enabled(s, step) then Some(Apply(config, s, step)) else None
  }

  ghost predicate Invariant(config: FilesystemConfig, s: State) {
    && (s.watcher.None? <==> s.installs == 0) && s.installs <= 1
    && (s.watcher.Some? ==> s.watcher.value == config.watchPaths && s.pushes > 0)
    && (forall t | t in s.tasks && (s.tasks[t].Starting? || s.tasks[t].Returned? || s.tasks[t].StartFailed?) ::
          s.pushes > 0)
    && (forall t | t in s.tasks && s.tasks[t].Returned? :: s.watcher.Some?)
  }

  lemma {:induction false} InvariantHolds(config: FilesystemConfig, run: seq<Step>)
    requires Exec(config, run).Some?
    ensures Invariant(config, Exec(config, run).value)
  {
    if run != [] {
      InvariantHolds(config, run[..|run|-1]);
    }
  }

  /** In every reachable state the watcher is absent or covers every configured watch path in order; it is installed
      at most once, never partially, only after some callback was registered, and before any registration returns. */
  lemma WatcherAllOrNothing(config: FilesystemConfig, run: seq<Step>)
    requires Exec(config, run).Some?
    ensures var s := Exec(config, run).value;
            && s.installs <= 1
            && (s.watcher.Some? ==> s.watcher == Some(config.watchPaths) && s.installs == 1 && s.pushes > 0)
            && (s.watcher.None? ==> s.installs == 0)
            && (forall t | t in s.tasks && s.tasks[t].Returned? :: s.watcher.Some?)
  {
    InvariantHolds(config, run);
  }

  // ---------------------------------------------------------------- which callbacks stay

  /** What a step does with ids. */
  function IdEventOf(step: Step): IdEvent {
    match step
    case Begin(t, trigger) => if IsValidTrigger(trigger) then Draws(t) else Neither
    case Push(t, id, _) => Pushes(t, id)
    case _ => Neither
  }

  /** The ids in the hands of calls that have not pushed yet. */
  ghost function Held(s: State): map<nat, nat> {
    map t | t in s.tasks && s.tasks[t].Registering? :: s.tasks[t].id
  }

  /** What a step does to the held ids. */
  lemma StepHeld(config: FilesystemConfig, s: State, step: Step)
    requires Enabled(s, step)
    ensures var h, s' := Holding(s.nextId, Held(s)), Apply(config, s, step);
            Allows(h, IdEventOf(step)) && After(h, IdEventOf(step)) == Holding(s'.nextId, Held(s'))
  {
    var s' := Apply(config, s, step);
    assert Held(s') ==
           match step
           case Begin(t, trigger) => if IsValidTrigger(trigger) then Held(s)[t := s.nextId] else Held(s)
           case Push(t, _, _) => Held(s) - {t}
           case _ => Held(s);
  }

  lemma ExecLast(config: FilesystemConfig, run: seq<Step>)
    requires run != [] && Exec(config, run).Some?
    ensures var before := Exec(config, run[..|run|-1]);
            && before.Some? && Enabled(before.value, run[|run|-1])
            && Exec(config, run).value == Apply(config, before.value, run[|run|-1])
  {
  }

  /** Every run draws, holds and pushes ids as the counter's discipline demands. */
  lemma {:induction false} RunFollows(config: FilesystemConfig, run: seq<Step>)
    requires Exec(config, run).Some?
    ensures var s := Exec(config, run).value; Follow(run, IdEventOf) == Some(Holding(s.nextId, Held(s)))
  {
    if run != [] {
      ExecLast(config, run);
      RunFollows(config, run[..|run|-1]);
      StepHeld(config, Exec(config, run[..|run|-1]).value, run[|run|-1]);
    }
  }

  /** One step changes the registration of `h` by pushing it or by removing its id. */
  lemma StepCallbacks(config: FilesystemConfig, s: State, step: Step, h: Handler)
    requires Enabled(s, step)
    ensures h in Apply(config, s, step).callbacks <==>
              || (h in s.callbacks && step != Remove(h.id))
              || (step.Push? && h == Handler(step.id, step.trigger))
  {
    if step.Remove? {
      RetainKeeps(s.callbacks, step.id, h);
    }
  }

  /** `run[i]` pushes `h`, and its id is not removed after that. */
  ghost predicate KeptSince(run: seq<Step>, i: nat, h: Handler) {
    && i < |run| && run[i].Push? && h == Handler(run[i].id, run[i].trigger)
    && forall k | i < k < |run| :: run[k] != Remove(h.id)
  }

  lemma KeptSinceLast(run: seq<Step>, i: nat, h: Handler)
    requires run != []
    ensures var before, last := run[..|run|-1], run[|run|-1];
            KeptSince(run, i, h) <==>
              || (KeptSince(before, i, h) && last != Remove(h.id))
              || (i == |run| - 1 && last.Push? && h == Handler(last.id, last.trigger))
  {
    assert forall k | 0 <= k < |run| - 1 :: run[..|run|-1][k] == run[k];
  }

  /** In every run, exactly the callbacks pushed and not removed since are registered. */
  lemma {:induction false} LiveCallbacks(config: FilesystemConfig, run: seq<Step>, h: Handler)
    requires Exec(config, run).Some?
    ensures h in Exec(config, run).value.callbacks <==> exists i: nat :: KeptSince(run, i, h)
  {
    if run != [] {
      var before, last := run[..|run|-1], run[|run|-1];
      ExecLast(config, run);
      StepCallbacks(config, Exec(config, before).value, last, h);
      LiveCallbacks(config, before, h);
      forall i: nat
        ensures KeptSince(run, i, h) <==>
                  || (KeptSince(before, i, h) && last != Remove(h.id))
                  || (i == |run| - 1 && last.Push? && h == Handler(last.id, last.trigger))
      {
        KeptSinceLast(run, i, h);
      }
      assert last.Push? && h == Handler(last.id, last.trigger) ==> KeptSince(run, |run| - 1, h);
    }
  }

  /** No id is pushed twice. */
  lemma PushedOnce(config: FilesystemConfig, run: seq<Step>, i: nat)
    requires Exec(config, run).Some? && Drawn(run, IdEventOf) <= ID_RANGE
    requires i < |run| - 1 && run[i].Push?
    ensures var last := run[|run|-1]; last.Push? ==> last.id != run[i].id
  {
    var before := run[..|run|-1];
    assert before[i] == run[i];
    RunFollows(config, run);
    PushIsFresh(run, IdEventOf);
    PushedAt(before, IdEventOf, i);
  }

  /** In every run, a pushed callback is registered exactly as long as its id is not removed. */
  lemma {:induction false} RegisteredUntilRemoved(config: FilesystemConfig, run: seq<Step>, i: nat)
    requires Exec(config, run).Some? && Drawn(run, IdEventOf) <= ID_RANGE
    requires i < |run| && run[i].Push?
    ensures Handler(run[i].id, run[i].trigger) in Exec(config, run).value.callbacks <==>
              forall k | i < k < |run| :: run[k] != Remove(run[i].id)
    decreases |run|
  {
    var before, last := run[..|run|-1], run[|run|-1];
    var h := Handler(run[i].id, run[i].trigger);
    ExecLast(config, run);
    StepCallbacks(config, Exec(config, before).value, last, h);
    if i < |run| - 1 {
      assert before[i] == run[i] && forall k | i < k < |before| :: before[k] == run[k];
      PushedOnce(config, run, i);
      RegisteredUntilRemoved(config, before, i);
    }
  }

  /** Every call that got past its push has one. */
  lemma {:induction false} PushOf(config: FilesystemConfig, run: seq<Step>, t: nat) returns (i: nat)
    requires Exec(config, run).Some? && t in Exec(config, run).value.tasks
    requires var task := Exec(config, run).value.tasks[t]; task.Starting? || task.Returned? || task.StartFailed?
    ensures i < |run| && var task := Exec(config, run).value.tasks[t]; run[i] == Push(t, task.id, task.trigger)
  {
    var before, last := run[..|run|-1], run[|run|-1];
    ExecLast(config, run);
    if last.Push? && last.task == t {
      i := |run| - 1;
    } else {
      i := PushOf(config, before, t);
    }
  }

  /** Every failed registration attempted a start that failed, after its push. */
  lemma {:induction false} FailureOf(config: FilesystemConfig, run: seq<Step>, t: nat) returns (i: nat, k: nat)
    requires Exec(config, run).Some? && t in Exec(config, run).value.tasks
    requires Exec(config, run).value.tasks[t].StartFailed?
    ensures i < k < |run| && run[k].EnsureStarted? && run[k].task == t && !StartSucceeds(config, run[k].os)
    ensures var task := Exec(config, run).value.tasks[t]; run[i] == Push(t, task.id, task.trigger)
  {
    var before, last := run[..|run|-1], run[|run|-1];
    ExecLast(config, run);
    if last.EnsureStarted? && last.task == t {
      k := |run| - 1;
      i := PushOf(config, before, t);
    } else {
      i, k := FailureOf(config, before, t);
    }
  }

  /** A failed start is never undone: in every run, the callback of a registration that was answered with an error is
      registered exactly as long as its id is not removed. */
  lemma FailedStartKeepsCallback(config: FilesystemConfig, run: seq<Step>, t: nat) returns (i: nat, k: nat)
    requires Exec(config, run).Some? && Drawn(run, IdEventOf) <= ID_RANGE
    requires t in Exec(config, run).value.tasks && Exec(config, run).value.tasks[t].StartFailed?
    ensures i < k < |run| && run[k].EnsureStarted? && run[k].task == t && !StartSucceeds(config, run[k].os)
    ensures var s := Exec(config, run).value;
            var id, trigger := s.tasks[t].id, s.tasks[t].trigger;
            && run[i] == Push(t, id, trigger)
            && (Handler(id, trigger) in s.callbacks <==> forall j | i < j < |run| :: run[j] != Remove(id))
  {
    i, k := FailureOf(config, run, t);
    RegisteredUntilRemoved(config, run, i);
  }

  /** `path` was checked against the watch paths and passed, and was accepted. */
  ghost predicate WasAllowed(config: FilesystemConfig, answer: Answer, path: Path) {
    && answer.accepts && Candidate(answer.fs, path).Some?
    && exists e | e in config.watchPaths ::
         Resolve(answer.fs, e).Some? && IsAtOrBelow(Resolve(answer.fs, e).value, Candidate(answer.fs, path).value)
  }

  /** A start succeeds exactly when the watcher can be created and every configured path passes the check and is
      accepted. */
  lemma StartSucceedsIff(config: FilesystemConfig, os: Os)
    ensures StartSucceeds(config, os) <==>
              && os.created && |config.watchPaths| <= |os.answers|
              && forall i | 0 <= i < |config.watchPaths| :: WasAllowed(config, os.answers[i], config.watchPaths[i])
  {
    var n := |config.watchPaths|;
    if |os.answers| < n {
      assert !Watchable(config, os, |os.answers|);
    } else {
      forall i | 0 <= i < n
        ensures Watchable(config, os, i) <==> WasAllowed(config, os.answers[i], config.watchPaths[i])
      {
        WithinIff(os.answers[i].fs, config.watchPaths[i], config.watchPaths);
      }
    }
  }

  /** A watcher that runs was started by some step of the run, and every path it covers passed the check then. */
  lemma {:induction false} InstalledWasAllowed(config: FilesystemConfig, run: seq<Step>) returns (k: nat)
    requires Exec(config, run).Some? && Exec(config, run).value.watcher.Some?
    ensures k < |run| && run[k].EnsureStarted? && run[k].os.created
    ensures Exec(config, run).value.watcher == Some(config.watchPaths) && |config.watchPaths| <= |run[k].os.answers|
    ensures forall i | 0 <= i < |config.watchPaths| :: WasAllowed(config, run[k].os.answers[i], config.watchPaths[i])
  {
    var before, last := run[..|run|-1], run[|run|-1];
    ExecLast(config, run);
    if Exec(config, before).value.watcher.Some? {
      k := InstalledWasAllowed(config, before);
    } else {
      k := |run| - 1;
      StartSucceedsIff(config, last.os);
    }
  }

  /** Paths that resolve pass their own allow-list, so only the operating system can keep a start from succeeding. */
  lemma ResolvedPathsAreWatchable(config: FilesystemConfig, os: Os)
    requires |os.answers| == |config.watchPaths|
    requires forall i | 0 <= i < |config.watchPaths| :: Resolve(os.answers[i].fs, config.watchPaths[i]).Some?
    ensures StartSucceeds(config, os) <==> os.created && forall i | 0 <= i < |os.answers| :: os.answers[i].accepts
  {
    forall i | 0 <= i < |config.watchPaths|
      ensures Watchable(config, os, i) <==> os.answers[i].accepts
    {
      var fs, p := os.answers[i].fs, config.watchPaths[i];
      assert p in config.watchPaths && Covers(fs, p, Resolve(fs, p).value);
    }
  }

  // ---------------------------------------------------------------- the source's own form

  lemma ExecAppend(config: FilesystemConfig, run: seq<Step>, step: Step)
    requires Exec(config, run).Some? && Enabled(Exec(config, run).value, step)
    ensures Exec(config, run + [step]) == Some(Apply(config, Exec(config, run).value, step))
  {
    assert (run + [step])[..|run|] == run;
  }

  /** Watch every configured path on a new watcher; stop at the first that is refused. */
  method StartWatcher(config: FilesystemConfig, os: Os) returns (watched: Option<seq<Path>>)
    ensures watched == if StartSucceeds(config, os) then Some(config.watchPaths) else None
  {
    if !os.created {
      return None;
    }
    var paths: seq<Path> := [];
    for i := 0 to |config.watchPaths|
      invariant paths == config.watchPaths[..i]
      invariant forall j | 0 <= j < i :: Watchable(config, os, j)
    {
      if i >= |os.answers| {
        assert !Watchable(config, os, i);
        return None;
      }
      var allowed := IsPathWithinAllowlist(os.answers[i].fs, config.watchPaths[i], config.watchPaths);
      if !allowed || !os.answers[i].accepts {
        assert !Watchable(config, os, i);
        return None;
      }
      paths := paths + [config.watchPaths[i]];
    }
    assert config.watchPaths[..|config.watchPaths|] == config.watchPaths;
    return Some(paths);
  }

  /** The connector's lock-guarded fields; `now` is the machine's state after `trace`. */
  class FilesystemConnector {
    const config: FilesystemConfig
    var nextId: nat
    var callbacks: seq<Handler>
    var watcher: Option<seq<Path>>
    ghost var trace: seq<Step>
    ghost var now: State

    ghost predicate Valid()
      reads this
    {
      && Exec(config, trace) == Some(now)
      && nextId == now.nextId && callbacks == now.callbacks && watcher == now.watcher
    }

    constructor (config: FilesystemConfig)
      ensures Valid() && trace == [] && this.config == config
    {
      this.config := config;
      nextId, callbacks, watcher := 1, [], None;
      trace, now := [], INIT;
    }

    ghost method Note(step: Step)
      requires Exec(config, trace) == Some(now) && Enabled(now, step)
      modifies this`trace, this`now
      ensures trace == old(trace) + [step] && now == Apply(config, old(now), step)
      ensures Exec(config, trace) == Some(now)
    {
      ExecAppend(config, trace, step);
      trace, now := trace + [step], Apply(config, now, step);
    }

    /** `ensure_watcher_started`. */
    method EnsureWatcherStarted(task: nat, os: Os) returns (ok: bool)
      requires Valid() && Enabled(now, EnsureStarted(task, os))
      modifies this`watcher, this`trace, this`now
      ensures Valid() && trace == old(trace) + [EnsureStarted(task, os)]
      ensures now == Apply(config, old(now), EnsureStarted(task, os))
      ensures ok <==> old(watcher).Some? || StartSucceeds(config, os)
      ensures watcher == if old(watcher).None? && ok then Some(config.watchPaths) else old(watcher)
    {
      Note(EnsureStarted(task, os));
      if watcher.Some? {
        return true;
      }
      watcher := StartWatcher(config, os);
      ok := watcher.Some?;
    }

    /** `on_event`, up to the id. */
    method TakeId(task: nat, trigger: string) returns (id: Option<nat>)
      requires Valid() && Enabled(now, Begin(task, trigger))
      modifies this`nextId, this`trace, this`now
      ensures Valid() && trace == old(trace) + [Begin(task, trigger)]
      ensures now == Apply(config, old(now), Begin(task, trigger))
      ensures id == if IsValidTrigger(trigger) then Some(old(nextId)) else None
    {
      Note(Begin(task, trigger));
      if !IsValidTrigger(trigger) {
        return None;
      }
      id := Some(nextId);
      nextId := NextCounter(nextId);
    }

    /** `on_event`, the callbacks lock. */
    method PushCallback(task: nat, id: nat, trigger: string)
      requires Valid() && task in now.tasks && now.tasks[task] == Registering(id, trigger)
      modifies this`callbacks, this`trace, this`now
      ensures Valid() && trace == old(trace) + [Push(task, id, trigger)]
      ensures callbacks == old(callbacks) + [Handler(id, trigger)]
      ensures now.tasks == old(now.tasks)[task := Starting(id, trigger)]
    {
      Note(Push(task, id, trigger));
      callbacks := callbacks + [Handler(id, trigger)];
    }

    /** `on_event` up to the watcher. */
    method Register(task: nat, trigger: string) returns (id: Option<nat>)
      requires Valid() && task !in now.tasks
      modifies this`nextId, this`callbacks, this`trace, this`now
      ensures Valid() && old(trace) < trace
      ensures id == if IsValidTrigger(trigger) then Some(old(nextId)) else None
      ensures id.Some? ==> task in now.tasks && now.tasks[task] == Starting(id.value, trigger)
      ensures callbacks == if id.Some? then old(callbacks) + [Handler(id.value, trigger)] else old(callbacks)
    {
      id := TakeId(task, trigger);
      if id.Some? {
        PushCallback(task, id.value, trigger);
      }
    }

    /** A whole `on_event` call that nothing interleaves with: `None` is an error. A failed start still leaves
        the callback registered. */
    method OnEvent(task: nat, trigger: string, os: Os) returns (id: Option<nat>)
      requires Valid() && task !in now.tasks
      modifies this
      ensures Valid() && old(trace) < trace
      ensures id == if IsValidTrigger(trigger) && (old(watcher).Some? || StartSucceeds(config, os))
                    then Some(old(nextId)) else None
      ensures callbacks ==
              if IsValidTrigger(trigger) then old(callbacks) + [Handler(old(nextId), trigger)] else old(callbacks)
      ensures watcher == if old(watcher).None? && id.Some? then Some(config.watchPaths) else old(watcher)
    {
      id := Register(task, trigger);
      if id.Some? {
        var ok := EnsureWatcherStarted(task, os);
        if !ok {
          id := None;
        }
      }
    }

    method RemoveEvent(id: nat)
      requires Valid()
      modifies this`callbacks, this`trace, this`now
      ensures Valid() && trace == old(trace) + [Remove(id)] && now == Apply(config, old(now), Remove(id))
    {
      Note(Remove(id));
      callbacks := RetainHandlers(callbacks, id);
    }
  }
}
