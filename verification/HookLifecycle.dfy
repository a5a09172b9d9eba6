/** Installing, chaining, repairing and uninstalling runner hooks, over the runners' `.env` files and
    the scripts on disk. */
module HookLifecycle {
  import opened Wrappers
  import opened Paths
  import opened EnvFile
  import opened Chain

  datatype Slot = Started | Completed

  /** `.env` texts by runner directory (a directory without one cannot be read), and the text of each
      script by its path. */
  datatype Host = Host(envs: map<string, string>, files: map<Components, string>)

  /** How writing a script went: done, never opened, or broken off after truncating. */
  datatype ScriptWrite = Written | NotOpened | Torn(text: string)

  datatype RevertKind = NotManaged | Fresh | Chained(started: string, completed: string) | Mixed

  datatype RevertAction =
    | Leave
    | Manual
    | Strip(newEnv: string)
    | Restore(newEnv: string, started: string, completed: string)

  // ---------------------------------------------------------------- the code

  function Var(slot: Slot): string {
    if slot.Started? then STARTED_VAR else COMPLETED_VAR
  }

  function OurScript(ourDir: string, slot: Slot): string {
    JoinPath(ourDir, if slot.Started? then "job-started.sh" else "job-completed.sh")
  }

  function WrapperName(r: string, slot: Slot): string {
    if slot.Started? then StartedName(r) else CompletedName(r)
  }

  function WrapperPath(ourDir: string, r: string, slot: Slot): string {
    JoinPath(ourDir, WrapperName(r, slot))
  }

  function EventLog(r: string): string {
    JoinPath(r, ".ghr-stats-events.ndjson")
  }

  function Hook(env: string, slot: Slot): Option<string> {
    EnvValue(env, Var(slot))
  }

  predicate HasName(p: string, ok: string -> bool) {
    FileName(p).Some? && ok(FileName(p).value)
  }

  predicate IsFreshName(name: string) {
    name == "job-started.sh" || name == "job-completed.sh"
  }

  function ClassifyRevert(env: string, ourDir: string): RevertKind {
    var s, c := Hook(env, Started), Hook(env, Completed);
    if s.None? && c.None? then NotManaged
    else if s.Some? && c.Some? then
      if !IsDirectlyIn(s.value, [ourDir]) || !IsDirectlyIn(c.value, [ourDir]) then NotManaged
      else if HasName(s.value, IsChainName) && HasName(c.value, IsChainName) then Chained(s.value, c.value)
      else if HasName(s.value, IsFreshName) && HasName(c.value, IsFreshName) then Fresh
      else Mixed
    else if IsDirectlyIn(if s.Some? then s.value else c.value, [ourDir]) then Mixed
    else NotManaged
  }

  /** The original a wrapper on disk names, if it can be read. */
  function Unwrapped(files: map<Components, string>, path: string): Option<string> {
    if Parse(path) in files then OriginalFromWrapper(files[Parse(path)]) else None
  }

  function PlanAction(env: string, files: map<Components, string>, ourDir: string): RevertAction {
    match ClassifyRevert(env, ourDir)
    case NotManaged => Leave
    case Mixed => Manual
    case Fresh => Strip(Removed(env))
    case Chained(s, c) =>
      var os, oc := Unwrapped(files, s), Unwrapped(files, c);
      if os.Some? && oc.Some? then Restore(Rewritten(env, os.value, oc.value, None), s, c) else Manual
  }

  function AfterWrite(files: map<Components, string>, path: string, text: string, w: ScriptWrite)
    : map<Components, string>
  {
    match w
    case Written => files[Parse(path) := text]
    case NotOpened => files
    case Torn(left) => files[Parse(path) := left]
  }

  function WithEnv(h: Host, r: string, env: string, ok: bool): Host {
    if ok then h.(envs := h.envs[r := env]) else h
  }

  function Installed(h: Host, ourDir: string, r: string, envOk: bool): Host {
    if r !in h.envs || Hook(h.envs[r], Started).Some? || Hook(h.envs[r], Completed).Some? then h
    else
      WithEnv(h, r, Rewritten(h.envs[r], OurScript(ourDir, Started), OurScript(ourDir, Completed), Some(EventLog(r))),
          envOk)
  }

  function SlotOf(h: Host, ourDir: string, r: string, slot: Slot): SlotPlan
    requires r in h.envs
  {
    PlanChainSlot(Hook(h.envs[r], slot), OurScript(ourDir, slot), WrapperPath(ourDir, r, slot))
  }

  /** The files after writing one slot's wrapper, if it has one. */
  function AfterSlot(files: map<Components, string>, plan: SlotPlan, w: ScriptWrite): map<Components, string> {
    if plan.wrapper.Some? then AfterWrite(files, plan.target, plan.wrapper.value, w) else files
  }

  function ChainedHost(h: Host, ourDir: string, r: string, ws: ScriptWrite, wc: ScriptWrite, envOk: bool): Host {
    if r !in h.envs then h
    else
      var s, c := SlotOf(h, ourDir, r, Started), SlotOf(h, ourDir, r, Completed);
      var one := h.(files := AfterSlot(h.files, s, ws));
      if s.wrapper.Some? && !ws.Written? then one
      else
        var two := one.(files := AfterSlot(one.files, c, wc));
        if c.wrapper.Some? && !wc.Written? then two
        else WithEnv(two, r, Rewritten(h.envs[r], s.target, c.target, Some(EventLog(r))), envOk)
  }

  function Repaired(h: Host, r: string, envOk: bool): Host {
    if r !in h.envs || WithEventLog(h.envs[r], EventLog(r)).None? then h
    else WithEnv(h, r, WithEventLog(h.envs[r], EventLog(r)).value, envOk)
  }

  function Without(files: map<Components, string>, path: string, removed: bool): map<Components, string> {
    if removed then files - {Parse(path)} else files
  }

  /** Carrying a plan out; `removed` says which of the two wrapper files could be deleted. */
  function Reverted(h: Host, r: string, action: RevertAction, envOk: bool, removed: (bool, bool)): Host {
    match action
    case Leave => h
    case Manual => h
    case Strip(env) => WithEnv(h, r, env, envOk)
    case Restore(env, s, c) =>
      if envOk then Host(h.envs[r := env], Without(Without(h.files, s, removed.0), c, removed.1)) else h
  }

  function Uninstalled(h: Host, ourDir: string, r: string, envOk: bool, removed: (bool, bool)): Host {
    if r !in h.envs then h else Reverted(h, r, PlanAction(h.envs[r], h.files, ourDir), envOk, removed)
  }

  /** One runner's turn in the installer: what it does depends on what it finds, and on the answer it gets. */
  function Applied(h: Host, ourDir: string, r: string, c: Choice): Host {
    if r !in h.envs then h
    else match Classify(h.envs[r], [ourDir])
      case Ours => Repaired(h, r, c.envOk)
      case Unset => if c.accept then Installed(h, ourDir, r, c.envOk) else h
      case Foreign => if c.accept then ChainedHost(h, ourDir, r, c.started, c.completed, c.envOk) else h
  }

  /** The answer to a runner's prompt, and how the writes went. */
  datatype Choice = Choice(accept: bool, started: ScriptWrite, completed: ScriptWrite, envOk: bool)

  class Machine {
    const ourDir: string
    var envs: map<string, string>
    var files: map<Components, string>

    constructor (ourDir: string, envs: map<string, string>, files: map<Components, string>)
      ensures this.ourDir == ourDir && Value() == Host(envs, files)
    {
      this.ourDir := ourDir;
      this.envs := envs;
      this.files := files;
    }

    function Value(): Host
      reads this
    {
      Host(envs, files)
    }

    method WriteScript(path: string, text: string, w: ScriptWrite) returns (ok: bool)
      modifies `files
      ensures ok == w.Written? && files == AfterWrite(old(files), path, text, w)
    {
      match w {
        case Written =>
          files := files[Parse(path) := text];
        case NotOpened =>
        case Torn(left) =>
          files := files[Parse(path) := left];
      }
      ok := w.Written?;
    }

    method InstallFor(r: string, envOk: bool)
      modifies `envs
      ensures Value() == Installed(old(Value()), ourDir, r, envOk)
    {
      if r !in envs {
        return;
      }
      if Hook(envs[r], Started) != None || Hook(envs[r], Completed) != None {
        return;
      }
      var env := RewriteEnv(envs[r], OurScript(ourDir, Started), OurScript(ourDir, Completed), Some(EventLog(r)));
      if envOk {
        envs := envs[r := env];
      }
    }

    method ChainFor(r: string, ws: ScriptWrite, wc: ScriptWrite, envOk: bool)
      modifies this
      ensures Value() == ChainedHost(old(Value()), ourDir, r, ws, wc, envOk)
    {
      if r !in envs {
        return;
      }
      var env := envs[r];
      var s := PlanChainSlot(Hook(env, Started), OurScript(ourDir, Started), WrapperPath(ourDir, r, Started));
      var c := PlanChainSlot(Hook(env, Completed), OurScript(ourDir, Completed), WrapperPath(ourDir, r, Completed));
      if s.wrapper.Some? {
        var ok := WriteScript(s.target, s.wrapper.value, ws);
        if !ok {
          return;
        }
      }
      if c.wrapper.Some? {
        var ok := WriteScript(c.target, c.wrapper.value, wc);
        if !ok {
          return;
        }
      }
      var new_ := RewriteEnv(env, s.target, c.target, Some(EventLog(r)));
      if envOk {
        envs := envs[r := new_];
      }
    }

    method RepairEventLog(r: string, envOk: bool)
      modifies `envs
      ensures Value() == Repaired(old(Value()), r, envOk)
    {
      if r !in envs {
        return;
      }
      var env := EnsureEventLog(envs[r], EventLog(r));
      if env.Some? && envOk {
        envs := envs[r := env.value];
      }
    }

    method UninstallFrom(r: string, envOk: bool, removed: (bool, bool))
      modifies this
      ensures Value() == Uninstalled(old(Value()), ourDir, r, envOk, removed)
    {
      if r !in envs {
        return;
      }
      match PlanAction(envs[r], files, ourDir) {
        case Leave =>
        case Manual =>
        case Strip(env) =>
          if envOk {
            envs := envs[r := env];
          }
        case Restore(env, s, c) =>
          if envOk {
            envs := envs[r := env];
            files := Without(files, s, removed.0);
            files := Without(files, c, removed.1);
          }
      }
    }

    method ApplyHooks(runners: seq<string>, choices: seq<Choice>)
      requires |choices| == |runners|
      modifies this
      ensures Value() == AppliedAll(old(Value()), ourDir, runners, choices)
    {
      var i := 0;
      while i < |runners|
        invariant i <= |runners|
        invariant AppliedAll(Value(), ourDir, runners[i..], choices[i..])
               == AppliedAll(old(Value()), ourDir, runners, choices)
      {
        var r, c := runners[i], choices[i];
        assert runners[i..][0] == r && choices[i..][0] == c;
        assert runners[i..][1..] == runners[i + 1..] && choices[i..][1..] == choices[i + 1..];
        if r in envs {
          match Classify(envs[r], [ourDir]) {
            case Ours =>
              RepairEventLog(r, c.envOk);
            case Unset =>
              if c.accept {
                InstallFor(r, c.envOk);
              }
            case Foreign =>
              if c.accept {
                ChainFor(r, c.started, c.completed, c.envOk);
              }
          }
        }
        i := i + 1;
      }
    }
  }

  function AppliedAll(h: Host, ourDir: string, runners: seq<string>, choices: seq<Choice>): Host
    requires |choices| == |runners|
    decreases |runners|
  {
    if runners == [] then h
    else AppliedAll(Applied(h, ourDir, runners[0], choices[0]), ourDir, runners[1..], choices[1..])
  }
}
