/** What installing, chaining, repairing and uninstalling keep: no operator's hook is ever lost. */
module HookRuns {
  import opened Wrappers
  import opened Text
  import opened Paths
  import opened EnvFile
  import opened Chain
  import opened HookLifecycle

  // --------------------------------------------------------------- the state

  /** Where hook scripts live: an absolute path on one line. */
  predicate IsDataDir(dir: string) {
    StartsWith(dir, "/") && NoNewline(dir)
  }

  /** A hook value that both a wrapper and a rewritten `.env` give back: something, unpadded, unquoted. */
  predicate Restorable(v: string) {
    v != "" && Trim(v) == v && Clean(v) == v && NoNewline(v)
  }

  predicate Inside(ourDir: string, v: string) {
    IsDirectlyIn(v, [ourDir])
  }

  /** A hook that is no wrapper: anything foreign, or one of our own two scripts. */
  predicate Plain(ourDir: string, v: string) {
    Inside(ourDir, v) ==> HasName(v, IsFreshName)
  }

  /** The operator's hook that value `v` runs: itself if foreign, or the foreign script its wrapper names. */
  function Runs(files: map<Components, string>, ourDir: string, v: string): Option<string> {
    if !Inside(ourDir, v) then Some(v)
    else if HasName(v, IsChainName) && Unwrapped(files, v).Some? && !Inside(ourDir, Unwrapped(files, v).value) then
      Unwrapped(files, v)
    else None
  }

  /** The operator's hook in one slot of runner `r`. */
  function HookOf(h: Host, ourDir: string, r: string, slot: Slot): Option<string>
    requires r in h.envs
  {
    var v := Hook(h.envs[r], slot);
    if v.None? then None else Runs(h.files, ourDir, v.value)
  }

  /** Slot `slot` of `r` is wired to its wrapper, under any spelling of the path. */
  predicate OnWrapper(h: Host, ourDir: string, r: string, slot: Slot)
    requires r in h.envs
  {
    var v := Hook(h.envs[r], slot);
    v.Some? && Parse(v.value) == Parse(WrapperPath(ourDir, r, slot))
  }

  /** Slot `slot` of `r` is unset, plain, or wired to a wrapper that names a plain hook it can give back. */
  predicate SlotWired(h: Host, ourDir: string, r: string, slot: Slot)
    requires r in h.envs
  {
    var v := Hook(h.envs[r], slot);
    v.Some? ==>
      || Plain(ourDir, v.value)
      || (OnWrapper(h, ourDir, r, slot) && Restorable(v.value)
          && Unwrapped(h.files, v.value).Some? && IsGivenBack(ourDir, Unwrapped(h.files, v.value).value))
  }

  predicate IsGivenBack(ourDir: string, v: string) {
    Plain(ourDir, v) && Restorable(v)
  }

  predicate RunnerWired(h: Host, ourDir: string, r: string)
    requires r in h.envs
  {
    SlotWired(h, ourDir, r, Started) && SlotWired(h, ourDir, r, Completed)
  }

  /** Every runner is wired, and no two share wrapper files. */
  predicate AllWired(h: Host, ourDir: string) {
    && IsDataDir(ourDir)
    && (forall r :: r in h.envs ==> NoNewline(r) && RunnerWired(h, ourDir, r))
    && (forall r, q :: r in h.envs && q in h.envs && r != q ==> Slug(r) != Slug(q))
  }

  // ------------------------------------------------------------------- paths

  lemma ScriptShape(ourDir: string, name: string)
    requires IsDataDir(ourDir) && IsPlainName(name) && EndsWith(name, ".sh") && NoNewline(name)
    ensures var p := JoinPath(ourDir, name);
            && Restorable(p) && Inside(ourDir, p) && FileName(p) == Some(name)
            && Parse(p) == Components(Parse(ourDir).absolute, Parse(ourDir).names + [name])
  {
    var p := JoinPath(ourDir, name);
    assert p[0] == '/' && p[|p| - 1] == name[|name| - 1] == name[|name| - 3..][2] == 'h';
    NothingToTrim(p);
    TrimMatchesIs(p, IsQuote);
    JoinIsInside(ourDir, name, [ourDir]);
    JoinedComponents(ourDir, name);
  }

  lemma OurScriptIsPlain(ourDir: string, slot: Slot)
    requires IsDataDir(ourDir)
    ensures IsGivenBack(ourDir, OurScript(ourDir, slot)) && Inside(ourDir, OurScript(ourDir, slot))
    ensures !HasName(OurScript(ourDir, slot), IsChainName)
  {
    var name := if slot.Started? then "job-started.sh" else "job-completed.sh";
    assert name[|name| - 3..] == ".sh" && name[0] == 'j';
    ScriptShape(ourDir, name);
  }

  lemma WrapperShape(ourDir: string, r: string, slot: Slot)
    requires IsDataDir(ourDir)
    ensures var p := WrapperPath(ourDir, r, slot);
            && Restorable(p) && Inside(ourDir, p) && HasName(p, IsChainName) && !HasName(p, IsFreshName)
            && Parse(p) == Components(Parse(ourDir).absolute, Parse(ourDir).names + [WrapperName(r, slot)])
  {
    NamesArePlain(r);
    var name := WrapperName(r, slot);
    assert name[0] == 'c';
    ScriptShape(ourDir, name);
  }

  /** A wrapper's file is named for its runner and its hook. */
  lemma WrapperFileIs(ourDir: string, r: string)
    requires IsDataDir(ourDir)
    ensures FileName(WrapperPath(ourDir, r, Started)) == Some("chain-" + Slug(r) + "-started.sh")
    ensures FileName(WrapperPath(ourDir, r, Completed)) == Some("chain-" + Slug(r) + "-completed.sh")
  {
    NamesArePlain(r);
    JoinedComponents(ourDir, WrapperName(r, Started));
    JoinedComponents(ourDir, WrapperName(r, Completed));
  }

  /** A plain hook is no spelling of a wrapper. */
  lemma PlainIsElsewhere(ourDir: string, r: string, slot: Slot, v: string)
    requires IsDataDir(ourDir) && Plain(ourDir, v)
    ensures Parse(v) != Parse(WrapperPath(ourDir, r, slot))
  {
    WrapperShape(ourDir, r, slot);
  }

  /** A plain hook inside our directory is not a wrapper. */
  lemma PlainIsNoChain(ourDir: string, v: string)
    requires Plain(ourDir, v) && Inside(ourDir, v)
    ensures !HasName(v, IsChainName)
  {
    FreshIsNoChain(v);
  }

  /** Two wrappers are two files, unless they are the same slot of runners with one slug. */
  lemma WrapperFilesDiffer(ourDir: string, r: string, slot: Slot, q: string, other: Slot)
    requires IsDataDir(ourDir) && (slot != other || Slug(r) != Slug(q))
    ensures Parse(WrapperPath(ourDir, r, slot)) != Parse(WrapperPath(ourDir, q, other))
  {
    WrapperShape(ourDir, r, slot);
    WrapperShape(ourDir, q, other);
    NamesDiffer(r, q);
    NamesDiffer(q, r);
    var a, b := Parse(WrapperPath(ourDir, r, slot)).names, Parse(WrapperPath(ourDir, q, other)).names;
    assert a[|a| - 1] == WrapperName(r, slot) && b[|b| - 1] == WrapperName(q, other);
  }

  lemma EventLogIsLine(r: string)
    requires NoNewline(r)
    ensures NoNewline(EventLog(r))
  {
  }

  // --------------------------------------------------------------- one value

  lemma RewrittenHook(env: string, s: string, c: string, log: Option<string>, slot: Slot)
    requires Writable(s, c, log)
    ensures Hook(Rewritten(env, s, c, log), slot) == Some(Clean(if slot.Started? then s else c))
  {
    RewriteReadsBack(env, s, c, log);
  }

  /** A value read from an `.env` has no newline and no quote at either end. */
  lemma {:induction false} ValueShape(ls: seq<string>, key: string)
    requires AreLines(ls)
    ensures var v := LastValue(ls, key);
            v.Some? ==> NoNewline(v.value) && IsTrimmed(v.value, IsQuote)
  {
    if ls != [] {
      ValueShape(ls[..|ls| - 1], key);
      var l := ls[|ls| - 1];
      var a := Assignment(l, key);
      if a.Some? {
        TrimMatchesIs(l, IsWhitespace);
        assert NoNewline(Trim(l));
        assert NoNewline(a.value);
        TrimMatchesIs(a.value, IsWhitespace);
        TrimMatchesIs(Trim(a.value), IsQuote);
      }
    }
  }

  /** So it is restorable exactly when it is neither empty nor padded. */
  lemma HookIsRestorable(env: string, slot: Slot)
    requires Hook(env, slot).Some?
    ensures var v := Hook(env, slot).value;
            NoNewline(v) && (Restorable(v) <==> v != "" && Trim(v) == v)
  {
    LinesAreLines(env);
    ValueShape(Lines(env), Var(slot));
    TrimMatchesIs(Hook(env, slot).value, IsQuote);
  }

  // ------------------------------------------------------------------ frames

  predicate SameAt(f: map<Components, string>, g: map<Components, string>, k: Components) {
    (k in f <==> k in g) && (k in f ==> f[k] == g[k])
  }

  /** Only `r`'s own two wrapper files may differ. */
  ghost predicate SameFilesBut(f: map<Components, string>, g: map<Components, string>, ourDir: string, r: string) {
    forall k :: k != Parse(WrapperPath(ourDir, r, Started)) && k != Parse(WrapperPath(ourDir, r, Completed)) ==>
      SameAt(f, g, k)
  }

  /** A plain hook runs the same whatever the files hold. */
  lemma PlainRuns(files: map<Components, string>, ourDir: string, v: string)
    requires Plain(ourDir, v)
    ensures Runs(files, ourDir, v) == if Inside(ourDir, v) then None else Some(v)
  {
    if Inside(ourDir, v) {
      PlainIsNoChain(ourDir, v);
    }
  }

  /** A slot whose value, and whose wrapper if it is on one, did not change. */
  lemma SlotKept(h: Host, h': Host, ourDir: string, q: string, slot: Slot)
    requires q in h.envs && q in h'.envs && Hook(h.envs[q], slot) == Hook(h'.envs[q], slot)
    requires SlotWired(h, ourDir, q, slot)
    requires OnWrapper(h, ourDir, q, slot) ==> SameAt(h.files, h'.files, Parse(WrapperPath(ourDir, q, slot)))
    ensures SlotWired(h', ourDir, q, slot) && HookOf(h', ourDir, q, slot) == HookOf(h, ourDir, q, slot)
  {
    var v := Hook(h.envs[q], slot);
    if v.Some? && Plain(ourDir, v.value) {
      PlainRuns(h.files, ourDir, v.value);
      PlainRuns(h'.files, ourDir, v.value);
    }
  }

  lemma OtherKept(h: Host, h': Host, ourDir: string, r: string, q: string)
    requires AllWired(h, ourDir) && r in h.envs && q in h.envs && q != r
    requires q in h'.envs && h'.envs[q] == h.envs[q] && SameFilesBut(h.files, h'.files, ourDir, r)
    ensures RunnerWired(h', ourDir, q)
    ensures forall slot :: HookOf(h', ourDir, q, slot) == HookOf(h, ourDir, q, slot)
  {
    assert RunnerWired(h, ourDir, q) && Slug(r) != Slug(q);
    forall slot: Slot
      ensures SlotWired(h', ourDir, q, slot) && HookOf(h', ourDir, q, slot) == HookOf(h, ourDir, q, slot)
    {
      WrapperFilesDiffer(ourDir, q, slot, r, Started);
      WrapperFilesDiffer(ourDir, q, slot, r, Completed);
      SlotKept(h, h', ourDir, q, slot);
    }
  }

  /** A step that touches only `r`: if `r` stays wired to the same hooks, all runners do. */
  lemma OneRunnerStep(h: Host, h': Host, ourDir: string, r: string)
    requires AllWired(h, ourDir) && r in h.envs && h'.envs.Keys == h.envs.Keys
    requires forall q :: q in h.envs && q != r ==> h'.envs[q] == h.envs[q]
    requires SameFilesBut(h.files, h'.files, ourDir, r)
    requires RunnerWired(h', ourDir, r)
    requires forall slot :: HookOf(h', ourDir, r, slot) == HookOf(h, ourDir, r, slot)
    ensures AllWired(h', ourDir) && SameHooks(h, h', ourDir)
  {
    forall q | q in h.envs && q != r
      ensures RunnerWired(h', ourDir, q) && forall slot :: HookOf(h', ourDir, q, slot) == HookOf(h, ourDir, q, slot)
    {
      OtherKept(h, h', ourDir, r, q);
    }
  }

  /** Every runner runs the operator's hooks it ran before. */
  predicate SameHooks(h: Host, h': Host, ourDir: string) {
    && h'.envs.Keys == h.envs.Keys
    && forall r, slot :: r in h.envs ==> HookOf(h', ourDir, r, slot) == HookOf(h, ourDir, r, slot)
  }

  // --------------------------------------------------------- install, repair

  lemma InstallKeeps(h: Host, ourDir: string, r: string, envOk: bool)
    requires AllWired(h, ourDir)
    ensures var h' := Installed(h, ourDir, r, envOk);
            AllWired(h', ourDir) && SameHooks(h, h', ourDir)
  {
    var h' := Installed(h, ourDir, r, envOk);
    if h' != h {
      var s, c := OurScript(ourDir, Started), OurScript(ourDir, Completed);
      OurScriptIsPlain(ourDir, Started);
      OurScriptIsPlain(ourDir, Completed);
      assert NoNewline(r);
      EventLogIsLine(r);
      forall slot: Slot
        ensures SlotWired(h', ourDir, r, slot) && HookOf(h', ourDir, r, slot) == HookOf(h, ourDir, r, slot)
      {
        RewrittenHook(h.envs[r], s, c, Some(EventLog(r)), slot);
        PlainRuns(h'.files, ourDir, OurScript(ourDir, slot));
      }
      OneRunnerStep(h, h', ourDir, r);
    }
  }

  lemma RepairedHook(env: string, log: string, slot: Slot)
    requires NoNewline(log) && WithEventLog(env, log).Some?
    ensures Hook(WithEventLog(env, log).value, slot) == Hook(env, slot)
  {
    EventLogIsSetOnce(env, log);
  }

  /** After a repair the event log is named, as far as an `.env` can. */
  lemma RepairNamesTheLog(h: Host, r: string)
    requires r in h.envs && NoNewline(EventLog(r))
    ensures var h' := Repaired(h, r, true);
            && r in h'.envs
            && (EnvValue(h'.envs[r], EVENT_LOG_VAR) == Some(EventLog(r))
                || EnvValue(h'.envs[r], EVENT_LOG_VAR) == Some(Clean(EventLog(r))))
  {
    EventLogIsSetExactly(h.envs[r], EventLog(r));
    if WithEventLog(h.envs[r], EventLog(r)).Some? {
      EventLogIsSetOnce(h.envs[r], EventLog(r));
    }
  }

  lemma RepairKeeps(h: Host, ourDir: string, r: string, envOk: bool)
    requires AllWired(h, ourDir)
    ensures var h' := Repaired(h, r, envOk);
            AllWired(h', ourDir) && SameHooks(h, h', ourDir)
            && forall slot :: r in h.envs ==> Hook(h'.envs[r], slot) == Hook(h.envs[r], slot)
  {
    var h' := Repaired(h, r, envOk);
    if h' != h {
      assert NoNewline(r) && RunnerWired(h, ourDir, r);
      EventLogIsLine(r);
      forall slot: Slot
        ensures Hook(h'.envs[r], slot) == Hook(h.envs[r], slot)
        ensures SlotWired(h', ourDir, r, slot) && HookOf(h', ourDir, r, slot) == HookOf(h, ourDir, r, slot)
      {
        RepairedSlot(h, h', ourDir, r, slot);
      }
      OneRunnerStep(h, h', ourDir, r);
    }
  }

  lemma RepairedSlot(h: Host, h': Host, ourDir: string, r: string, slot: Slot)
    requires r in h.envs && NoNewline(EventLog(r)) && WithEventLog(h.envs[r], EventLog(r)).Some?
    requires h' == h.(envs := h.envs[r := WithEventLog(h.envs[r], EventLog(r)).value])
    requires SlotWired(h, ourDir, r, slot)
    ensures Hook(h'.envs[r], slot) == Hook(h.envs[r], slot)
    ensures SlotWired(h', ourDir, r, slot) && HookOf(h', ourDir, r, slot) == HookOf(h, ourDir, r, slot)
  {
    RepairedHook(h.envs[r], EventLog(r), slot);
    SlotKept(h, h', ourDir, r, slot);
  }

  // ------------------------------------------------------------------- chain

  lemma AfterSlotTouches(files: map<Components, string>, plan: SlotPlan, w: ScriptWrite, k: Components)
    requires plan.wrapper.Some? ==> k != Parse(plan.target)
    ensures SameAt(files, AfterSlot(files, plan, w), k)
  {
  }

  lemma ChainTouches(h: Host, ourDir: string, r: string, ws: ScriptWrite, wc: ScriptWrite, envOk: bool)
    requires r in h.envs
    ensures var h' := ChainedHost(h, ourDir, r, ws, wc, envOk);
            && SameFilesBut(h.files, h'.files, ourDir, r) && h'.envs.Keys == h.envs.Keys
            && forall q :: q in h.envs && q != r ==> h'.envs[q] == h.envs[q]
  {
    var s, c := SlotOf(h, ourDir, r, Started), SlotOf(h, ourDir, r, Completed);
    SlotTouches(h.files, ourDir, r, s, c, ws, wc);
  }

  lemma SlotTouches(files: map<Components, string>, ourDir: string, r: string,
                    s: SlotPlan, c: SlotPlan, ws: ScriptWrite, wc: ScriptWrite)
    requires s.wrapper.Some? ==> s.target == WrapperPath(ourDir, r, Started)
    requires c.wrapper.Some? ==> c.target == WrapperPath(ourDir, r, Completed)
    ensures SameFilesBut(files, AfterSlot(files, s, ws), ourDir, r)
    ensures SameFilesBut(files, AfterSlot(AfterSlot(files, s, ws), c, wc), ourDir, r)
  {
    var one := AfterSlot(files, s, ws);
    forall k | k != Parse(WrapperPath(ourDir, r, Started)) && k != Parse(WrapperPath(ourDir, r, Completed))
      ensures SameAt(files, one, k) && SameAt(one, AfterSlot(one, c, wc), k)
    {
      AfterSlotTouches(files, s, ws, k);
      AfterSlotTouches(one, c, wc, k);
    }
  }

  /** All writes succeed. */
  function FullyChained(h: Host, ourDir: string, r: string): Host {
    ChainedHost(h, ourDir, r, Written, Written, true)
  }

  lemma TargetIsWritable(h: Host, ourDir: string, r: string, slot: Slot)
    requires IsDataDir(ourDir) && r in h.envs
    ensures Restorable(SlotOf(h, ourDir, r, slot).target)
  {
    OurScriptIsPlain(ourDir, slot);
    WrapperShape(ourDir, r, slot);
  }

  /** What a chained slot holds: our script where nothing was set, else its wrapper, written with the old value. */
  lemma ChainedSlot(h: Host, ourDir: string, r: string, slot: Slot)
    requires IsDataDir(ourDir) && r in h.envs && NoNewline(r)
    ensures var h', plan := FullyChained(h, ourDir, r), SlotOf(h, ourDir, r, slot);
            && r in h'.envs && Hook(h'.envs[r], slot) == Some(plan.target)
            && (plan.wrapper.Some? ==>
                  Parse(plan.target) in h'.files && h'.files[Parse(plan.target)] == plan.wrapper.value)
  {
    var s, c := SlotOf(h, ourDir, r, Started), SlotOf(h, ourDir, r, Completed);
    TargetIsWritable(h, ourDir, r, Started);
    TargetIsWritable(h, ourDir, r, Completed);
    EventLogIsLine(r);
    RewrittenHook(h.envs[r], s.target, c.target, Some(EventLog(r)), slot);
    WrapperFilesDiffer(ourDir, r, Started, r, Completed);
  }

  /** What a wrapper names of the value it was written with. */
  function Recovered(original: string, ours: string): string {
    if Trim(original) != "" then Trim(original) else Fallback(original, ours)
  }

  /** A wrapper names the value as it is: it is not empty, and not padded around something. */
  predicate ReadsBack(v: string) {
    v != "" && (Trim(v) == v || Trim(v) == "")
  }

  lemma RecoveredExactly(v: string, ours: string)
    requires NoNewline(v) && StartsWith(ours, "/")
    ensures Recovered(v, ours) == v <==> ReadsBack(v)
  {
    if v == "" {
      FirstPieceIsPrefix(ours);
    } else if Trim(v) == "" {
      BlankIsRecovered(v, ours);
    }
  }

  /** A chained slot is on its wrapper, which names what can be recovered of the value. */
  lemma WrapperNames(h: Host, ourDir: string, r: string, slot: Slot)
    requires IsDataDir(ourDir) && r in h.envs && NoNewline(r) && Hook(h.envs[r], slot).Some?
    ensures var h' := FullyChained(h, ourDir, r);
            && r in h'.envs && Hook(h'.envs[r], slot) == Some(WrapperPath(ourDir, r, slot))
            && Unwrapped(h'.files, WrapperPath(ourDir, r, slot))
               == Some(Recovered(Hook(h.envs[r], slot).value, OurScript(ourDir, slot)))
  {
    ChainedSlot(h, ourDir, r, slot);
    OurScriptIsPlain(ourDir, slot);
    HookIsRestorable(h.envs[r], slot);
    ReadsBackAs(Hook(h.envs[r], slot).value, OurScript(ourDir, slot));
  }

  /** The hook a slot runs once chained. */
  lemma ChainedSlotRuns(h: Host, ourDir: string, r: string, slot: Slot)
    requires IsDataDir(ourDir) && r in h.envs && NoNewline(r)
    ensures var h', v := FullyChained(h, ourDir, r), Hook(h.envs[r], slot);
            && r in h'.envs
            && HookOf(h', ourDir, r, slot) ==
               if v.None? || Inside(ourDir, Recovered(v.value, OurScript(ourDir, slot))) then None
               else Some(Recovered(v.value, OurScript(ourDir, slot)))
  {
    var h', v := FullyChained(h, ourDir, r), Hook(h.envs[r], slot);
    ChainedSlot(h, ourDir, r, slot);
    WrapperShape(ourDir, r, slot);
    OurScriptIsPlain(ourDir, slot);
    if v.None? {
      PlainRuns(h'.files, ourDir, OurScript(ourDir, slot));
    } else {
      WrapperNames(h, ourDir, r, slot);
    }
  }

  /** What lies in our directory is one of our two scripts, or the slot's own wrapper. */
  predicate IsKnown(h: Host, ourDir: string, r: string, slot: Slot)
    requires r in h.envs
  {
    var v := Hook(h.envs[r], slot);
    v.Some? && Inside(ourDir, v.value) ==>
      Restorable(v.value) && (HasName(v.value, IsFreshName) || OnWrapper(h, ourDir, r, slot))
  }

  /** The slot is on its wrapper already, which then comes to name itself; or its hook is one a wrapper does
      not give back. */
  predicate LosesOnChain(h: Host, ourDir: string, r: string, slot: Slot)
    requires r in h.envs
  {
    var v := Hook(h.envs[r], slot);
    && v.Some?
    && if Inside(ourDir, v.value) then OnWrapper(h, ourDir, r, slot) && HookOf(h, ourDir, r, slot).Some?
       else !ReadsBack(v.value)
  }

  lemma ChainedSlotExactly(h: Host, ourDir: string, r: string, slot: Slot)
    requires IsDataDir(ourDir) && r in h.envs && NoNewline(r) && IsKnown(h, ourDir, r, slot)
    ensures var h' := FullyChained(h, ourDir, r);
            && r in h'.envs
            && (HookOf(h', ourDir, r, slot) == HookOf(h, ourDir, r, slot) <==> !LosesOnChain(h, ourDir, r, slot))
  {
    var v := Hook(h.envs[r], slot);
    ChainedSlotRuns(h, ourDir, r, slot);
    if v.Some? {
      HookIsRestorable(h.envs[r], slot);
      OurScriptIsPlain(ourDir, slot);
      RecoveredExactly(v.value, OurScript(ourDir, slot));
      if Inside(ourDir, v.value) && HasName(v.value, IsFreshName) {
        PlainRuns(h.files, ourDir, v.value);
      }
    }
  }

  /** Exactly when chaining keeps both hooks, whatever they are. */
  lemma ChainKeepsExactly(h: Host, ourDir: string, r: string)
    requires IsDataDir(ourDir) && r in h.envs && NoNewline(r)
    requires IsKnown(h, ourDir, r, Started) && IsKnown(h, ourDir, r, Completed)
    ensures var h' := FullyChained(h, ourDir, r);
            && r in h'.envs
            && ((forall slot :: HookOf(h', ourDir, r, slot) == HookOf(h, ourDir, r, slot))
                <==> !LosesOnChain(h, ourDir, r, Started) && !LosesOnChain(h, ourDir, r, Completed))
  {
    ChainedSlotExactly(h, ourDir, r, Started);
    ChainedSlotExactly(h, ourDir, r, Completed);
  }

  /** A plain hook that its wrapper gives back stays wired. */
  lemma ChainedSlotIsWired(h: Host, ourDir: string, r: string, slot: Slot)
    requires IsDataDir(ourDir) && r in h.envs && NoNewline(r) && IsChainable(h, ourDir, r, slot)
    ensures var h' := FullyChained(h, ourDir, r);
            r in h'.envs && SlotWired(h', ourDir, r, slot) && HookOf(h', ourDir, r, slot) == HookOf(h, ourDir, r, slot)
  {
    var h', v := FullyChained(h, ourDir, r), Hook(h.envs[r], slot);
    ChainedSlot(h, ourDir, r, slot);
    ChainedSlotRuns(h, ourDir, r, slot);
    OurScriptIsPlain(ourDir, slot);
    WrapperShape(ourDir, r, slot);
    if v.Some? {
      WrapperNames(h, ourDir, r, slot);
      PlainRuns(h.files, ourDir, v.value);
    }
  }

  predicate IsChainable(h: Host, ourDir: string, r: string, slot: Slot)
    requires r in h.envs
  {
    Hook(h.envs[r], slot).Some? ==> IsGivenBack(ourDir, Hook(h.envs[r], slot).value)
  }

  /** And the installer does offer to chain such a runner: one hook on its wrapper, the other replaced by
      the operator. Accepting loses the wrapped hook. */
  lemma RechainingLosesAHook(h: Host, ourDir: string, r: string, slot: Slot, other: Slot)
    requires AllWired(h, ourDir) && r in h.envs && slot != other
    requires OnWrapper(h, ourDir, r, slot) && HookOf(h, ourDir, r, slot).Some?
    requires Hook(h.envs[r], other).Some? && !Inside(ourDir, Hook(h.envs[r], other).value)
    ensures var h' := Applied(h, ourDir, r, Choice(true, Written, Written, true));
            && Classify(h.envs[r], [ourDir]) == Foreign
            && r in h'.envs && HookOf(h', ourDir, r, slot) == None
  {
    WrappedIsLost(h, ourDir, r, slot);
  }

  lemma WrappedIsLost(h: Host, ourDir: string, r: string, slot: Slot)
    requires AllWired(h, ourDir) && r in h.envs && OnWrapper(h, ourDir, r, slot)
    ensures var h' := FullyChained(h, ourDir, r); r in h'.envs && HookOf(h', ourDir, r, slot) == None
  {
    var v := Hook(h.envs[r], slot).value;
    assert NoNewline(r) && RunnerWired(h, ourDir, r);
    WrapperShape(ourDir, r, slot);
    assert Restorable(v) && Recovered(v, OurScript(ourDir, slot)) == v;
    ChainedSlotRuns(h, ourDir, r, slot);
  }

  lemma ChainKeeps(h: Host, ourDir: string, r: string, ws: ScriptWrite, wc: ScriptWrite, envOk: bool)
    requires AllWired(h, ourDir)
    requires r in h.envs ==> IsChainable(h, ourDir, r, Started) && IsChainable(h, ourDir, r, Completed)
    ensures var h' := ChainedHost(h, ourDir, r, ws, wc, envOk);
            AllWired(h', ourDir) && SameHooks(h, h', ourDir)
  {
    if r in h.envs {
      var h' := ChainedHost(h, ourDir, r, ws, wc, envOk);
      ChainTouches(h, ourDir, r, ws, wc, envOk);
      assert RunnerWired(h, ourDir, r);
      forall slot: Slot
        ensures SlotWired(h', ourDir, r, slot) && HookOf(h', ourDir, r, slot) == HookOf(h, ourDir, r, slot)
      {
        if h'.envs[r] != h.envs[r] {
          ChainComplete(h, ourDir, r, ws, wc, envOk);
          ChainedSlotIsWired(h, ourDir, r, slot);
        } else if Hook(h.envs[r], slot).Some? {
          PlainIsElsewhere(ourDir, r, slot, Hook(h.envs[r], slot).value);
          SlotKept(h, h', ourDir, r, slot);
        }
      }
      OneRunnerStep(h, h', ourDir, r);
    }
  }

  /** `.env` changes only after every wrapper is written. */
  lemma ChainComplete(h: Host, ourDir: string, r: string, ws: ScriptWrite, wc: ScriptWrite, envOk: bool)
    requires r in h.envs && ChainedHost(h, ourDir, r, ws, wc, envOk).envs[r] != h.envs[r]
    ensures ChainedHost(h, ourDir, r, ws, wc, envOk) == FullyChained(h, ourDir, r)
  {
  }

  // --------------------------------------------------------------- uninstall

  lemma RemovedHook(env: string, slot: Slot)
    ensures Hook(Removed(env), slot) == None
  {
    RemovedIsUnset(env, []);
  }

  lemma FreshIsNoChain(v: string)
    requires HasName(v, IsFreshName)
    ensures !HasName(v, IsChainName)
  {
    var n := FileName(v).value;
    assert n[0] == 'j';
  }

  lemma FreshSlot(env: string, ourDir: string, slot: Slot)
    requires ClassifyRevert(env, ourDir) == Fresh
    ensures Hook(env, slot).Some? && Inside(ourDir, Hook(env, slot).value)
    ensures HasName(Hook(env, slot).value, IsFreshName)
  {
    if slot.Started? {} else {}
  }

  lemma StripKeeps(h: Host, h': Host, ourDir: string, r: string)
    requires AllWired(h, ourDir) && r in h.envs && ClassifyRevert(h.envs[r], ourDir) == Fresh
    requires h' == h.(envs := h.envs[r := Removed(h.envs[r])])
    ensures AllWired(h', ourDir) && SameHooks(h, h', ourDir)
  {
    forall slot: Slot
      ensures SlotWired(h', ourDir, r, slot) && HookOf(h', ourDir, r, slot) == HookOf(h, ourDir, r, slot)
    {
      RemovedHook(h.envs[r], slot);
      FreshSlot(h.envs[r], ourDir, slot);
      FreshIsNoChain(Hook(h.envs[r], slot).value);
    }
    OneRunnerStep(h, h', ourDir, r);
  }

  /** A wired slot holding a wrapper's name holds its own wrapper, which names a plain hook. */
  lemma ChainedSlotIsOnWrapper(h: Host, ourDir: string, r: string, slot: Slot)
    requires AllWired(h, ourDir) && r in h.envs && Hook(h.envs[r], slot).Some?
    requires var v := Hook(h.envs[r], slot).value; Inside(ourDir, v) && HasName(v, IsChainName)
    ensures OnWrapper(h, ourDir, r, slot)
    ensures var u := Unwrapped(h.files, Hook(h.envs[r], slot).value);
            && u.Some? && IsGivenBack(ourDir, u.value)
            && HookOf(h, ourDir, r, slot) == (if Inside(ourDir, u.value) then None else u)
  {
    assert RunnerWired(h, ourDir, r);
    var v := Hook(h.envs[r], slot).value;
    if Plain(ourDir, v) {
      PlainIsNoChain(ourDir, v);
    }
  }

  lemma ChainedValues(env: string, ourDir: string)
    requires ClassifyRevert(env, ourDir).Chained?
    ensures forall slot :: Hook(env, slot).Some? && Inside(ourDir, Hook(env, slot).value)
                           && HasName(Hook(env, slot).value, IsChainName)
    ensures ClassifyRevert(env, ourDir) == Chained(Hook(env, Started).value, Hook(env, Completed).value)
  {
    forall slot: Slot
      ensures Hook(env, slot).Some? && Inside(ourDir, Hook(env, slot).value)
              && HasName(Hook(env, slot).value, IsChainName)
    {
      if slot.Started? {} else {}
    }
  }

  lemma RestoreIs(h: Host, ourDir: string, r: string, removed: (bool, bool), s: string, c: string)
    requires r in h.envs && ClassifyRevert(h.envs[r], ourDir) == Chained(s, c)
    requires Unwrapped(h.files, s).Some? && Unwrapped(h.files, c).Some?
    ensures Uninstalled(h, ourDir, r, true, removed)
         == Host(h.envs[r := Rewritten(h.envs[r], Unwrapped(h.files, s).value, Unwrapped(h.files, c).value, None)],
                 Without(Without(h.files, s, removed.0), c, removed.1))
  {
  }

  lemma WithoutTouches(files: map<Components, string>, ourDir: string, r: string, s: string, c: string,
                       removed: (bool, bool))
    requires Parse(s) == Parse(WrapperPath(ourDir, r, Started)) && Parse(c) == Parse(WrapperPath(ourDir, r, Completed))
    ensures SameFilesBut(files, Without(Without(files, s, removed.0), c, removed.1), ourDir, r)
  {
  }

  lemma RestoreTouches(h: Host, ourDir: string, r: string, removed: (bool, bool))
    requires AllWired(h, ourDir) && r in h.envs && ClassifyRevert(h.envs[r], ourDir).Chained?
    ensures Hook(h.envs[r], Started).Some? && Hook(h.envs[r], Completed).Some?
    ensures var h' := Uninstalled(h, ourDir, r, true, removed);
            var os := Unwrapped(h.files, Hook(h.envs[r], Started).value);
            var oc := Unwrapped(h.files, Hook(h.envs[r], Completed).value);
            && SameFilesBut(h.files, h'.files, ourDir, r) && os.Some? && oc.Some?
            && h'.envs == h.envs[r := Rewritten(h.envs[r], os.value, oc.value, None)]
  {
    ChainedValues(h.envs[r], ourDir);
    ChainedSlotIsOnWrapper(h, ourDir, r, Started);
    ChainedSlotIsOnWrapper(h, ourDir, r, Completed);
    var s, c := Hook(h.envs[r], Started).value, Hook(h.envs[r], Completed).value;
    WithoutTouches(h.files, ourDir, r, s, c, removed);
    RestoreIs(h, ourDir, r, removed, s, c);
  }

  /** A slot put back to a plain hook. */
  lemma PlainSlot(h: Host, h': Host, ourDir: string, r: string, slot: Slot, o: string)
    requires IsDataDir(ourDir) && r in h.envs && r in h'.envs && Plain(ourDir, o)
    requires Hook(h'.envs[r], slot) == Some(o)
    requires HookOf(h, ourDir, r, slot) == if Inside(ourDir, o) then None else Some(o)
    ensures SlotWired(h', ourDir, r, slot) && HookOf(h', ourDir, r, slot) == HookOf(h, ourDir, r, slot)
    ensures !OnWrapper(h', ourDir, r, slot)
  {
    PlainRuns(h'.files, ourDir, o);
    PlainIsElsewhere(ourDir, r, slot, o);
  }

  /** A restored slot holds the hook its wrapper named. */
  lemma RestoredSlot(h: Host, h': Host, ourDir: string, r: string, removed: (bool, bool), slot: Slot)
    requires AllWired(h, ourDir) && r in h.envs && ClassifyRevert(h.envs[r], ourDir).Chained?
    requires h' == Uninstalled(h, ourDir, r, true, removed)
    ensures r in h'.envs && Hook(h'.envs[r], slot).Some? && IsGivenBack(ourDir, Hook(h'.envs[r], slot).value)
    ensures SlotWired(h', ourDir, r, slot) && HookOf(h', ourDir, r, slot) == HookOf(h, ourDir, r, slot)
    ensures !OnWrapper(h', ourDir, r, slot)
  {
    RestoreTouches(h, ourDir, r, removed);
    ChainedValues(h.envs[r], ourDir);
    ChainedSlotIsOnWrapper(h, ourDir, r, Started);
    ChainedSlotIsOnWrapper(h, ourDir, r, Completed);
    var env := h.envs[r];
    var os, oc := Unwrapped(h.files, Hook(env, Started).value).value,
        Unwrapped(h.files, Hook(env, Completed).value).value;
    RewrittenHook(env, os, oc, None, slot);
    PlainSlot(h, h', ourDir, r, slot, if slot.Started? then os else oc);
  }

  lemma RestoreKeeps(h: Host, h': Host, ourDir: string, r: string, removed: (bool, bool))
    requires AllWired(h, ourDir) && r in h.envs && ClassifyRevert(h.envs[r], ourDir).Chained?
    requires h' == Uninstalled(h, ourDir, r, true, removed)
    ensures AllWired(h', ourDir) && SameHooks(h, h', ourDir)
  {
    RestoreTouches(h, ourDir, r, removed);
    forall slot: Slot
      ensures SlotWired(h', ourDir, r, slot) && HookOf(h', ourDir, r, slot) == HookOf(h, ourDir, r, slot)
    {
      RestoredSlot(h, h', ourDir, r, removed, slot);
    }
    OneRunnerStep(h, h', ourDir, r);
  }

  lemma UninstallKeeps(h: Host, ourDir: string, r: string, envOk: bool, removed: (bool, bool))
    requires AllWired(h, ourDir)
    ensures var h' := Uninstalled(h, ourDir, r, envOk, removed);
            AllWired(h', ourDir) && SameHooks(h, h', ourDir)
  {
    var h' := Uninstalled(h, ourDir, r, envOk, removed);
    if h' != h && ClassifyRevert(h.envs[r], ourDir).Chained? {
      RestoreKeeps(h, h', ourDir, r, removed);
    } else if h' != h {
      StripKeeps(h, h', ourDir, r);
    }
  }

  // -------------------------------------------------------------------- runs

  datatype Step =
    | Apply(r: string, choice: Choice)
    | Uninstall(r: string, envOk: bool, removed: (bool, bool))

  function After(h: Host, ourDir: string, step: Step): Host {
    match step
    case Apply(r, choice) => Applied(h, ourDir, r, choice)
    case Uninstall(r, envOk, removed) => Uninstalled(h, ourDir, r, envOk, removed)
  }

  function AfterAll(h: Host, ourDir: string, steps: seq<Step>): Host
    decreases |steps|
  {
    if steps == [] then h else AfterAll(After(h, ourDir, steps[0]), ourDir, steps[1..])
  }

  /** A runner on a wrapper has no foreign value left beside it, and its hooks are ones a wrapper gives back. */
  predicate Settled(h: Host, ourDir: string, r: string)
    requires r in h.envs
  {
    && (OnWrapper(h, ourDir, r, Started) || OnWrapper(h, ourDir, r, Completed) ==>
          Classify(h.envs[r], [ourDir]) == Ours)
    && AreRestorable(h.envs[r])
  }

  predicate AreRestorable(env: string) {
    && (Hook(env, Started).Some? ==> Restorable(Hook(env, Started).value))
    && (Hook(env, Completed).Some? ==> Restorable(Hook(env, Completed).value))
  }

  predicate AllSettled(h: Host, ourDir: string) {
    forall r :: r in h.envs ==> Settled(h, ourDir, r)
  }

  lemma InstallSettles(h: Host, ourDir: string, r: string, envOk: bool)
    requires AllWired(h, ourDir) && r in h.envs && Settled(h, ourDir, r)
    ensures Settled(Installed(h, ourDir, r, envOk), ourDir, r)
  {
    var h' := Installed(h, ourDir, r, envOk);
    if h' != h {
      OurScriptIsPlain(ourDir, Started);
      OurScriptIsPlain(ourDir, Completed);
      PlainIsElsewhere(ourDir, r, Started, OurScript(ourDir, Started));
      PlainIsElsewhere(ourDir, r, Completed, OurScript(ourDir, Completed));
      assert NoNewline(r);
      EventLogIsLine(r);
      RewrittenHook(h.envs[r], OurScript(ourDir, Started), OurScript(ourDir, Completed), Some(EventLog(r)), Started);
      RewrittenHook(h.envs[r], OurScript(ourDir, Started), OurScript(ourDir, Completed), Some(EventLog(r)), Completed);
    }
  }

  lemma BothInsideIsOurs(env: string, ourDir: string)
    requires Hook(env, Started).Some? && Inside(ourDir, Hook(env, Started).value)
    requires Hook(env, Completed).Some? && Inside(ourDir, Hook(env, Completed).value)
    ensures Classify(env, [ourDir]) == Ours
  {
  }

  lemma ChainedSlotIsOurs(h: Host, ourDir: string, r: string, slot: Slot)
    requires IsDataDir(ourDir) && r in h.envs && NoNewline(r)
    ensures var h' := FullyChained(h, ourDir, r);
            && r in h'.envs && Hook(h'.envs[r], slot).Some?
            && Inside(ourDir, Hook(h'.envs[r], slot).value) && Restorable(Hook(h'.envs[r], slot).value)
  {
    ChainedSlot(h, ourDir, r, slot);
    OurScriptIsPlain(ourDir, slot);
    WrapperShape(ourDir, r, slot);
  }

  lemma ChainSettles(h: Host, ourDir: string, r: string, ws: ScriptWrite, wc: ScriptWrite, envOk: bool)
    requires AllWired(h, ourDir) && r in h.envs && Settled(h, ourDir, r)
    ensures Settled(ChainedHost(h, ourDir, r, ws, wc, envOk), ourDir, r)
  {
    var h' := ChainedHost(h, ourDir, r, ws, wc, envOk);
    if h'.envs[r] != h.envs[r] {
      ChainComplete(h, ourDir, r, ws, wc, envOk);
      assert NoNewline(r);
      ChainedSlotIsOurs(h, ourDir, r, Started);
      ChainedSlotIsOurs(h, ourDir, r, Completed);
      BothInsideIsOurs(h'.envs[r], ourDir);
    }
  }

  lemma UninstallSettles(h: Host, ourDir: string, r: string, envOk: bool, removed: (bool, bool))
    requires AllWired(h, ourDir) && r in h.envs && Settled(h, ourDir, r)
    ensures Settled(Uninstalled(h, ourDir, r, envOk, removed), ourDir, r)
  {
    var h' := Uninstalled(h, ourDir, r, envOk, removed);
    if h' != h && ClassifyRevert(h.envs[r], ourDir).Chained? {
      RestoredSlot(h, h', ourDir, r, removed, Started);
      RestoredSlot(h, h', ourDir, r, removed, Completed);
    } else if h' != h {
      RemovedHook(h.envs[r], Started);
      RemovedHook(h.envs[r], Completed);
    }
  }

  /** Only `r`'s `.env` may differ. */
  ghost predicate OnlyEnvOf(h: Host, h': Host, r: string) {
    h'.envs.Keys == h.envs.Keys && forall q :: q in h.envs && q != r ==> h'.envs[q] == h.envs[q]
  }

  lemma RevertTouches(h: Host, r: string, action: RevertAction, envOk: bool, removed: (bool, bool))
    requires r in h.envs
    ensures OnlyEnvOf(h, Reverted(h, r, action, envOk, removed), r)
  {
  }

  lemma UninstallTouches(h: Host, ourDir: string, r: string, envOk: bool, removed: (bool, bool))
    ensures OnlyEnvOf(h, Uninstalled(h, ourDir, r, envOk, removed), r)
  {
    if r in h.envs {
      RevertTouches(h, r, PlanAction(h.envs[r], h.files, ourDir), envOk, removed);
    }
  }

  lemma ApplyTouches(h: Host, ourDir: string, r: string, c: Choice)
    requires r in h.envs
    ensures OnlyEnvOf(h, Repaired(h, r, c.envOk), r)
    ensures OnlyEnvOf(h, Installed(h, ourDir, r, c.envOk), r)
    ensures OnlyEnvOf(h, ChainedHost(h, ourDir, r, c.started, c.completed, c.envOk), r)
  {
    ChainTouches(h, ourDir, r, c.started, c.completed, c.envOk);
  }

  /** A step touches one runner's `.env` only. */
  lemma StepTouches(h: Host, ourDir: string, step: Step)
    ensures OnlyEnvOf(h, After(h, ourDir, step), step.r)
  {
    match step
    case Uninstall(r, envOk, removed) => UninstallTouches(h, ourDir, r, envOk, removed);
    case Apply(r, c) =>
      if r in h.envs {
        ApplyTouches(h, ourDir, r, c);
      }
  }

  lemma SettlesHere(h: Host, ourDir: string, step: Step)
    requires AllWired(h, ourDir) && step.r in h.envs && Settled(h, ourDir, step.r)
    ensures var h' := After(h, ourDir, step); step.r in h'.envs && Settled(h', ourDir, step.r)
  {
    var r := step.r;
    StepTouches(h, ourDir, step);
    match step
    case Uninstall(_, envOk, removed) => UninstallSettles(h, ourDir, r, envOk, removed);
    case Apply(_, c) =>
      match Classify(h.envs[r], [ourDir])
      case Ours => RepairSettles(h, ourDir, r, c.envOk);
      case Unset => InstallSettles(h, ourDir, r, c.envOk);
      case Foreign => ChainSettles(h, ourDir, r, c.started, c.completed, c.envOk);
  }

  lemma RepairSettles(h: Host, ourDir: string, r: string, envOk: bool)
    requires AllWired(h, ourDir) && r in h.envs && Settled(h, ourDir, r)
    ensures r in Repaired(h, r, envOk).envs && Settled(Repaired(h, r, envOk), ourDir, r)
  {
    RepairKeeps(h, ourDir, r, envOk);
    var h' := Repaired(h, r, envOk);
    assert Hook(h'.envs[r], Started) == Hook(h.envs[r], Started) && Hook(h'.envs[r], Completed)
        == Hook(h.envs[r], Completed);
  }

  lemma StepSettles(h: Host, ourDir: string, step: Step)
    requires AllWired(h, ourDir) && AllSettled(h, ourDir)
    ensures AllSettled(After(h, ourDir, step), ourDir)
  {
    var h' := After(h, ourDir, step);
    StepTouches(h, ourDir, step);
    forall q | q in h'.envs ensures Settled(h', ourDir, q) {
      assert Settled(h, ourDir, q);
      if q == step.r {
        SettlesHere(h, ourDir, step);
      }
    }
  }

  lemma StepKeeps(h: Host, ourDir: string, step: Step)
    requires AllWired(h, ourDir) && AllSettled(h, ourDir)
    ensures var h' := After(h, ourDir, step);
            AllWired(h', ourDir) && SameHooks(h, h', ourDir)
  {
    match step
    case Uninstall(r, envOk, removed) => UninstallKeeps(h, ourDir, r, envOk, removed);
    case Apply(r, c) =>
      RepairKeeps(h, ourDir, r, c.envOk);
      InstallKeeps(h, ourDir, r, c.envOk);
      if r in h.envs && Classify(h.envs[r], [ourDir]) == Foreign {
        assert Settled(h, ourDir, r);
        ChainKeeps(h, ourDir, r, c.started, c.completed, c.envOk);
      }
  }

  /** Over every run of installs, chains, repairs and uninstalls, whatever is answered and whichever
      writes fail, each operator's hook stays wired: directly, or named by the wrapper that is. */
  lemma {:induction false} NoHookIsLost(h: Host, ourDir: string, steps: seq<Step>)
    requires AllWired(h, ourDir) && AllSettled(h, ourDir)
    ensures var h' := AfterAll(h, ourDir, steps);
            AllWired(h', ourDir) && AllSettled(h', ourDir) && SameHooks(h, h', ourDir)
    decreases |steps|
  {
    if steps != [] {
      StepKeeps(h, ourDir, steps[0]);
      StepSettles(h, ourDir, steps[0]);
      NoHookIsLost(After(h, ourDir, steps[0]), ourDir, steps[1..]);
    }
  }

  // ---------------------------------------------------------- operator edits

  /** What happens to the host: a step of ours, or an operator's new `.env` for one runner. */
  datatype Act = Tool(step: Step) | Edit(r: string, env: string)

  function AfterAct(h: Host, ourDir: string, act: Act): Host {
    match act
    case Tool(step) => After(h, ourDir, step)
    case Edit(r, env) => if r in h.envs then h.(envs := h.envs[r := env]) else h
  }

  function AfterActs(h: Host, ourDir: string, acts: seq<Act>): Host
    decreases |acts|
  {
    if acts == [] then h else AfterActs(AfterAct(h, ourDir, acts[0]), ourDir, acts[1..])
  }

  /** Chaining is accepted only where each variable is unset or a plain hook that a wrapper gives back; and an
      edit leaves each variable unset, plain, or on a wrapper that names such a hook. */
  predicate IsSafe(h: Host, ourDir: string, act: Act) {
    match act
    case Tool(Apply(r, c)) =>
      r in h.envs && c.accept && Classify(h.envs[r], [ourDir]) == Foreign ==>
        IsChainable(h, ourDir, r, Started) && IsChainable(h, ourDir, r, Completed)
    case Tool(Uninstall(_, _, _)) => true
    case Edit(r, env) => r in h.envs ==> RunnerWired(AfterAct(h, ourDir, act), ourDir, r)
  }

  predicate AllSafe(h: Host, ourDir: string, acts: seq<Act>)
    decreases |acts|
  {
    acts == [] || (IsSafe(h, ourDir, acts[0]) && AllSafe(AfterAct(h, ourDir, acts[0]), ourDir, acts[1..]))
  }

  /** A step of ours keeps every hook; an edit keeps every other runner's. */
  ghost predicate KeepsHooks(h: Host, ourDir: string, act: Act) {
    var h' := AfterAct(h, ourDir, act);
    && h'.envs.Keys == h.envs.Keys
    && forall r, slot :: r in h.envs && (act.Edit? ==> r != act.r) ==>
         HookOf(h', ourDir, r, slot) == HookOf(h, ourDir, r, slot)
  }

  ghost predicate AllKeepHooks(h: Host, ourDir: string, acts: seq<Act>)
    decreases |acts|
  {
    acts == [] || (KeepsHooks(h, ourDir, acts[0]) && AllKeepHooks(AfterAct(h, ourDir, acts[0]), ourDir, acts[1..]))
  }

  lemma EditKeeps(h: Host, ourDir: string, r: string, env: string)
    requires AllWired(h, ourDir) && IsSafe(h, ourDir, Edit(r, env))
    ensures AllWired(AfterAct(h, ourDir, Edit(r, env)), ourDir) && KeepsHooks(h, ourDir, Edit(r, env))
  {
    var h' := AfterAct(h, ourDir, Edit(r, env));
    forall q | q in h'.envs ensures NoNewline(q) && RunnerWired(h', ourDir, q) {
      if q != r {
        assert RunnerWired(h, ourDir, q);
        SlotKept(h, h', ourDir, q, Started);
        SlotKept(h, h', ourDir, q, Completed);
      }
    }
  }

  lemma SafeStepKeeps(h: Host, ourDir: string, step: Step)
    requires AllWired(h, ourDir) && IsSafe(h, ourDir, Tool(step))
    ensures AllWired(After(h, ourDir, step), ourDir) && SameHooks(h, After(h, ourDir, step), ourDir)
  {
    match step
    case Uninstall(r, envOk, removed) => UninstallKeeps(h, ourDir, r, envOk, removed);
    case Apply(r, c) =>
      if r in h.envs {
        match Classify(h.envs[r], [ourDir])
        case Ours => RepairKeeps(h, ourDir, r, c.envOk);
        case Unset => InstallKeeps(h, ourDir, r, c.envOk);
        case Foreign =>
          if c.accept {
            ChainKeeps(h, ourDir, r, c.started, c.completed, c.envOk);
          }
      }
  }

  /** Over every run with operator edits in between: our steps lose no hook, as long as no runner is chained
      whose hook a wrapper does not give back, or is on its wrapper already. `ChainKeepsExactly` says when such
      a chain would. */
  lemma {:induction false} HooksSurviveEdits(h: Host, ourDir: string, acts: seq<Act>)
    requires AllWired(h, ourDir) && AllSafe(h, ourDir, acts)
    ensures AllWired(AfterActs(h, ourDir, acts), ourDir) && AllKeepHooks(h, ourDir, acts)
    decreases |acts|
  {
    if acts != [] {
      match acts[0] {
        case Tool(step) => SafeStepKeeps(h, ourDir, step);
        case Edit(r, env) => EditKeeps(h, ourDir, r, env);
      }
      HooksSurviveEdits(AfterAct(h, ourDir, acts[0]), ourDir, acts[1..]);
    }
  }

  // ------------------------------------------------------- install, uninstall

  /** The script of that name in our directory. */
  predicate IsScriptIn(ourDir: string, value: Option<string>, name: string) {
    value.Some? && Inside(ourDir, value.value) && FileName(value.value) == Some(name)
  }

  lemma OurScriptIs(ourDir: string, slot: Slot)
    requires IsDataDir(ourDir)
    ensures IsScriptIn(ourDir, Some(OurScript(ourDir, slot)),
                       if slot.Started? then "job-started.sh" else "job-completed.sh")
  {
    var name := if slot.Started? then "job-started.sh" else "job-completed.sh";
    assert name[|name| - 3..] == ".sh" && name[0] == 'j';
    ScriptShape(ourDir, name);
  }

  lemma EventLogIs(r: string)
    ensures Parse(EventLog(r)) == Components(Parse(r).absolute, Parse(r).names + [".ghr-stats-events.ndjson"])
  {
    var name := ".ghr-stats-events.ndjson";
    assert name[1] == 'g';
    JoinedComponents(r, name);
  }

  /** What a runner's turn does: nothing unless accepted, save that a runner of ours has its event log repaired. */
  lemma AnswerDecides(h: Host, ourDir: string, r: string, c: Choice)
    requires r in h.envs
    ensures Classify(h.envs[r], [ourDir]) != Ours && !c.accept ==> Applied(h, ourDir, r, c) == h
    ensures Classify(h.envs[r], [ourDir]) == Unset && c.accept ==>
              Applied(h, ourDir, r, c) == Installed(h, ourDir, r, c.envOk)
    ensures Classify(h.envs[r], [ourDir]) == Foreign && c.accept ==>
              Applied(h, ourDir, r, c) == ChainedHost(h, ourDir, r, c.started, c.completed, c.envOk)
    ensures Classify(h.envs[r], [ourDir]) == Ours ==> Applied(h, ourDir, r, c) == Repaired(h, r, c.envOk)
  {
  }

  predicate IsOurs(env: string, slot: Slot, ourDir: string) {
    Hook(env, slot).Some? && Inside(ourDir, Hook(env, slot).value)
  }

  /** `chain-*.sh`, and our own two. */
  predicate IsWrapperFile(name: string) {
    "chain-" <= name && |name| >= 3 && name[|name| - 3..] == ".sh"
  }

  predicate IsOurFile(name: string) {
    name == "job-started.sh" || name == "job-completed.sh"
  }

  predicate AreNamed(env: string, ok: string -> bool) {
    && Hook(env, Started).Some? && HasName(Hook(env, Started).value, ok)
    && Hook(env, Completed).Some? && HasName(Hook(env, Completed).value, ok)
  }

  /** What uninstalling takes a runner for: chained or fresh if both variables are ours and named alike; mixed if
      both are ours but not so, or one is and the other unset; not managed otherwise. */
  lemma RevertKindExactly(env: string, ourDir: string)
    ensures var both := IsOurs(env, Started, ourDir) && IsOurs(env, Completed, ourDir);
            var kind := ClassifyRevert(env, ourDir);
            && (kind.Chained? <==> both && AreNamed(env, IsWrapperFile))
            && (kind.Fresh? <==> both && AreNamed(env, IsOurFile))
            && (kind.Mixed? <==>
                  || (both && !AreNamed(env, IsWrapperFile) && !AreNamed(env, IsOurFile))
                  || (IsOurs(env, Started, ourDir) && Hook(env, Completed).None?)
                  || (IsOurs(env, Completed, ourDir) && Hook(env, Started).None?))
  {
    var s, c := Hook(env, Started), Hook(env, Completed);
    if s.Some? && c.Some? {
      NamesAre(s.value);
      NamesAre(c.value);
    }
  }

  lemma NamesAre(v: string)
    ensures HasName(v, IsWrapperFile) <==> HasName(v, IsChainName)
    ensures HasName(v, IsOurFile) <==> HasName(v, IsFreshName)
    ensures !(HasName(v, IsOurFile) && HasName(v, IsWrapperFile))
  {
    if HasName(v, IsFreshName) {
      FreshIsNoChain(v);
    }
  }

  /** What uninstalling plans: to strip a fresh runner, to restore a chained one whose originals can be read, to
      leave one that is not managed, and to ask about any other. */
  lemma PlanExactly(env: string, files: map<Components, string>, ourDir: string)
    ensures var kind, plan := ClassifyRevert(env, ourDir), PlanAction(env, files, ourDir);
            && (plan.Leave? <==> kind.NotManaged?)
            && (plan.Strip? <==> kind.Fresh?)
            && (plan.Restore? <==> kind.Chained? && Unwrapped(files, kind.started).Some?
                                   && Unwrapped(files, kind.completed).Some?)
            && (plan.Restore? ==> plan.started == kind.started && plan.completed == kind.completed)
  {
  }

  /** Where `.env` could not be written it is as it was, and uninstalling then removes no wrapper. */
  lemma UnwrittenIsUnchanged(h: Host, ourDir: string, r: string, ws: ScriptWrite, wc: ScriptWrite,
                             removed: (bool, bool))
    ensures Installed(h, ourDir, r, false) == h && Repaired(h, r, false) == h
    ensures ChainedHost(h, ourDir, r, ws, wc, false).envs == h.envs
    ensures Uninstalled(h, ourDir, r, false, removed) == h
  {
  }

  /** The installer's round is the turns of its runners, one after the other: so what holds of every run of
      turns, `NoHookIsLost` among it, holds of it. */
  lemma {:induction false} RoundIsTurns(h: Host, ourDir: string, runners: seq<string>, choices: seq<Choice>)
    requires |choices| == |runners|
    ensures AppliedAll(h, ourDir, runners, choices) == AfterAll(h, ourDir, Turns(runners, choices))
    decreases |runners|
  {
    if runners != [] {
      var turns := Turns(runners, choices);
      RoundIsTurns(Applied(h, ourDir, runners[0], choices[0]), ourDir, runners[1..], choices[1..]);
      assert turns[1..] == Turns(runners[1..], choices[1..]);
    }
  }

  function Turns(runners: seq<string>, choices: seq<Choice>): (turns: seq<Step>)
    requires |choices| == |runners|
    ensures |turns| == |runners| && forall i :: 0 <= i < |turns| ==> turns[i] == Apply(runners[i], choices[i])
  {
    seq(|runners|, i requires 0 <= i < |runners| => Apply(runners[i], choices[i]))
  }

  /** Restoring a runner removes its wrappers, those that can be. */
  lemma WrappersAreRemoved(h: Host, ourDir: string, r: string, removed: (bool, bool))
    requires r in h.envs && ClassifyRevert(h.envs[r], ourDir).Chained?
    requires Unwrapped(h.files, Hook(h.envs[r], Started).value).Some?
    requires Unwrapped(h.files, Hook(h.envs[r], Completed).value).Some?
    ensures var h', s, c := Uninstalled(h, ourDir, r, true, removed), Hook(h.envs[r], Started).value,
                Hook(h.envs[r], Completed).value;
            && (removed.0 ==> Parse(s) !in h'.files) && (removed.1 ==> Parse(c) !in h'.files)
            && forall k :: (k != Parse(s) || !removed.0) && (k != Parse(c) || !removed.1) ==>
                 SameAt(h.files, h'.files, k)
  {
    ChainedValues(h.envs[r], ourDir);
    RestoreIs(h, ourDir, r, removed, Hook(h.envs[r], Started).value, Hook(h.envs[r], Completed).value);
  }

  /** Installing on a runner without hooks wires each variable to its own script, names the event log, and
      keeps every other line, save carriage returns. */
  lemma InstallWires(h: Host, ourDir: string, r: string)
    requires IsDataDir(ourDir) && r in h.envs && NoNewline(r)
    requires Hook(h.envs[r], Started).None? && Hook(h.envs[r], Completed).None?
    ensures var one := Installed(h, ourDir, r, true);
            && r in one.envs
            && IsScriptIn(ourDir, EnvValue(one.envs[r], STARTED_VAR), "job-started.sh")
            && IsScriptIn(ourDir, EnvValue(one.envs[r], COMPLETED_VAR), "job-completed.sh")
            && Hook(one.envs[r], Started) == Some(OurScript(ourDir, Started))
            && Hook(one.envs[r], Completed) == Some(OurScript(ourDir, Completed))
            && EnvValue(one.envs[r], EVENT_LOG_VAR) == Some(Clean(EventLog(r)))
            && Kept(one.envs[r], OUR_VARS) == StripCrs(Kept(h.envs[r], OUR_VARS))
  {
    var s, c := OurScript(ourDir, Started), OurScript(ourDir, Completed);
    OurScriptIs(ourDir, Started);
    OurScriptIs(ourDir, Completed);
    OurScriptIsPlain(ourDir, Started);
    OurScriptIsPlain(ourDir, Completed);
    EventLogIsLine(r);
    RewriteReadsBack(h.envs[r], s, c, Some(EventLog(r)));
    OperatorLinesSurvive(h.envs[r], s, c, Some(EventLog(r)));
  }

  /** Uninstalling then leaves the runner without hooks, and with every other line, save carriage returns. */
  lemma InstallThenUninstall(h: Host, ourDir: string, r: string, removed: (bool, bool))
    requires IsDataDir(ourDir) && r in h.envs && NoNewline(r)
    requires Hook(h.envs[r], Started).None? && Hook(h.envs[r], Completed).None?
    ensures var two := Uninstalled(Installed(h, ourDir, r, true), ourDir, r, true, removed);
            && r in two.envs
            && Classify(two.envs[r], [ourDir]) == Unset
            && Kept(two.envs[r], OUR_VARS) == StripCrs(StripCrs(Kept(h.envs[r], OUR_VARS)))
  {
    InstallWires(h, ourDir, r);
    var env := Installed(h, ourDir, r, true).envs[r];
    OurScriptsAreFresh(env, ourDir);
    RemovedIsUnset(env, [ourDir]);
    RemovedKeeps(env);
  }

  lemma OurScriptsAreFresh(env: string, ourDir: string)
    requires IsDataDir(ourDir)
    requires Hook(env, Started) == Some(OurScript(ourDir, Started))
    requires Hook(env, Completed) == Some(OurScript(ourDir, Completed))
    ensures ClassifyRevert(env, ourDir) == Fresh
  {
    OurScriptIsPlain(ourDir, Started);
    OurScriptIsPlain(ourDir, Completed);
  }

  // -------------------------------------------------------------- round trip

  lemma OnWrappersIsChained(env: string, ourDir: string, r: string)
    requires IsDataDir(ourDir)
    requires forall slot :: Hook(env, slot) == Some(WrapperPath(ourDir, r, slot))
    ensures ClassifyRevert(env, ourDir) == Chained(WrapperPath(ourDir, r, Started), WrapperPath(ourDir, r, Completed))
  {
    WrapperShape(ourDir, r, Started);
    WrapperShape(ourDir, r, Completed);
    assert Hook(env, Started).Some? && Hook(env, Completed).Some?;
  }

  lemma FullyChainedPlan(h: Host, ourDir: string, r: string)
    requires IsDataDir(ourDir) && r in h.envs && NoNewline(r)
    requires Hook(h.envs[r], Started).Some? && Hook(h.envs[r], Completed).Some?
    ensures var h' := FullyChained(h, ourDir, r);
            && r in h'.envs
            && ClassifyRevert(h'.envs[r], ourDir)
               == Chained(WrapperPath(ourDir, r, Started), WrapperPath(ourDir, r, Completed))
  {
    ChainedSlot(h, ourDir, r, Started);
    ChainedSlot(h, ourDir, r, Completed);
    var h' := FullyChained(h, ourDir, r);
    forall slot: Slot ensures Hook(h'.envs[r], slot) == Some(WrapperPath(ourDir, r, slot)) {
      if slot.Started? {} else {}
    }
    OnWrappersIsChained(h'.envs[r], ourDir, r);
  }

  lemma RecoveredSlot(h: Host, ourDir: string, r: string, slot: Slot)
    requires IsDataDir(ourDir) && r in h.envs && NoNewline(r) && Hook(h.envs[r], slot).Some?
    ensures var v := Hook(h.envs[r], slot).value;
            && Unwrapped(FullyChained(h, ourDir, r).files, WrapperPath(ourDir, r, slot))
                == Some(Recovered(v, OurScript(ourDir, slot)))
            && NoNewline(Recovered(v, OurScript(ourDir, slot)))
  {
    var v := Hook(h.envs[r], slot).value;
    ChainedSlot(h, ourDir, r, slot);
    OurScriptIsPlain(ourDir, slot);
    HookIsRestorable(h.envs[r], slot);
    ReadsBackAs(v, OurScript(ourDir, slot));
    TrimMatchesIs(v, IsWhitespace);
    FirstPieceIsPrefix(v);
    FirstPieceIsPrefix(OurScript(ourDir, slot));
  }

  lemma FirstPieceIsPrefix(s: string)
    ensures SplitAll(s, '"')[0] <= s
    ensures s != "" && s[0] != '"' ==> SplitAll(s, '"')[0] != "" && SplitAll(s, '"')[0][0] == s[0]
  {
  }

  lemma EmptyIsNotRecovered(ours: string)
    requires StartsWith(ours, "/")
    ensures Clean(Recovered("", ours)) != ""
  {
    FirstPieceIsPrefix(ours);
    SlashIsNotCleaned(Recovered("", ours));
  }

  lemma BlankIsRecovered(v: string, ours: string)
    requires v != "" && Trim(v) == ""
    ensures Recovered(v, ours) == v && Clean(v) == ""
  {
    TrimsToNothing(v, IsWhitespace);
    assert '"' !in v;
    assert SplitAll(v, '"')[0] == v;
  }

  /** The recovered value, read back from `.env`, is the original exactly when that was restorable. */
  lemma RecoveredReadsBack(v: string, ours: string)
    requires NoNewline(v) && IsTrimmed(v, IsQuote) && StartsWith(ours, "/")
    ensures Clean(Recovered(v, ours)) == v <==> Restorable(v)
  {
    if v == "" {
      EmptyIsNotRecovered(ours);
    } else if Trim(v) == "" {
      BlankIsRecovered(v, ours);
    } else {
      TrimmedReadsBack(v);
    }
  }

  lemma TrimmedReadsBack(v: string)
    requires IsTrimmed(v, IsQuote) && Trim(v) != ""
    ensures Clean(Trim(v)) == v <==> Trim(v) == v && Clean(v) == v
  {
    var o := Trim(v);
    TrimMatchesIs(v, IsQuote);
    CleanShortens(o);
    TrimShortens(v);
    TrimShortens(o);
  }

  lemma TrimShortens(v: string)
    ensures |Trim(v)| <= |v| && (|Trim(v)| == |v| ==> Trim(v) == v)
  {
    TrimStartIs(v, IsWhitespace);
    TrimEndIs(TrimStart(v, IsWhitespace), IsWhitespace);
  }

  lemma CleanShortens(v: string)
    ensures |Clean(v)| <= |Trim(v)|
  {
    TrimStartIs(Trim(v), IsQuote);
    TrimEndIs(TrimStart(Trim(v), IsQuote), IsQuote);
  }

  lemma SlashIsNotCleaned(v: string)
    requires StartsWith(v, "/")
    ensures Clean(v) != ""
  {
    TrimEndKeeps(v, IsWhitespace);
    TrimEndKeeps(Trim(v), IsQuote);
  }

  /** The `.env` after chaining and uninstalling, whatever it held. */
  lemma RoundTripEnv(h: Host, ourDir: string, r: string, removed: (bool, bool))
    requires IsDataDir(ourDir) && r in h.envs && NoNewline(r)
    requires Hook(h.envs[r], Started).Some? && Hook(h.envs[r], Completed).Some?
    ensures var one := FullyChained(h, ourDir, r);
            var os := Recovered(Hook(h.envs[r], Started).value, OurScript(ourDir, Started));
            var oc := Recovered(Hook(h.envs[r], Completed).value, OurScript(ourDir, Completed));
            && NoNewline(os) && NoNewline(oc) && r in one.envs
            && r in Uninstalled(one, ourDir, r, true, removed).envs
            && Uninstalled(one, ourDir, r, true, removed).envs[r] == Rewritten(one.envs[r], os, oc, None)
  {
    FullyChainedPlan(h, ourDir, r);
    RecoveredSlot(h, ourDir, r, Started);
    RecoveredSlot(h, ourDir, r, Completed);
  }

  /** Chaining a runner with two hooks and then uninstalling puts both values back, exactly when neither
      is empty or padded; every other line comes back in order, save carriage returns; and our event log
      is gone. This holds for every `.env` text. */
  lemma ChainThenUninstall(h: Host, ourDir: string, r: string, removed: (bool, bool))
    requires IsDataDir(ourDir) && r in h.envs && NoNewline(r)
    requires Hook(h.envs[r], Started).Some? && Hook(h.envs[r], Completed).Some?
    ensures var h' := Uninstalled(FullyChained(h, ourDir, r), ourDir, r, true, removed);
            && r in h'.envs
            && (Hook(h'.envs[r], Started) == Hook(h.envs[r], Started)
                <==> Unpadded(Hook(h.envs[r], Started).value))
            && (Hook(h'.envs[r], Completed) == Hook(h.envs[r], Completed)
                <==> Unpadded(Hook(h.envs[r], Completed).value))
            && Kept(h'.envs[r], OUR_VARS) == StripCrs(StripCrs(Kept(h.envs[r], OUR_VARS)))
            && EnvValue(h'.envs[r], EVENT_LOG_VAR) == None
  {
    var one := FullyChained(h, ourDir, r);
    var os := Recovered(Hook(h.envs[r], Started).value, OurScript(ourDir, Started));
    var oc := Recovered(Hook(h.envs[r], Completed).value, OurScript(ourDir, Completed));
    RoundTripEnv(h, ourDir, r, removed);
    RewriteReadsBack(one.envs[r], os, oc, None);
    RestoredExactly(h.envs[r], ourDir, Started);
    RestoredExactly(h.envs[r], ourDir, Completed);
    RoundTripLines(h, ourDir, r, os, oc);
  }

  predicate Unpadded(v: string) {
    v != "" && Trim(v) == v
  }

  lemma RestoredExactly(env: string, ourDir: string, slot: Slot)
    requires IsDataDir(ourDir) && Hook(env, slot).Some?
    ensures var v := Hook(env, slot).value;
            Clean(Recovered(v, OurScript(ourDir, slot))) == v <==> Unpadded(v)
  {
    HookIsRestorable(env, slot);
    LinesAreLines(env);
    ValueShape(Lines(env), Var(slot));
    RecoveredReadsBack(Hook(env, slot).value, OurScript(ourDir, slot));
  }

  lemma RoundTripLines(h: Host, ourDir: string, r: string, os: string, oc: string)
    requires IsDataDir(ourDir) && r in h.envs && NoNewline(r) && NoNewline(os) && NoNewline(oc)
    ensures var one := FullyChained(h, ourDir, r);
            && r in one.envs
            && Kept(Rewritten(one.envs[r], os, oc, None), OUR_VARS) == StripCrs(StripCrs(Kept(h.envs[r], OUR_VARS)))
  {
    var one := FullyChained(h, ourDir, r);
    var s, c := SlotOf(h, ourDir, r, Started).target, SlotOf(h, ourDir, r, Completed).target;
    TargetIsWritable(h, ourDir, r, Started);
    TargetIsWritable(h, ourDir, r, Completed);
    EventLogIsLine(r);
    OperatorLinesSurvive(h.envs[r], s, c, Some(EventLog(r)));
    OperatorLinesSurvive(one.envs[r], os, oc, None);
  }

  /** Both variables unset, or both on hooks that come back. */
  predicate ComesBack(env: string) {
    var s, c := Hook(env, Started), Hook(env, Completed);
    if s.Some? && c.Some? then Unpadded(s.value) && Unpadded(c.value) else s.None? && c.None?
  }

  /** A runner chained with one hook is left as it is: uninstalling asks the operator instead. */
  lemma OneHookIsLeft(h: Host, ourDir: string, r: string, removed: (bool, bool))
    requires IsDataDir(ourDir) && r in h.envs && NoNewline(r)
    requires Hook(h.envs[r], Started).Some? <==> Hook(h.envs[r], Completed).None?
    ensures var one := FullyChained(h, ourDir, r);
            && r in one.envs && ClassifyRevert(one.envs[r], ourDir) == Mixed
            && Uninstalled(one, ourDir, r, true, removed) == one
  {
    if Hook(h.envs[r], Started).Some? {
      OneChainedIsMixed(h, ourDir, r, Started, Completed);
    } else {
      OneChainedIsMixed(h, ourDir, r, Completed, Started);
    }
    MixedIsLeft(FullyChained(h, ourDir, r), ourDir, r, removed);
  }

  lemma MixedIsLeft(h: Host, ourDir: string, r: string, removed: (bool, bool))
    requires r in h.envs && ClassifyRevert(h.envs[r], ourDir) == Mixed
    ensures Uninstalled(h, ourDir, r, true, removed) == h
  {
  }

  lemma OneChainedIsMixed(h: Host, ourDir: string, r: string, slot: Slot, other: Slot)
    requires IsDataDir(ourDir) && r in h.envs && NoNewline(r) && slot != other
    requires Hook(h.envs[r], slot).Some? && Hook(h.envs[r], other).None?
    ensures var one := FullyChained(h, ourDir, r); r in one.envs && ClassifyRevert(one.envs[r], ourDir) == Mixed
  {
    ChainedSlot(h, ourDir, r, slot);
    ChainedSlot(h, ourDir, r, other);
    OneWrapperIsMixed(FullyChained(h, ourDir, r).envs[r], ourDir, r, slot, other);
  }

  lemma OneWrapperIsMixed(env: string, ourDir: string, r: string, slot: Slot, other: Slot)
    requires IsDataDir(ourDir) && slot != other
    requires Hook(env, slot) == Some(WrapperPath(ourDir, r, slot)) && Hook(env, other) == Some(OurScript(ourDir, other))
    ensures ClassifyRevert(env, ourDir) == Mixed
  {
    OurScriptIsPlain(ourDir, other);
    WrapperShape(ourDir, r, slot);
  }

  /** One chained without hooks, as if installed, is stripped. */
  lemma NoHookIsStripped(h: Host, ourDir: string, r: string, removed: (bool, bool))
    requires IsDataDir(ourDir) && r in h.envs && NoNewline(r)
    requires Hook(h.envs[r], Started).None? && Hook(h.envs[r], Completed).None?
    ensures var h' := Uninstalled(FullyChained(h, ourDir, r), ourDir, r, true, removed);
            r in h'.envs && Hook(h'.envs[r], Started) == None && Hook(h'.envs[r], Completed) == None
  {
    var one := FullyChained(h, ourDir, r);
    ChainedSlot(h, ourDir, r, Started);
    ChainedSlot(h, ourDir, r, Completed);
    OurScriptsAreFresh(one.envs[r], ourDir);
    RemovedHook(one.envs[r], Started);
    RemovedHook(one.envs[r], Completed);
  }

  /** Exactly when chaining a runner and then uninstalling gives both its variables back, whatever they were:
      neither was set, or both were and neither is empty or padded. */
  lemma ChainThenUninstallExactly(h: Host, ourDir: string, r: string, removed: (bool, bool))
    requires IsDataDir(ourDir) && r in h.envs && NoNewline(r)
    ensures var h' := Uninstalled(FullyChained(h, ourDir, r), ourDir, r, true, removed);
            && r in h'.envs
            && ((Hook(h'.envs[r], Started) == Hook(h.envs[r], Started)
                 && Hook(h'.envs[r], Completed) == Hook(h.envs[r], Completed)) <==> ComesBack(h.envs[r]))
  {
    if Hook(h.envs[r], Started).Some? && Hook(h.envs[r], Completed).Some? {
      ChainThenUninstall(h, ourDir, r, removed);
    } else if Hook(h.envs[r], Started).None? && Hook(h.envs[r], Completed).None? {
      NoHookIsStripped(h, ourDir, r, removed);
    } else {
      OneHookIsLeft(h, ourDir, r, removed);
      ChainedSlot(h, ourDir, r, Started);
      ChainedSlot(h, ourDir, r, Completed);
    }
  }

  // ----------------------------------------------------------------- sharing

  /** An operator's hook, outside our directory. */
  predicate IsForeign(ourDir: string, v: string) {
    Restorable(v) && !Inside(ourDir, v)
  }

  /** Two runners, each with a hook of its own in `slot`. */
  predicate TwoForeign(h: Host, ourDir: string, r: string, q: string, slot: Slot) {
    && IsDataDir(ourDir) && r in h.envs && q in h.envs && r != q && NoNewline(r) && NoNewline(q)
    && Hook(h.envs[r], slot).Some? && IsForeign(ourDir, Hook(h.envs[r], slot).value)
    && Hook(h.envs[q], slot).Some? && IsForeign(ourDir, Hook(h.envs[q], slot).value)
  }

  /** After the first chain: `r` is on its wrapper, which names its hook; `q` is as it was. */
  lemma FirstChained(h: Host, ourDir: string, r: string, q: string, slot: Slot)
    requires TwoForeign(h, ourDir, r, q, slot)
    ensures var one, w := FullyChained(h, ourDir, r), WrapperPath(ourDir, r, slot);
            && one.envs.Keys == h.envs.Keys && one.envs[q] == h.envs[q] && Hook(one.envs[r], slot) == Some(w)
            && Unwrapped(one.files, w) == Hook(h.envs[r], slot) && TwoForeign(h, ourDir, q, r, slot)
            && HookOf(h, ourDir, r, slot) == Hook(h.envs[r], slot)
            && HookOf(h, ourDir, q, slot) == Hook(h.envs[q], slot)
  {
    ChainTouches(h, ourDir, r, Written, Written, true);
    WrapperNames(h, ourDir, r, slot);
  }

  /** What a slot on a wrapper runs. */
  lemma WrapperRuns(h: Host, ourDir: string, r: string, slot: Slot, v: string)
    requires IsDataDir(ourDir) && r in h.envs && Hook(h.envs[r], slot) == Some(WrapperPath(ourDir, r, slot))
    requires Unwrapped(h.files, WrapperPath(ourDir, r, slot)) == Some(v) && !Inside(ourDir, v)
    ensures HookOf(h, ourDir, r, slot) == Some(v)
  {
    WrapperShape(ourDir, r, slot);
  }

  /** With one slug, the second chain writes its hook into the first one's wrapper. */
  lemma SharedSlugSwapsHooks(h: Host, ourDir: string, r: string, q: string, slot: Slot)
    requires TwoForeign(h, ourDir, r, q, slot) && Slug(r) == Slug(q)
    ensures var h' := FullyChained(FullyChained(h, ourDir, r), ourDir, q);
            r in h'.envs && HookOf(h', ourDir, r, slot) == HookOf(h, ourDir, q, slot)
  {
    var one := FullyChained(h, ourDir, r);
    FirstChained(h, ourDir, r, q, slot);
    ChainTouches(one, ourDir, q, Written, Written, true);
    WrapperNames(one, ourDir, q, slot);
    assert WrapperPath(ourDir, q, slot) == WrapperPath(ourDir, r, slot);
    WrapperRuns(FullyChained(one, ourDir, q), ourDir, r, slot, Hook(h.envs[q], slot).value);
  }

  lemma OwnSlugKeepsHook(h: Host, ourDir: string, r: string, q: string, slot: Slot)
    requires TwoForeign(h, ourDir, r, q, slot) && Slug(r) != Slug(q)
    ensures var h' := FullyChained(FullyChained(h, ourDir, r), ourDir, q);
            r in h'.envs && HookOf(h', ourDir, r, slot) == HookOf(h, ourDir, r, slot)
  {
    var one, w := FullyChained(h, ourDir, r), WrapperPath(ourDir, r, slot);
    var two := FullyChained(one, ourDir, q);
    FirstChained(h, ourDir, r, q, slot);
    ChainTouches(one, ourDir, q, Written, Written, true);
    WrapperFilesDiffer(ourDir, r, slot, q, Started);
    WrapperFilesDiffer(ourDir, r, slot, q, Completed);
    assert SameAt(one.files, two.files, Parse(w));
    WrapperRuns(two, ourDir, r, slot, Hook(h.envs[r], slot).value);
  }

  /** Chaining both keeps the first one's hook exactly when they have slugs of their own, or one hook. */
  lemma SharedSlugExactly(h: Host, ourDir: string, r: string, q: string, slot: Slot)
    requires TwoForeign(h, ourDir, r, q, slot)
    ensures var h' := FullyChained(FullyChained(h, ourDir, r), ourDir, q);
            && r in h'.envs
            && (HookOf(h', ourDir, r, slot) == HookOf(h, ourDir, r, slot)
                <==> Slug(r) != Slug(q) || Hook(h.envs[q], slot) == Hook(h.envs[r], slot))
  {
    if Slug(r) == Slug(q) {
      FirstChained(h, ourDir, r, q, slot);
      SharedSlugSwapsHooks(h, ourDir, r, q, slot);
    } else {
      OwnSlugKeepsHook(h, ourDir, r, q, slot);
    }
  }

  // -------------------------------------------------- hosts that lose a hook

  /** A script in another directory is such a hook. */
  lemma ScriptElsewhere(ourDir: string, dir: string, name: string)
    requires IsDataDir(dir) && IsPlainName(name) && EndsWith(name, ".sh") && NoNewline(name)
    requires Parse(dir) != Parse(ourDir)
    ensures IsForeign(ourDir, JoinPath(dir, name))
  {
    ScriptShape(dir, name);
    assert Parse(JoinPath(dir, name)).names[..|Parse(dir).names|] == Parse(dir).names;
  }

  /** A `.env` with two hooks and nothing else. */
  function TwoHooks(s: string, c: string): string {
    Rewritten("", s, c, None)
  }

  lemma HooksOf(env: string, s: string, c: string, log: Option<string>)
    requires Restorable(s) && Restorable(c) && (log.Some? ==> NoNewline(log.value))
    ensures var now := Rewritten(env, s, c, log); Hook(now, Started) == Some(s) && Hook(now, Completed) == Some(c)
  {
    RewrittenHook(env, s, c, log, Started);
    RewrittenHook(env, s, c, log, Completed);
  }

  lemma OneRunnerIsWired(ourDir: string, r: string, s: string, c: string)
    requires IsDataDir(ourDir) && NoNewline(r) && IsForeign(ourDir, s) && IsForeign(ourDir, c)
    ensures var h := Host(map[r := TwoHooks(s, c)], map[]);
            && AllWired(h, ourDir)
            && Hook(h.envs[r], Started) == Some(s) && Hook(h.envs[r], Completed) == Some(c)
            && !OnWrapper(h, ourDir, r, Started) && !OnWrapper(h, ourDir, r, Completed)
  {
    HooksOf("", s, c, None);
    PlainIsElsewhere(ourDir, r, Started, s);
    PlainIsElsewhere(ourDir, r, Completed, c);
  }

  /** From two foreign hooks, chained, the operator replaces the second by another: the first is then on its
      wrapper alone, and the installer's own offer to chain loses it. */
  lemma ReplacedThenRechained(ourDir: string, r: string, s: string, c: string, other: string) returns (h: Host)
    requires IsDataDir(ourDir) && NoNewline(r)
    requires IsForeign(ourDir, s) && IsForeign(ourDir, c) && IsForeign(ourDir, other)
    ensures var chained := FullyChained(Host(map[r := TwoHooks(s, c)], map[]), ourDir, r);
            && r in chained.envs
            && h == AfterAct(chained, ourDir, Edit(r, Rewritten(chained.envs[r], WrapperPath(ourDir, r, Started), other,
                                                                Some(EventLog(r)))))
    ensures AllWired(h, ourDir) && r in h.envs && LosesOnChain(h, ourDir, r, Started)
    ensures HookOf(h, ourDir, r, Started) == Some(s) && HookOf(h, ourDir, r, Completed) == Some(other)
    ensures Hook(h.envs[r], Completed) == Some(other)
    ensures var h' := Applied(h, ourDir, r, Choice(true, Written, Written, true));
            r in h'.envs && HookOf(h', ourDir, r, Started) == None
  {
    var start := Host(map[r := TwoHooks(s, c)], map[]);
    var w := WrapperPath(ourDir, r, Started);
    OneRunnerIsWired(ourDir, r, s, c);
    WrapperNames(start, ourDir, r, Started);
    ChainKeeps(start, ourDir, r, Written, Written, true);
    var chained := FullyChained(start, ourDir, r);
    WrapperShape(ourDir, r, Started);
    EventLogIsLine(r);
    HooksOf(chained.envs[r], w, other, Some(EventLog(r)));
    var env := Rewritten(chained.envs[r], w, other, Some(EventLog(r)));
    h := AfterAct(chained, ourDir, Edit(r, env));
    EditKeeps(chained, ourDir, r, env);
    RechainingLosesAHook(h, ourDir, r, Started, Completed);
  }

  predicate IsTop(name: string) {
    IsPlainName(name) && NoNewline(name)
  }

  lemma TopDir(name: string)
    requires IsTop(name)
    ensures IsDataDir("/" + name) && Parse("/" + name).names == [name]
  {
    assert "" + "/" + name == "/" + name;
    OneMoreName("", name);
    assert Names([""]) == [] by { assert [""][1..] == []; }
  }

  lemma TopScript(d: string, name: string, script: string)
    requires IsTop(d) && IsTop(name) && name != d && IsTop(script) && EndsWith(script, ".sh")
    ensures IsForeign("/" + d, JoinPath("/" + name, script))
  {
    TopDir(d);
    TopDir(name);
    ScriptElsewhere("/" + d, "/" + name, script);
  }

  lemma ScriptsApart(x: string, y: string, script: string)
    requires IsTop(x) && IsTop(y) && IsTop(script) && x != y
    ensures JoinPath("/" + x, script) != JoinPath("/" + y, script)
  {
    TopDir(x);
    TopDir(y);
    JoinedComponents("/" + x, script);
    JoinedComponents("/" + y, script);
    assert ([x] + [script])[0] == x && ([y] + [script])[0] == y;
  }

  /** A data directory, and three hooks outside it. */
  lemma ThreeHooks() returns (ourDir: string, a: string, b: string, c: string)
    ensures IsDataDir(ourDir) && IsForeign(ourDir, a) && IsForeign(ourDir, b) && IsForeign(ourDir, c) && a != b
  {
    ourDir, a, b, c := HooksOutside("d", "a", "b", "c", "x.sh");
  }

  lemma HooksOutside(d: string, x: string, y: string, z: string, script: string)
    returns (ourDir: string, a: string, b: string, c: string)
    requires IsTop(d) && IsTop(x) && IsTop(y) && IsTop(z) && d != x && d != y && d != z && x != y
    requires IsTop(script) && EndsWith(script, ".sh")
    ensures IsDataDir(ourDir) && IsForeign(ourDir, a) && IsForeign(ourDir, b) && IsForeign(ourDir, c) && a != b
  {
    ourDir := "/" + d;
    a, b, c := JoinPath("/" + x, script), JoinPath("/" + y, script), JoinPath("/" + z, script);
    TopDir(d);
    TopScript(d, x, script);
    TopScript(d, y, script);
    TopScript(d, z, script);
    ScriptsApart(x, y, script);
  }

  /** Such a host exists. */
  lemma SomeHostLosesAHook() returns (h: Host, ourDir: string, r: string)
    ensures AllWired(h, ourDir) && r in h.envs && LosesOnChain(h, ourDir, r, Started)
    ensures Hook(h.envs[r], Completed).Some? && !Inside(ourDir, Hook(h.envs[r], Completed).value)
  {
    var a, b, c;
    ourDir, a, b, c := ThreeHooks();
    r := "/r";
    h := ReplacedThenRechained(ourDir, r, a, b, c);
  }

  lemma CollidingDirs() returns (r: string, q: string)
    ensures r == "/srv/a-b" && q == "/srv/a/b"
    ensures r != q && NoNewline(r) && NoNewline(q) && Slug(r) == Slug(q)
  {
    r, q := "/srv/a-b", "/srv/a/b";
    assert r[6] == '-' && q[6] == '/';
    SlugsCollide();
  }

  /** And at the two directories of `SlugsCollide`: chaining one runner, then the other, leaves the first
      running the other's hook. */
  lemma SomeHostsSwapHooks() returns (h: Host, ourDir: string, r: string, q: string)
    ensures r == "/srv/a-b" && q == "/srv/a/b" && r in h.envs && q in h.envs
    ensures var h' := FullyChained(FullyChained(h, ourDir, r), ourDir, q);
            && r in h'.envs && HookOf(h', ourDir, r, Started) == HookOf(h, ourDir, q, Started)
            && HookOf(h', ourDir, r, Started) != HookOf(h, ourDir, r, Started)
  {
    var a, b, c;
    ourDir, a, b, c := ThreeHooks();
    r, q := CollidingDirs();
    h := SharedSlugHost(ourDir, r, q, a, b);
  }

  lemma SharedSlugHost(ourDir: string, r: string, q: string, a: string, b: string) returns (h: Host)
    requires IsDataDir(ourDir) && IsForeign(ourDir, a) && IsForeign(ourDir, b) && a != b
    requires r != q && NoNewline(r) && NoNewline(q) && Slug(r) == Slug(q)
    ensures r in h.envs && q in h.envs
    ensures HookOf(h, ourDir, r, Started) == Some(a) && HookOf(h, ourDir, q, Started) == Some(b)
    ensures var h' := FullyChained(FullyChained(h, ourDir, r), ourDir, q);
            r in h'.envs && HookOf(h', ourDir, r, Started) == Some(b)
  {
    h := TwoRunners(ourDir, r, q, a, b);
    SharedSlugSwapsHooks(h, ourDir, r, q, Started);
  }

  lemma TwoRunners(ourDir: string, r: string, q: string, a: string, b: string) returns (h: Host)
    requires IsDataDir(ourDir) && IsForeign(ourDir, a) && IsForeign(ourDir, b) && r != q
    ensures r in h.envs && Hook(h.envs[r], Started) == Some(a) && HookOf(h, ourDir, r, Started) == Some(a)
    ensures q in h.envs && Hook(h.envs[q], Started) == Some(b) && HookOf(h, ourDir, q, Started) == Some(b)
  {
    h := Host(map[r := TwoHooks(a, a), q := TwoHooks(b, b)], map[]);
    HooksOf("", a, a, None);
    HooksOf("", b, b, None);
  }
}
