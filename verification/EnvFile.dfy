/** A runner's `.env`: reading and rewriting the three variables ghr-stats owns. */
module EnvFile {
  import opened Wrappers
  import opened Seqs
  import opened Text
  import opened Paths

  const STARTED_VAR := "ACTIONS_RUNNER_HOOK_JOB_STARTED"
  const COMPLETED_VAR := "ACTIONS_RUNNER_HOOK_JOB_COMPLETED"
  const EVENT_LOG_VAR := "GHR_STATS_EVENT_LOG"

  /** Every other line is the operator's. */
  const OUR_VARS: seq<string> := [STARTED_VAR, COMPLETED_VAR, EVENT_LOG_VAR]

  datatype HookStatus = Ours | Foreign | Unset

  // ---------------------------------------------------------------- the code

  /** The value if `line` assigns exactly `key`. */
  function Assignment(line: string, key: string): Option<string> {
    var l := Trim(line);
    if StartsWith(l, "#") then None
    else match StripPrefix(l, key)
      case None => None
      case Some(rest) => StripPrefix(rest, "=")
  }

  predicate AssignsAny(line: string, keys: seq<string>) {
    exists k :: k in keys && Assignment(line, k).Some?
  }

  /** Whitespace, then quotes, stripped from both ends. */
  function Clean(v: string): string {
    TrimMatches(Trim(v), IsQuote)
  }

  function LastValue(ls: seq<string>, key: string): Option<string> {
    if ls == [] then None
    else match Assignment(ls[|ls| - 1], key)
      case Some(v) => Some(Clean(v))
      case None => LastValue(ls[..|ls| - 1], key)
  }

  /** Last assignment wins. */
  function EnvValue(env: string, key: string): Option<string> {
    LastValue(Lines(env), key)
  }

  function Classify(env: string, ourDirs: seq<string>): HookStatus {
    var s, c := EnvValue(env, STARTED_VAR), EnvValue(env, COMPLETED_VAR);
    if s.None? && c.None? then Unset
    else if s.Some? && IsDirectlyIn(s.value, ourDirs) && c.Some? && IsDirectlyIn(c.value, ourDirs) then Ours
    else Foreign
  }

  function NotAssigning(keys: seq<string>): string -> bool {
    (l: string) => !AssignsAny(l, keys)
  }

  /** The lines a rewrite owning `keys` leaves alone. */
  function Kept(env: string, keys: seq<string>): seq<string> {
    Where(Lines(env), NotAssigning(keys))
  }

  function HookLines(started: string, completed: string, log: Option<string>): seq<string> {
    [STARTED_VAR + "=" + started, COMPLETED_VAR + "=" + completed]
    + (if log.Some? then [EVENT_LOG_VAR + "=" + log.value] else [])
  }

  function Rewritten(env: string, started: string, completed: string, log: Option<string>): string {
    Unlines(Kept(env, OUR_VARS) + HookLines(started, completed, log))
  }

  function Removed(env: string): string {
    Unlines(Kept(env, OUR_VARS))
  }

  function WithEventLog(env: string, log: string): Option<string> {
    if EnvValue(env, EVENT_LOG_VAR) == Some(log) then None
    else Some(Unlines(Kept(env, [EVENT_LOG_VAR]) + [EVENT_LOG_VAR + "=" + log]))
  }

  method RewriteEnv(existing: string, started: string, completed: string, log: Option<string>) returns (s: string)
    ensures s == Rewritten(existing, started, completed, log)
  {
    var out := Kept(existing, OUR_VARS);
    out := out + [STARTED_VAR + "=" + started];
    out := out + [COMPLETED_VAR + "=" + completed];
    if log.Some? {
      out := out + [EVENT_LOG_VAR + "=" + log.value];
    }
    s := Join(out, "\n");
    JoinIsUnlines(out);
    s := s + "\n";
    assert out == Kept(existing, OUR_VARS) + HookLines(started, completed, log);
  }

  method RemoveHookVars(existing: string) returns (s: string)
    ensures s == Removed(existing)
  {
    var kept := Kept(existing, OUR_VARS);
    if kept == [] {
      return "";
    }
    s := Join(kept, "\n");
    JoinIsUnlines(kept);
    s := s + "\n";
  }

  method EnsureEventLog(existing: string, log: string) returns (r: Option<string>)
    ensures r == WithEventLog(existing, log)
  {
    if EnvValue(existing, EVENT_LOG_VAR) == Some(log) {
      return None;
    }
    var out := Kept(existing, [EVENT_LOG_VAR]);
    out := out + [EVENT_LOG_VAR + "=" + log];
    var s := Join(out, "\n");
    JoinIsUnlines(out);
    r := Some(s + "\n");
  }

  // ------------------------------------------------------------ single lines

  /** A key that no whitespace, comment mark or sign of equality confuses. */
  predicate IsKey(key: string) {
    key != "" && !IsWhitespace(key[0]) && key[0] != '#'
  }

  predicate Differ(k: string, l: string) {
    exists i :: 0 <= i < |k| && i < |l| && k[i] != l[i]
  }

  /** The three variables are keys, none a prefix of another. */
  lemma OurVarsDiffer()
    ensures forall k :: k in OUR_VARS ==> IsKey(k) && NoNewline(k)
    ensures forall k, l :: k in OUR_VARS && l in OUR_VARS && k != l ==> Differ(k, l)
  {
    assert STARTED_VAR[24] == 'S' && COMPLETED_VAR[24] == 'C' && EVENT_LOG_VAR[0] == 'G';
  }

  lemma OwnAssignment(key: string, v: string)
    requires IsKey(key)
    ensures Assignment(key + "=" + v, key) == Some(TrimEnd(v, IsWhitespace))
  {
    TrimAfterHead(key + "=", v, IsWhitespace);
    var l := key + "=" + TrimEnd(v, IsWhitespace);
    assert l[|key|..] == "=" + TrimEnd(v, IsWhitespace);
    assert l[|key|..][1..] == TrimEnd(v, IsWhitespace);
  }

  lemma OtherAssignment(key: string, v: string, other: string)
    requires IsKey(key) && Differ(key, other)
    ensures Assignment(key + "=" + v, other) == None
  {
    TrimAfterHead(key + "=", v, IsWhitespace);
    var l := key + "=" + TrimEnd(v, IsWhitespace);
    var i :| 0 <= i < |key| && i < |other| && key[i] != other[i];
    assert l[i] == key[i];
  }

  /** A lost carriage return changes no assignment. */
  lemma AssignmentIgnoresCr(line: string, key: string)
    ensures Assignment(StripCr(line), key) == Assignment(line, key)
  {
    TrimIgnoresCr(line);
  }

  lemma CleanIgnoresEnd(v: string)
    ensures Clean(TrimEnd(v, IsWhitespace)) == Clean(v)
  {
    TrimStartEndCommute(v, IsWhitespace);
  }

  // ------------------------------------------------------------- line by line

  lemma {:induction false} LastValueConcat(a: seq<string>, b: seq<string>, key: string)
    ensures LastValue(a + b, key) == if LastValue(b, key).Some? then LastValue(b, key) else LastValue(a, key)
  {
    if b == [] {
      assert a + b == a;
    } else {
      assert (a + b)[..|a + b| - 1] == a + b[..|b| - 1];
      LastValueConcat(a, b[..|b| - 1], key);
    }
  }

  lemma {:induction false} LastValueIgnoresCr(ls: seq<string>, key: string)
    ensures LastValue(StripCrs(ls), key) == LastValue(ls, key)
  {
    if ls != [] {
      AssignmentIgnoresCr(ls[|ls| - 1], key);
      LastValueIgnoresCr(ls[..|ls| - 1], key);
      assert StripCrs(ls)[..|ls| - 1] == StripCrs(ls[..|ls| - 1]);
    }
  }

  lemma AssignsAnyIgnoresCr(line: string, keys: seq<string>)
    ensures AssignsAny(StripCr(line), keys) == AssignsAny(line, keys)
  {
    forall k ensures Assignment(StripCr(line), k) == Assignment(line, k) {
      AssignmentIgnoresCr(line, k);
    }
  }

  lemma {:induction false} KeptIgnoresCr(ls: seq<string>, keys: seq<string>)
    ensures Where(StripCrs(ls), NotAssigning(keys)) == StripCrs(Where(ls, NotAssigning(keys)))
  {
    if ls != [] {
      var l, rest, keep := ls[0], ls[1..], NotAssigning(keys);
      assert ls == [l] + rest;
      KeptIgnoresCr(rest, keys);
      AssignsAnyIgnoresCr(l, keys);
      StripCrsConcat([l], rest);
      assert StripCrs([l]) == [StripCr(l)];
      WhereCons(l, rest, keep);
      WhereCons(StripCr(l), StripCrs(rest), keep);
      StripCrsConcat(if keep(l) then [l] else [], Where(rest, keep));
    }
  }

  lemma {:induction false} WhereIsLines(ls: seq<string>, keep: string -> bool)
    requires AreLines(ls)
    ensures AreLines(Where(ls, keep))
  {
    if ls != [] {
      WhereIsLines(ls[1..], keep);
    }
  }

  lemma KeptAreLines(env: string, keys: seq<string>)
    ensures AreLines(Kept(env, keys))
  {
    LinesAreLines(env);
    WhereIsLines(Lines(env), NotAssigning(keys));
  }

  lemma {:induction false} OthersUntouched(ls: seq<string>, keys: seq<string>, key: string)
    requires key !in keys && forall l, k :: l in ls && k in keys && Assignment(l, k).Some? ==> Assignment(l, key).None?
    ensures LastValue(Where(ls, NotAssigning(keys)), key) == LastValue(ls, key)
  {
    if ls != [] {
      var front, l := ls[..|ls| - 1], ls[|ls| - 1];
      assert ls == front + [l];
      OthersUntouched(front, keys, key);
      WhereConcat(front, [l], NotAssigning(keys));
      assert Where([l], NotAssigning(keys)) == (if AssignsAny(l, keys) then [] else [l]) by { assert [l][1..] == []; }
      LastValueConcat(Where(front, NotAssigning(keys)), Where([l], NotAssigning(keys)), key);
      LastValueConcat(front, [l], key);
      assert l in ls;
    }
  }

  /** A line assigns at most one of our variables. */
  lemma OneVariablePerLine(line: string, k: string, l: string)
    requires k in OUR_VARS && l in OUR_VARS && k != l && Assignment(line, k).Some?
    ensures Assignment(line, l).None?
  {
    OurVarsDiffer();
    var i :| 0 <= i < |k| && i < |l| && k[i] != l[i];
    var t := Trim(line);
    assert t[i] == k[i];
  }

  // ------------------------------------------------------------- whole files

  /** Values a rewrite may be given: one line of text each. */
  predicate Writable(started: string, completed: string, log: Option<string>) {
    NoNewline(started) && NoNewline(completed) && (log.Some? ==> NoNewline(log.value))
  }

  lemma HookLinesAreOurs(started: string, completed: string, log: Option<string>)
    requires Writable(started, completed, log)
    ensures var hs := HookLines(started, completed, log);
            AreLines(hs) && forall h :: h in hs ==> AssignsAny(h, OUR_VARS)
  {
    OurVarsDiffer();
    OwnAssignment(STARTED_VAR, started);
    OwnAssignment(COMPLETED_VAR, completed);
    if log.Some? {
      OwnAssignment(EVENT_LOG_VAR, log.value);
    }
  }

  lemma RewrittenLines(env: string, started: string, completed: string, log: Option<string>)
    requires Writable(started, completed, log)
    ensures Lines(Rewritten(env, started, completed, log))
         == StripCrs(Kept(env, OUR_VARS)) + StripCrs(HookLines(started, completed, log))
  {
    var kept, hooks := Kept(env, OUR_VARS), HookLines(started, completed, log);
    KeptAreLines(env, OUR_VARS);
    HookLinesAreOurs(started, completed, log);
    AreLinesConcat(kept, hooks);
    LinesOfUnlines(kept + hooks);
    StripCrsConcat(kept, hooks);
  }

  /** The operator's lines survive an install in order, each short at most one carriage return. */
  lemma OperatorLinesSurvive(env: string, started: string, completed: string, log: Option<string>)
    requires Writable(started, completed, log)
    ensures Kept(Rewritten(env, started, completed, log), OUR_VARS) == StripCrs(Kept(env, OUR_VARS))
  {
    var kept, hooks := Kept(env, OUR_VARS), HookLines(started, completed, log);
    RewrittenLines(env, started, completed, log);
    HookLinesAreOurs(started, completed, log);
    WhereConcat(StripCrs(kept), StripCrs(hooks), NotAssigning(OUR_VARS));
    KeptIgnoresCr(kept, OUR_VARS);
    WhereTwice(Lines(env), NotAssigning(OUR_VARS));
    KeptIgnoresCr(hooks, OUR_VARS);
    WhereNone(hooks, NotAssigning(OUR_VARS));
  }

  /** Removing after installing gives what removing alone gives, exactly when no kept line ends in a
      carriage return of its own (one `lines` did not take). */
  lemma RemoveUndoesRewrite(env: string, started: string, completed: string, log: Option<string>)
    requires Writable(started, completed, log)
    ensures Removed(Rewritten(env, started, completed, log)) == Removed(env)
            <==> !SomeEndsInCr(Kept(env, OUR_VARS))
  {
    OperatorLinesSurvive(env, started, completed, log);
    var kept := Kept(env, OUR_VARS);
    UnlinesLength(kept);
    if !SomeEndsInCr(kept) {
      assert StripCrs(kept) == kept;
    }
  }

  lemma ShortLineIsNotOurs(l: string)
    requires |l| < |EVENT_LOG_VAR|
    ensures !AssignsAny(l, OUR_VARS)
  {
    TrimStartIs(l, IsWhitespace);
    TrimEndIs(TrimStart(l, IsWhitespace), IsWhitespace);
  }

  /** Two carriage returns before a newline are such a line. */
  lemma DoubledCrIsNotUndone()
    ensures Removed(Rewritten("A=1\r\r\n", "/s", "/c", None)) != Removed("A=1\r\r\n")
  {
    var env, l := "A=1\r\r\n", "A=1\r";
    assert Unlines(["A=1\r\r"]) == env by { assert ["A=1\r\r"][1..] == []; }
    LinesOfUnlines(["A=1\r\r"]);
    assert StripCrs(["A=1\r\r"])[0] == l;
    assert Lines(env) == [l];
    ShortLineIsNotOurs(l);
    WhereAll([l], NotAssigning(OUR_VARS));
    assert EndsInCr(Kept(env, OUR_VARS)[0]);
    RemoveUndoesRewrite(env, "/s", "/c", None);
  }

  /** Reading a variable back after a rewrite gives the written path, cleaned as every value read is;
      so it gives the path itself exactly when the path has no whitespace or quotes to strip. */
  lemma RewriteReadsBack(env: string, started: string, completed: string, log: Option<string>)
    requires Writable(started, completed, log)
    ensures var n := Rewritten(env, started, completed, log);
            && EnvValue(n, STARTED_VAR) == Some(Clean(started))
            && EnvValue(n, COMPLETED_VAR) == Some(Clean(completed))
            && EnvValue(n, EVENT_LOG_VAR) == (if log.Some? then Some(Clean(log.value)) else None)
  {
    var kept, hooks := Kept(env, OUR_VARS), HookLines(started, completed, log);
    RewrittenLines(env, started, completed, log);
    OurVarsDiffer();
    forall key | key in OUR_VARS
      ensures EnvValue(Rewritten(env, started, completed, log), key) == LastValue(hooks, key)
    {
      LastValueConcat(StripCrs(kept), StripCrs(hooks), key);
      LastValueIgnoresCr(kept, key);
      LastValueIgnoresCr(hooks, key);
      KeptHasNone(Lines(env), key);
    }
    HookValues(started, completed, log, STARTED_VAR);
    HookValues(started, completed, log, COMPLETED_VAR);
    HookValues(started, completed, log, EVENT_LOG_VAR);
  }

  lemma {:induction false} KeptHasNone(ls: seq<string>, key: string)
    requires key in OUR_VARS
    ensures LastValue(Where(ls, NotAssigning(OUR_VARS)), key) == None
  {
    NoneAssigned(Where(ls, NotAssigning(OUR_VARS)), key);
  }

  lemma {:induction false} NoneAssigned(ls: seq<string>, key: string)
    requires forall l :: l in ls ==> Assignment(l, key).None?
    ensures LastValue(ls, key) == None
  {
    if ls != [] {
      assert ls[|ls| - 1] in ls;
      NoneAssigned(ls[..|ls| - 1], key);
    }
  }

  lemma TwoValues(a: string, v: string, b: string, w: string, key: string)
    requires a in OUR_VARS && b in OUR_VARS && key in OUR_VARS
    ensures LastValue([a + "=" + v, b + "=" + w], key)
         == if key == b then Some(Clean(w)) else if key == a then Some(Clean(v)) else None
  {
    OneValue(a, v);
    OneValue(b, w);
    LastValueConcat([a + "=" + v], [b + "=" + w], key);
    assert [a + "=" + v] + [b + "=" + w] == [a + "=" + v, b + "=" + w];
  }

  lemma HookValues(started: string, completed: string, log: Option<string>, key: string)
    requires key in OUR_VARS
    ensures LastValue(HookLines(started, completed, log), key)
         == if key == STARTED_VAR then Some(Clean(started))
            else if key == COMPLETED_VAR then Some(Clean(completed))
            else if log.Some? then Some(Clean(log.value)) else None
  {
    TwoValues(STARTED_VAR, started, COMPLETED_VAR, completed, key);
    var two, hooks := HookLines(started, completed, None), HookLines(started, completed, log);
    if log.None? {
      assert hooks == two;
    } else {
      OneValue(EVENT_LOG_VAR, log.value);
      LastValueConcat(two, [EVENT_LOG_VAR + "=" + log.value], key);
      assert hooks == two + [EVENT_LOG_VAR + "=" + log.value];
    }
  }

  lemma OneValue(key: string, v: string)
    requires key in OUR_VARS
    ensures forall k :: k in OUR_VARS ==> LastValue([key + "=" + v], k) == if k == key then Some(Clean(v)) else None
  {
    OurVarsDiffer();
    OwnAssignment(key, v);
    CleanIgnoresEnd(v);
    var one := [key + "=" + v];
    assert one[..0] == [];
    forall k | k in OUR_VARS && k != key ensures Assignment(key + "=" + v, k).None? {
      OtherAssignment(key, v, k);
    }
  }

  lemma EventLogValue(env: string, log: string, key: string)
    requires NoNewline(log) && WithEventLog(env, log).Some? && key in OUR_VARS
    ensures EnvValue(WithEventLog(env, log).value, key)
         == if key == EVENT_LOG_VAR then Some(Clean(log)) else EnvValue(env, key)
  {
    var kept, line := Kept(env, [EVENT_LOG_VAR]), [EVENT_LOG_VAR + "=" + log];
    EventLogLines(env, log);
    OneValue(EVENT_LOG_VAR, log);
    LastValueConcat(StripCrs(kept), StripCrs(line), key);
    LastValueIgnoresCr(kept, key);
    LastValueIgnoresCr(line, key);
    if key != EVENT_LOG_VAR {
      forall l, k | l in Lines(env) && k in [EVENT_LOG_VAR] && Assignment(l, k).Some? ensures Assignment(l, key).None? {
        OneVariablePerLine(l, EVENT_LOG_VAR, key);
      }
      OthersUntouched(Lines(env), [EVENT_LOG_VAR], key);
    }
  }

  lemma EventLogLines(env: string, log: string)
    requires NoNewline(log) && WithEventLog(env, log).Some?
    ensures Lines(WithEventLog(env, log).value)
         == StripCrs(Kept(env, [EVENT_LOG_VAR])) + StripCrs([EVENT_LOG_VAR + "=" + log])
  {
    var kept, line := Kept(env, [EVENT_LOG_VAR]), [EVENT_LOG_VAR + "=" + log];
    OurVarsDiffer();
    KeptAreLines(env, [EVENT_LOG_VAR]);
    LinesOfUnlines(kept + line);
    assert StripCrs(kept + line) == StripCrs(kept) + StripCrs(line);
  }

  /** A line assigns a value to a key when, without the blanks around it, it is the key, an equals sign and the
      value, and no comment. */
  lemma AssignmentExactly(line: string, key: string, v: string)
    requires IsKey(key)
    ensures Assignment(line, key) == Some(v) <==> Trim(line) == key + "=" + v
  {
    var l := Trim(line);
    if Assignment(line, key) == Some(v) {
      var rest := StripPrefix(l, key).value;
      assert l == key + rest && rest == "=" + v;
    }
    if l == key + "=" + v {
      assert l == key + ("=" + v);
      assert l[|key|..] == "=" + v && ("=" + v)[1..] == v;
      assert l[0] == key[0];
    }
  }

  /** A variable's value is what the last line that assigns it says, without blanks and quotes around it. */
  lemma {:induction false} LastLineWins(ls: seq<string>, key: string, i: nat)
    requires i < |ls| && Assignment(ls[i], key).Some? && forall j :: i < j < |ls| ==> Assignment(ls[j], key) == None
    ensures LastValue(ls, key) == Some(Clean(Assignment(ls[i], key).value))
  {
    if i < |ls| - 1 {
      LastLineWins(ls[..|ls| - 1], key, i);
    }
  }

  lemma {:induction false} NoLineNoValue(ls: seq<string>, key: string)
    requires forall j :: 0 <= j < |ls| ==> Assignment(ls[j], key) == None
    ensures LastValue(ls, key) == None
  {
    if ls != [] {
      NoLineNoValue(ls[..|ls| - 1], key);
    }
  }

  /** The event log is set exactly when it does not read as the path already. */
  lemma EventLogIsSetExactly(env: string, log: string)
    ensures WithEventLog(env, log).None? <==> EnvValue(env, EVENT_LOG_VAR) == Some(log)
  {
  }

  /** After setting the event log, the hook variables and every other line are as they were, and
      doing it again changes nothing exactly when the path reads back as written. */
  lemma EventLogIsSetOnce(env: string, log: string)
    requires NoNewline(log) && WithEventLog(env, log).Some?
    ensures var n := WithEventLog(env, log).value;
            && EnvValue(n, STARTED_VAR) == EnvValue(env, STARTED_VAR)
            && EnvValue(n, COMPLETED_VAR) == EnvValue(env, COMPLETED_VAR)
            && EnvValue(n, EVENT_LOG_VAR) == Some(Clean(log))
            && Kept(n, [EVENT_LOG_VAR]) == StripCrs(Kept(env, [EVENT_LOG_VAR]))
            && (WithEventLog(n, log) == None <==> Clean(log) == log)
  {
    EventLogValue(env, log, STARTED_VAR);
    EventLogValue(env, log, COMPLETED_VAR);
    EventLogValue(env, log, EVENT_LOG_VAR);
    EventLogKeepsLines(env, log);
  }

  lemma EventLogKeepsLines(env: string, log: string)
    requires NoNewline(log) && WithEventLog(env, log).Some?
    ensures Kept(WithEventLog(env, log).value, [EVENT_LOG_VAR]) == StripCrs(Kept(env, [EVENT_LOG_VAR]))
  {
    var keys := [EVENT_LOG_VAR];
    var kept, line := Kept(env, keys), [EVENT_LOG_VAR + "=" + log];
    OurVarsDiffer();
    EventLogLines(env, log);
    WhereConcat(StripCrs(kept), StripCrs(line), NotAssigning(keys));
    KeptIgnoresCr(kept, keys);
    WhereTwice(Lines(env), NotAssigning(keys));
    KeptIgnoresCr(line, keys);
    OwnAssignment(EVENT_LOG_VAR, log);
    assert EVENT_LOG_VAR in keys;
    WhereNone(line, NotAssigning(keys));
  }

  /** A rewritten file is ours exactly when its scripts, as they read back, lie directly in one of our
      directories. */
  lemma InstalledIsOurs(env: string, started: string, completed: string, log: Option<string>, dirs: seq<string>)
    requires Writable(started, completed, log)
    ensures Classify(Rewritten(env, started, completed, log), dirs)
         == if IsDirectlyIn(Clean(started), dirs) && IsDirectlyIn(Clean(completed), dirs) then Ours else Foreign
  {
    RewriteReadsBack(env, started, completed, log);
  }

  /** Removing keeps every other line too, each short at most one carriage return. */
  lemma RemovedKeeps(env: string)
    ensures Kept(Removed(env), OUR_VARS) == StripCrs(Kept(env, OUR_VARS))
  {
    KeptAreLines(env, OUR_VARS);
    LinesOfUnlines(Kept(env, OUR_VARS));
    KeptIgnoresCr(Kept(env, OUR_VARS), OUR_VARS);
    WhereTwice(Lines(env), NotAssigning(OUR_VARS));
  }

  /** And removing it leaves the hooks unset. */
  lemma RemovedIsUnset(env: string, dirs: seq<string>)
    ensures Classify(Removed(env), dirs) == Unset
  {
    KeptAreLines(env, OUR_VARS);
    LinesOfUnlines(Kept(env, OUR_VARS));
    forall key | key in OUR_VARS ensures EnvValue(Removed(env), key) == None {
      LastValueIgnoresCr(Kept(env, OUR_VARS), key);
      KeptHasNone(Lines(env), key);
    }
  }
}
