/** Several processes editing one configuration file, each load-modify-write under the file's lock. */
module Editors {
  import opened Wrappers
  import opened Seqs

  /** What each editor does to the document: a new one, or a refusal. */
  type Edits<!D> = nat -> (D -> Option<D>)

  /** Where an editor is: after `Finished` it only has to let go of the lock. */
  datatype Phase<D> = Waiting | Holding | Loaded(doc: D) | Mutated(doc: D) | Finished(ok: bool) | Gone(ok: bool)

  /** `acquired` and `written` record who took the lock and who installed a document, in order. */
  datatype World<D> = World(file: D, lock: Option<nat>, phases: map<nat, Phase<D>>, acquired: seq<nat>,
      written: seq<nat>)

  datatype Step =
    | Lock(i: nat)
    | LockFails(i: nat)
    | Load(i: nat, ok: bool)
    | Mutate(i: nat)
    | Write(i: nat, ok: bool)
    | Unlock(i: nat)
    | Crash(i: nat)

  function PhaseOf<D>(w: World<D>, i: nat): Phase<D> {
    if i in w.phases then w.phases[i] else Waiting
  }

  predicate IsActive<D>(p: Phase<D>) {
    p.Holding? || p.Loaded? || p.Mutated? || p.Finished?
  }

  function WithPhase<D>(w: World<D>, i: nat, p: Phase<D>): World<D> {
    w.(phases := w.phases[i := p])
  }

  function Released<D>(w: World<D>, i: nat): World<D> {
    if w.lock == Some(i) then w.(lock := None) else w
  }

  /** One step; a step its editor is not ready for changes nothing. Installing the document is one atomic
      rename, and a crash lets go of the lock. */
  function After<D>(edits: Edits<D>, w: World<D>, step: Step): World<D> {
    var i := step.i;
    var p := PhaseOf(w, i);
    match step
    case Lock(_) =>
      if p.Waiting? && w.lock.None? then WithPhase(w, i, Holding).(lock := Some(i), acquired := w.acquired + [i]) else w
    case LockFails(_) =>
      if p.Waiting? then WithPhase(w, i, Holding) else w
    case Load(_, ok) =>
      if p.Holding? then WithPhase(w, i, if ok then Loaded(w.file) else Finished(false)) else w
    case Mutate(_) =>
      if !p.Loaded? then w
      else
        var edited := edits(i)(p.doc);
        WithPhase(w, i, if edited.Some? then Mutated(edited.value) else Finished(false))
    case Write(_, ok) =>
      if !p.Mutated? then w
      else if ok then WithPhase(w, i, Finished(true)).(file := p.doc, written := w.written + [i])
      else WithPhase(w, i, Finished(false))
    case Unlock(_) =>
      if p.Finished? then Released(WithPhase(w, i, Gone(p.ok)), i) else w
    case Crash(_) =>
      if IsActive(p) then Released(WithPhase(w, i, Gone(p.Finished? && p.ok)), i) else w
  }

  function AfterAll<D>(edits: Edits<D>, w: World<D>, steps: seq<Step>): World<D>
    decreases |steps|
  {
    if steps == [] then w else AfterAll(edits, After(edits, w, steps[0]), steps[1..])
  }

  function Start<D>(file: D): World<D> {
    World(file, None, map[], [], [])
  }

  /** The edits of `ids`, one after the other, each on what the one before left. */
  function InTurn<D>(edits: Edits<D>, file: D, ids: seq<nat>): Option<D> {
    if ids == [] then Some(file)
    else
      var before := InTurn(edits, file, ids[..|ids| - 1]);
      if before.None? then None else edits(ids[|ids| - 1])(before.value)
  }

  predicate Succeeded<D>(p: Phase<D>) {
    (p.Finished? || p.Gone?) && p.ok
  }

  function DidSucceed<D>(phases: map<nat, Phase<D>>): nat -> bool {
    (i: nat) => i in phases && Succeeded(phases[i])
  }

  predicate Distinct(ids: seq<nat>) {
    forall i, j :: 0 <= i < j < |ids| ==> ids[i] != ids[j]
  }

  /** Documents were installed by the editors that succeeded, in the order they took the lock, and whoever
      holds it took it last. */
  ghost predicate LockOrder<D>(w: World<D>) {
    && w.written == Where(w.acquired, DidSucceed(w.phases))
    && Distinct(w.acquired)
    && (forall i :: i in w.acquired ==> i in w.phases && !w.phases[i].Waiting?)
    && (w.lock.Some? ==> w.acquired != [] && w.acquired[|w.acquired| - 1] == w.lock.value)
  }

  /** The one active editor holds the lock; what it loaded is still the file, and what it made of it the
      file edited. */
  ghost predicate OneActive<D>(edits: Edits<D>, w: World<D>) {
    forall i :: i in w.phases && IsActive(w.phases[i]) ==> w.lock == Some(i) && UpToDate(edits, i, w.phases[i], w.file)
  }

  predicate UpToDate<D(==)>(edits: Edits<D>, i: nat, p: Phase<D>, file: D) {
    (p.Loaded? ==> p.doc == file) && (p.Mutated? ==> edits(i)(file) == Some(p.doc))
  }

  ghost predicate Serial<D>(edits: Edits<D>, init: D, w: World<D>) {
    InTurn(edits, init, w.written) == Some(w.file) && LockOrder(w) && OneActive(edits, w)
  }

  /** The last to take the lock is judged apart from those before. */
  lemma WhereLast(ids: seq<nat>, keep: nat -> bool)
    requires ids != []
    ensures Where(ids, keep) == Where(ids[..|ids| - 1], keep) + if keep(ids[|ids| - 1]) then [ids[|ids| - 1]] else []
  {
    var front, last := ids[..|ids| - 1], ids[|ids| - 1];
    assert ids == front + [last];
    WhereConcat(front, [last], keep);
    assert [last][1..] == [];
  }

  /** Only the last of `acquired` changes phase, so the others are judged as before. */
  lemma OthersAgree<D>(w: World<D>, i: nat, p: Phase<D>)
    requires Distinct(w.acquired) && w.acquired != [] && w.acquired[|w.acquired| - 1] == i
    ensures var front := w.acquired[..|w.acquired| - 1];
            Where(front, DidSucceed(w.phases[i := p])) == Where(front, DidSucceed(w.phases))
  {
    WhereAgrees(w.acquired[..|w.acquired| - 1], DidSucceed(w.phases[i := p]), DidSucceed(w.phases));
  }

  /** The active editor moves on without having installed anything, or having installed it before. */
  lemma SameVerdict<D>(w: World<D>, i: nat, p: Phase<D>)
    requires Distinct(w.acquired) && w.acquired != [] && w.acquired[|w.acquired| - 1] == i && i in w.phases
    requires Succeeded(p) == Succeeded(w.phases[i])
    ensures Where(w.acquired, DidSucceed(w.phases[i := p])) == Where(w.acquired, DidSucceed(w.phases))
  {
    WhereAgrees(w.acquired, DidSucceed(w.phases[i := p]), DidSucceed(w.phases));
  }

  lemma LockVerdicts<D>(w: World<D>, i: nat)
    requires i !in w.acquired
    ensures Where(w.acquired + [i], DidSucceed(w.phases[i := Holding])) == Where(w.acquired, DidSucceed(w.phases))
  {
    var now := DidSucceed(w.phases[i := Holding]);
    WhereAgrees(w.acquired, now, DidSucceed(w.phases));
    WhereConcat(w.acquired, [i], now);
    assert [i][1..] == [];
  }

  lemma LockKeeps<D>(edits: Edits<D>, init: D, w: World<D>, i: nat)
    requires Serial(edits, init, w)
    ensures Serial(edits, init, After(edits, w, Lock(i)))
  {
    if PhaseOf(w, i).Waiting? && w.lock.None? {
      assert i !in w.acquired;
      LockVerdicts(w, i);
      DistinctMore(w.acquired, i);
    }
  }

  lemma DistinctMore(ids: seq<nat>, i: nat)
    requires Distinct(ids) && i !in ids
    ensures Distinct(ids + [i])
  {
  }

  lemma WriteVerdicts<D>(w: World<D>, i: nat)
    requires Distinct(w.acquired) && w.acquired != [] && w.acquired[|w.acquired| - 1] == i
    requires i in w.phases && !Succeeded(w.phases[i])
    ensures Where(w.acquired, DidSucceed(w.phases[i := Finished(true)])) == Where(w.acquired, DidSucceed(w.phases))
        + [i]
  {
    OthersAgree(w, i, Finished(true));
    WhereLast(w.acquired, DidSucceed(w.phases));
    WhereLast(w.acquired, DidSucceed(w.phases[i := Finished(true)]));
  }

  lemma InTurnMore<D>(edits: Edits<D>, init: D, ids: seq<nat>, i: nat)
    requires InTurn(edits, init, ids).Some?
    ensures InTurn(edits, init, ids + [i]) == edits(i)(InTurn(edits, init, ids).value)
  {
    assert (ids + [i])[..|ids|] == ids;
  }

  lemma WriteLockOrder<D>(w: World<D>, i: nat)
    requires LockOrder(w) && i in w.phases && w.lock == Some(i) && !Succeeded(w.phases[i])
    ensures LockOrder(WithPhase(w, i, Finished(true)).(written := w.written + [i]))
  {
    WriteVerdicts(w, i);
  }

  lemma WriteOneActive<D>(edits: Edits<D>, w: World<D>, i: nat)
    requires OneActive(edits, w) && PhaseOf(w, i).Mutated?
    ensures w.lock == Some(i) && edits(i)(w.file) == Some(PhaseOf(w, i).doc)
    ensures OneActive(edits, After(edits, w, Write(i, true)))
  {
  }

  lemma WriteKeeps<D>(edits: Edits<D>, init: D, w: World<D>, i: nat)
    requires Serial(edits, init, w) && PhaseOf(w, i).Mutated?
    ensures Serial(edits, init, After(edits, w, Write(i, true)))
  {
    WriteOneActive(edits, w, i);
    WriteLockOrder(w, i);
    InTurnMore(edits, init, w.written, i);
  }

  lemma QuietLockOrder<D>(w: World<D>, i: nat, p: Phase<D>)
    requires LockOrder(w) && i in w.phases && w.lock == Some(i) && !p.Waiting? && Succeeded(p) == Succeeded(w.phases[i])
    ensures LockOrder(WithPhase(w, i, p))
  {
    SameVerdict(w, i, p);
  }

  /** Any other step of the editor that holds the lock. */
  lemma QuietKeeps<D>(edits: Edits<D>, init: D, w: World<D>, i: nat, p: Phase<D>)
    requires Serial(edits, init, w) && IsActive(PhaseOf(w, i)) && !p.Waiting?
    requires Succeeded(p) == Succeeded(PhaseOf(w, i)) && UpToDate(edits, i, p, w.file)
    ensures Serial(edits, init, WithPhase(w, i, p))
    ensures !IsActive(p) ==> Serial(edits, init, Released(WithPhase(w, i, p), i))
  {
    QuietLockOrder(w, i, p);
  }

  lemma StepKeeps<D>(edits: Edits<D>, init: D, w: World<D>, step: Step)
    requires Serial(edits, init, w) && !step.LockFails?
    ensures Serial(edits, init, After(edits, w, step))
  {
    var p := PhaseOf(w, step.i);
    match step
    case Lock(i) => LockKeeps(edits, init, w, i);
    case Load(i, ok) =>
      if p.Holding? {
        QuietKeeps(edits, init, w, i, if ok then Loaded(w.file) else Finished(false));
      }
    case Mutate(i) => MutateKeeps(edits, init, w, i);
    case Write(i, ok) =>
      if p.Mutated? {
        if ok {
          WriteKeeps(edits, init, w, i);
        } else {
          QuietKeeps(edits, init, w, i, Finished(false));
        }
      }
    case Unlock(i) =>
      if p.Finished? {
        QuietKeeps(edits, init, w, i, Gone(p.ok));
      }
    case Crash(i) =>
      if IsActive(p) {
        QuietKeeps(edits, init, w, i, Gone(p.Finished? && p.ok));
      }
  }

  lemma MutateKeeps<D>(edits: Edits<D>, init: D, w: World<D>, i: nat)
    requires Serial(edits, init, w)
    ensures Serial(edits, init, After(edits, w, Mutate(i)))
  {
    var p := PhaseOf(w, i);
    if p.Loaded? {
      var edited := edits(i)(p.doc);
      QuietKeeps(edits, init, w, i, if edited.Some? then Mutated(edited.value) else Finished(false));
    }
  }

  lemma StepGrows<D>(edits: Edits<D>, w: World<D>, step: Step)
    ensures w.written <= After(edits, w, step).written
  {
  }

  function Rank<D>(p: Phase<D>): nat {
    match p
    case Waiting => 0
    case Holding => 1
    case Loaded(_) => 2
    case Mutated(_) => 3
    case Finished(_) => 4
    case Gone(_) => 5
  }

  /** An editor goes through its edit once: a step moves it on, or changes nothing of it, and no other editor. */
  lemma PhasesMoveOn<D>(edits: Edits<D>, w: World<D>, step: Step, j: nat)
    ensures var p, q := PhaseOf(w, j), PhaseOf(After(edits, w, step), j);
            Rank(p) <= Rank(q) && (Rank(p) == Rank(q) || j != step.i ==> p == q)
  {
  }

  /** An editor that unlocks, or crashes, lets go of the lock, and the next can take it. */
  lemma LockIsLetGo<D>(edits: Edits<D>, w: World<D>, i: nat, j: nat, crashes: bool)
    requires w.lock == Some(i) && i != j && PhaseOf(w, j).Waiting?
    requires if crashes then IsActive(PhaseOf(w, i)) else PhaseOf(w, i).Finished?
    ensures var w' := After(edits, After(edits, w, if crashes then Crash(i) else Unlock(i)), Lock(j));
            w'.lock == Some(j) && PhaseOf(w', j) == Holding && w'.file == w.file && PhaseOf(w', i).Gone?
  {
  }

  /** A run of an editor on its own, nothing failing, leaves what its edit makes of the file. */
  lemma AloneItEdits<D>(edits: Edits<D>, d: D, i: nat)
    requires edits(i)(d).Some?
    ensures var w := After(edits, After(edits, After(edits, After(edits, After(edits, Start(d),
                       Lock(i)), Load(i, true)), Mutate(i)), Write(i, true)), Unlock(i));
            Some(w.file) == edits(i)(d) && w.lock == None && w.written == [i] && PhaseOf(w, i) == Gone(true)
  {
    assert [] + [i] == [i];
  }

  predicate AllLocked(steps: seq<Step>) {
    forall i :: 0 <= i < |steps| ==> !steps[i].LockFails?
  }

  /** Whatever the interleaving and whoever crashes, the file is the successful edits one after the other
      in lock order, and what it was at any earlier point is the first few of them: a reader never sees a
      mix. */
  lemma {:induction false} EditsAreSerial<D>(edits: Edits<D>, init: D, w: World<D>, steps: seq<Step>)
    requires Serial(edits, init, w) && AllLocked(steps)
    ensures var w' := AfterAll(edits, w, steps);
            && InTurn(edits, init, w'.written) == Some(w'.file)
            && w'.written == Where(w'.acquired, DidSucceed(w'.phases))
            && w.written <= w'.written && InTurn(edits, init, w.written) == Some(w.file)
    decreases |steps|
  {
    if steps != [] {
      StepKeeps(edits, init, w, steps[0]);
      StepGrows(edits, w, steps[0]);
      EditsAreSerial(edits, init, After(edits, w, steps[0]), steps[1..]);
    }
  }

  lemma StartIsSerial<D>(edits: Edits<D>, init: D)
    ensures Serial(edits, init, Start(init))
  {
  }
}
