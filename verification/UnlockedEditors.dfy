/** Editors that go without the lock, which is best-effort: what each run needs, and who may. */
module UnlockedEditors {
  import opened Wrappers
  import opened Editors

  // ----------------------------------------------------------- of any one run

  predicate Installs<D>(w: World<D>, step: Step) {
    step.Write? && step.ok && PhaseOf(w, step.i).Mutated?
  }

  /** An install writes what its edit makes of the very file it replaces. */
  predicate IsFresh<D(==)>(edits: Edits<D>, w: World<D>, step: Step) {
    Installs(w, step) ==> edits(step.i)(w.file) == Some(PhaseOf(w, step.i).doc)
  }

  predicate AllFresh<D(==)>(edits: Edits<D>, w: World<D>, steps: seq<Step>)
    decreases |steps|
  {
    steps == [] || (IsFresh(edits, w, steps[0]) && AllFresh(edits, After(edits, w, steps[0]), steps[1..]))
  }

  /** At every point of the run the file is the edits installed so far, one after the other. */
  predicate AlwaysInTurn<D(==)>(edits: Edits<D>, init: D, w: World<D>, steps: seq<Step>)
    decreases |steps|
  {
    && InTurn(edits, init, w.written) == Some(w.file)
    && (steps == [] || AlwaysInTurn(edits, init, After(edits, w, steps[0]), steps[1..]))
  }

  lemma OnlyInstallsWrite<D>(edits: Edits<D>, w: World<D>, step: Step)
    requires !Installs(w, step)
    ensures After(edits, w, step).written == w.written && After(edits, w, step).file == w.file
  {
  }

  lemma InstallWrites<D>(edits: Edits<D>, w: World<D>, step: Step)
    requires Installs(w, step)
    ensures After(edits, w, step).written == w.written + [step.i]
    ensures After(edits, w, step).file == PhaseOf(w, step.i).doc
  {
  }

  lemma FreshStep<D>(edits: Edits<D>, init: D, w: World<D>, step: Step)
    requires InTurn(edits, init, w.written) == Some(w.file)
    ensures var w' := After(edits, w, step);
            InTurn(edits, init, w'.written) == Some(w'.file) <==> IsFresh(edits, w, step)
  {
    if Installs(w, step) {
      InstallWrites(edits, w, step);
      InTurnMore(edits, init, w.written, step.i);
    } else {
      OnlyInstallsWrite(edits, w, step);
    }
  }

  /** Of any run, whoever has the lock: its edits happen one after the other exactly when every install
      wrote what its edit makes of the file it replaced. */
  lemma {:induction false} InTurnExactly<D>(edits: Edits<D>, init: D, w: World<D>, steps: seq<Step>)
    requires InTurn(edits, init, w.written) == Some(w.file)
    ensures AlwaysInTurn(edits, init, w, steps) <==> AllFresh(edits, w, steps)
    decreases |steps|
  {
    if steps != [] {
      var w' := After(edits, w, steps[0]);
      FreshStep(edits, init, w, steps[0]);
      if IsFresh(edits, w, steps[0]) {
        InTurnExactly(edits, init, w', steps[1..]);
      }
    }
  }

  /** The lock is enough for that. */
  lemma {:induction false} LockedIsFresh<D>(edits: Edits<D>, init: D, w: World<D>, steps: seq<Step>)
    requires Serial(edits, init, w) && AllLocked(steps)
    ensures AllFresh(edits, w, steps)
    decreases |steps|
  {
    if steps != [] {
      StepKeeps(edits, init, w, steps[0]);
      FreshStep(edits, init, w, steps[0]);
      LockedIsFresh(edits, init, After(edits, w, steps[0]), steps[1..]);
    }
  }

  lemma {:induction false} EndsInTurn<D>(edits: Edits<D>, init: D, w: World<D>, steps: seq<Step>)
    requires AlwaysInTurn(edits, init, w, steps)
    ensures InTurn(edits, init, AfterAll(edits, w, steps).written) == Some(AfterAll(edits, w, steps).file)
    decreases |steps|
  {
    if steps != [] {
      EndsInTurn(edits, init, After(edits, w, steps[0]), steps[1..]);
    }
  }

  // ------------------------------------------------------------------- a race

  /** Two editors load, `j` without the lock; both make their edit; `x` installs its own, then `y`. */
  function Race(i: nat, j: nat, x: nat, y: nat): seq<Step> {
    [Lock(i), Load(i, true), LockFails(j), Load(j, true)] + [Mutate(i), Mutate(j), Write(x, true), Write(y, true)]
  }

  lemma OneStep<D>(edits: Edits<D>, w: World<D>, a: Step, rest: seq<Step>)
    ensures AfterAll(edits, w, [a] + rest) == AfterAll(edits, After(edits, w, a), rest)
  {
    assert ([a] + rest)[1..] == rest;
  }

  lemma FourSteps<D>(edits: Edits<D>, w: World<D>, a: Step, b: Step, c: Step, d: Step)
    ensures AfterAll(edits, w, [a, b, c, d])
         == After(edits, After(edits, After(edits, After(edits, w, a), b), c), d)
  {
    assert [a, b, c, d] == [a] + [b, c, d] && [b, c, d] == [b] + [c, d] && [c, d] == [c] + [d] && [d] == [d] + [];
    var w1 := After(edits, w, a);
    var w2 := After(edits, w1, b);
    OneStep(edits, w, a, [b, c, d]);
    OneStep(edits, w1, b, [c, d]);
    OneStep(edits, w2, c, [d]);
    OneStep(edits, After(edits, w2, c), d, []);
  }

  lemma {:induction false} Split<D>(edits: Edits<D>, w: World<D>, a: seq<Step>, b: seq<Step>)
    ensures AfterAll(edits, w, a + b) == AfterAll(edits, AfterAll(edits, w, a), b)
    decreases |a|
  {
    if a == [] {
      assert a + b == b;
    } else {
      assert (a + b)[1..] == a[1..] + b;
      Split(edits, After(edits, w, a[0]), a[1..], b);
    }
  }

  /** Both have loaded `d`. */
  function Raced<D>(i: nat, j: nat, d: D): World<D> {
    World(d, Some(i), map[i := Loaded(d), j := Loaded(d)], [i], [])
  }

  lemma BothLoad<D>(edits: Edits<D>, i: nat, j: nat, d: D)
    requires i != j
    ensures AfterAll(edits, Start(d), [Lock(i), Load(i, true), LockFails(j), Load(j, true)]) == Raced(i, j, d)
  {
    FourSteps(edits, Start(d), Lock(i), Load(i, true), LockFails(j), Load(j, true));
    assert [] + [i] == [i];
  }

  lemma BothMutate<D>(edits: Edits<D>, i: nat, j: nat, d: D, a: D, b: D)
    requires i != j && edits(i)(d) == Some(a) && edits(j)(d) == Some(b)
    ensures After(edits, After(edits, Raced(i, j, d), Mutate(i)), Mutate(j))
         == World(d, Some(i), map[i := Mutated(a), j := Mutated(b)], [i], [])
  {
  }

  lemma BothInstall<D>(edits: Edits<D>, w: World<D>, x: nat, y: nat, b: D)
    requires x != y && PhaseOf(w, x).Mutated? && PhaseOf(w, y) == Mutated(b) && w.written == []
    ensures var w' := After(edits, After(edits, w, Write(x, true)), Write(y, true));
            && w'.written == [x, y] && w'.file == b && DidSucceed(w'.phases)(x) && DidSucceed(w'.phases)(y)
  {
    assert [] + [x] == [x] && [x] + [y] == [x, y];
  }

  /** Both succeed, and the file is what the last made of what both loaded. */
  lemma RaceEnds<D>(edits: Edits<D>, i: nat, j: nat, x: nat, y: nat, d: D)
    requires i != j && edits(i)(d).Some? && edits(j)(d).Some? && x != y && {x, y} == {i, j}
    ensures var w := AfterAll(edits, Start(d), Race(i, j, x, y));
            && w.written == [x, y] && edits(y)(d) == Some(w.file)
            && DidSucceed(w.phases)(x) && DidSucceed(w.phases)(y)
  {
    var a, b := edits(i)(d).value, edits(j)(d).value;
    BothLoad(edits, i, j, d);
    Split(edits, Start(d), [Lock(i), Load(i, true), LockFails(j), Load(j, true)],
      [Mutate(i), Mutate(j), Write(x, true), Write(y, true)]);
    FourSteps(edits, Raced(i, j, d), Mutate(i), Mutate(j), Write(x, true), Write(y, true));
    BothMutate(edits, i, j, d, a, b);
    assert x in {i, j} && y in {i, j};
    BothInstall(edits, World(d, Some(i), map[i := Mutated(a), j := Mutated(b)], [i], []), x, y,
      if y == i then a else b);
  }

  lemma BothInTurn<D>(edits: Edits<D>, d: D, i: nat, j: nat, a: D)
    requires edits(i)(d) == Some(a)
    ensures InTurn(edits, d, [i, j]) == edits(j)(a)
  {
    InTurnMore(edits, d, [], i);
    InTurnMore(edits, d, [i], j);
    assert [] + [i] == [i] && [i] + [j] == [i, j];
  }

  /** With one editor that could not take the lock, whatever the two edits are, the file ends as if the other
      had never run; either order of the two gives that only where it makes no difference. */
  lemma UnlockedEditorLosesAnEdit<D>(edits: Edits<D>, i: nat, j: nat, d: D, a: D, b: D)
    requires i != j && edits(i)(d) == Some(a) && edits(j)(d) == Some(b)
    ensures var w := AfterAll(edits, Start(d), Race(i, j, i, j));
            && w.written == [i, j] && w.file == b
            && DidSucceed(w.phases)(i) && DidSucceed(w.phases)(j)
            && (InTurn(edits, d, [i, j]) == Some(w.file) <==> edits(j)(a) == Some(b))
            && (InTurn(edits, d, [j, i]) == Some(w.file) <==> edits(i)(b) == Some(b))
  {
    RaceEnds(edits, i, j, i, j, d);
    BothInTurn(edits, d, i, j, a);
    BothInTurn(edits, d, j, i, b);
  }

  // ---------------------------------------------------------- who may go without

  /** Neither edit depends on the other: each makes of a file the same whether or not the other came first. */
  ghost predicate Independent<D(!new)>(edits: Edits<D>, i: nat, j: nat) {
    forall d: D :: edits(i)(d).Some? && edits(j)(d).Some? ==>
      && edits(i)(edits(j)(d).value) == edits(i)(d)
      && edits(j)(edits(i)(d).value) == edits(j)(d)
  }

  /** The editors that may find the lock not to be had. */
  type EditorSet = nat -> bool

  ghost predicate MayGo<D(!new)>(edits: Edits<D>, unlocked: EditorSet) {
    forall i, j :: unlocked(i) && i != j ==> Independent(edits, i, j)
  }

  predicate OnlyThese(unlocked: EditorSet, steps: seq<Step>) {
    forall k :: 0 <= k < |steps| && steps[k].LockFails? ==> unlocked(steps[k].i)
  }

  /** What an editor has in hand is what its edit makes of the file as it is now. */
  predicate StillGood<D(==)>(edits: Edits<D>, i: nat, p: Phase<D>, file: D) {
    && (p.Loaded? && edits(i)(p.doc).Some? ==> edits(i)(file) == edits(i)(p.doc))
    && (p.Mutated? ==> edits(i)(file) == Some(p.doc))
  }

  ghost predicate AllGood<D>(edits: Edits<D>, unlocked: EditorSet, w: World<D>) {
    forall i :: i in w.phases && IsActive(w.phases[i]) ==>
      (w.lock == Some(i) || unlocked(i)) && StillGood(edits, i, w.phases[i], w.file)
  }

  /** An install leaves the others good. */
  lemma InstallKeepsGood<D(!new)>(edits: Edits<D>, unlocked: EditorSet, w: World<D>, k: nat)
    requires MayGo(edits, unlocked) && AllGood(edits, unlocked, w) && PhaseOf(w, k).Mutated?
    ensures AllGood(edits, unlocked, After(edits, w, Write(k, true)))
  {
    var w' := After(edits, w, Write(k, true));
    forall i | i in w'.phases && IsActive(w'.phases[i])
      ensures (w'.lock == Some(i) || unlocked(i)) && StillGood(edits, i, w'.phases[i], w'.file)
    {
      if i != k {
        assert w'.phases[i] == w.phases[i] && (unlocked(i) || unlocked(k));
        assert Independent(edits, i, k) || Independent(edits, k, i);
        assert edits(k)(w.file) == Some(w'.file);
      }
    }
  }

  lemma StepKeepsGood<D(!new)>(edits: Edits<D>, unlocked: EditorSet, w: World<D>, step: Step)
    requires MayGo(edits, unlocked) && AllGood(edits, unlocked, w) && (step.LockFails? ==> unlocked(step.i))
    ensures AllGood(edits, unlocked, After(edits, w, step)) && IsFresh(edits, w, step)
  {
    if Installs(w, step) {
      InstallKeepsGood(edits, unlocked, w, step.i);
    }
  }

  lemma {:induction false} GoodRunsAreFresh<D(!new)>(
    edits: Edits<D>, unlocked: EditorSet, w: World<D>, steps: seq<Step>)
    requires MayGo(edits, unlocked) && AllGood(edits, unlocked, w) && OnlyThese(unlocked, steps)
    ensures AllFresh(edits, w, steps)
    decreases |steps|
  {
    if steps != [] {
      StepKeepsGood(edits, unlocked, w, steps[0]);
      GoodRunsAreFresh(edits, unlocked, After(edits, w, steps[0]), steps[1..]);
    }
  }

  /** A race that always ends in turn ends as if the second had come alone. */
  lemma RaceTells<D(!new)>(edits: Edits<D>, i: nat, j: nat, x: nat, y: nat, d: D)
    requires i != j && x != y && {x, y} == {i, j} && edits(i)(d).Some? && edits(j)(d).Some?
    requires AlwaysInTurn(edits, d, Start(d), Race(i, j, x, y))
    ensures edits(x)(d).Some? && edits(y)(edits(x)(d).value) == edits(y)(d)
  {
    assert x in {i, j} && y in {i, j};
    EndsInTurn(edits, d, Start(d), Race(i, j, x, y));
    RaceEnds(edits, i, j, x, y, d);
    BothInTurn(edits, d, x, y, edits(x)(d).value);
  }

  ghost predicate AllRunsInTurn<D(!new)>(edits: Edits<D>, unlocked: EditorSet) {
    forall init: D, steps :: OnlyThese(unlocked, steps) ==> AlwaysInTurn(edits, init, Start(init), steps)
  }

  lemma RacesTell<D(!new)>(edits: Edits<D>, unlocked: EditorSet, i: nat, j: nat)
    requires AllRunsInTurn(edits, unlocked) && unlocked(i) && i != j
    ensures Independent(edits, i, j)
  {
    forall d: D | edits(i)(d).Some? && edits(j)(d).Some?
      ensures edits(i)(edits(j)(d).value) == edits(i)(d) && edits(j)(edits(i)(d).value) == edits(j)(d)
    {
      assert OnlyThese(unlocked, Race(j, i, j, i)) && OnlyThese(unlocked, Race(j, i, i, j));
      RaceTells(edits, j, i, j, i, d);
      RaceTells(edits, j, i, i, j, d);
    }
  }

  /** Which editors may go without the lock: exactly those whose edit is independent of every other's. Then,
      and only then, every run from every file is its edits one after the other. */
  lemma MayGoExactly<D(!new)>(edits: Edits<D>, unlocked: EditorSet)
    ensures AllRunsInTurn(edits, unlocked) <==> MayGo(edits, unlocked)
  {
    if MayGo(edits, unlocked) {
      forall init: D, steps | OnlyThese(unlocked, steps) ensures AlwaysInTurn(edits, init, Start(init), steps) {
        GoodRunsAreFresh(edits, unlocked, Start(init), steps);
        InTurnExactly(edits, init, Start(init), steps);
      }
    }
    if AllRunsInTurn(edits, unlocked) {
      forall i, j | unlocked(i) && i != j ensures Independent(edits, i, j) {
        RacesTell(edits, unlocked, i, j);
      }
    }
  }
}
