/** Connection slots of the IPC server: one accepting thread counts connections up, workers count them
    down, and nothing orders the two. */
module Slots {
  const MAX_CONNS: nat := 8
  const ADMIN_RESERVED: nat := 2

  /** Between connections, the accepting thread is polling; then it has read the counter, then passed the check. */
  datatype Acceptor = Polling | Read(admin: bool, seen: int) | Passed(admin: bool)

  /** The shared counter, and the slots held by unprivileged and by admin connections. */
  datatype Server = Server(live: int, users: set<nat>, admins: set<nat>, acceptor: Acceptor)

  /** `Take` is the increment and the slot it makes; `Release` the drop of a slot, by a worker that ends or
      by the accepting thread when no worker could be started. */
  datatype Step = Accept(admin: bool) | Check | Take(slot: nat) | Release(slot: nat)

  function Cap(admin: bool): nat {
    if admin then MAX_CONNS else MAX_CONNS - ADMIN_RESERVED
  }

  predicate IsHeld(s: Server, slot: nat) {
    slot in s.users || slot in s.admins
  }

  function After(s: Server, step: Step): Server {
    match step
    case Accept(admin) =>
      if s.acceptor.Polling? then s.(acceptor := Read(admin, s.live)) else s
    case Check =>
      if !s.acceptor.Read? then s
      else s.(acceptor := if s.acceptor.seen >= Cap(s.acceptor.admin) then Polling else Passed(s.acceptor.admin))
    case Take(slot) =>
      if !s.acceptor.Passed? || IsHeld(s, slot) then s
      else if s.acceptor.admin then s.(live := s.live + 1, admins := s.admins + {slot}, acceptor := Polling)
      else s.(live := s.live + 1, users := s.users + {slot}, acceptor := Polling)
    case Release(slot) =>
      if !IsHeld(s, slot) then s
      else s.(live := s.live - 1, users := s.users - {slot}, admins := s.admins - {slot})
  }

  function AfterAll(s: Server, steps: seq<Step>): Server
    decreases |steps|
  {
    if steps == [] then s else AfterAll(After(s, steps[0]), steps[1..])
  }

  const START := Server(0, {}, {}, Polling)

  /** The counter is the slots held; each class keeps its cap; and a check that passed still stands, since
      only the accepting thread counts up. */
  predicate Sound(s: Server) {
    && s.users !! s.admins
    && s.live == |s.users| + |s.admins| <= MAX_CONNS
    && |s.users| <= MAX_CONNS - ADMIN_RESERVED
    && (s.acceptor.Read? ==> s.live <= s.acceptor.seen)
    && (s.acceptor.Passed? ==> s.live < Cap(s.acceptor.admin))
  }

  lemma StepKeeps(s: Server, step: Step)
    requires Sound(s)
    ensures Sound(After(s, step))
  {
    match step
    case Accept(_) =>
    case Check =>
    case Take(slot) =>
      assert !IsHeld(s, slot) ==> |s.users + {slot}| == |s.users| + 1 && |s.admins + {slot}| == |s.admins| + 1;
    case Release(slot) =>
      if slot in s.users {
        assert |s.users - {slot}| == |s.users| - 1 && s.admins - {slot} == s.admins;
      } else if slot in s.admins {
        assert |s.admins - {slot}| == |s.admins| - 1 && s.users - {slot} == s.users;
      }
  }

  /** Under every interleaving, the counter is the number of slots held, at most `MAX_CONNS`, with at most
      `MAX_CONNS - ADMIN_RESERVED` unprivileged. */
  lemma {:induction false} SlotsStayWithinCaps(s: Server, steps: seq<Step>)
    requires Sound(s)
    ensures var s' := AfterAll(s, steps);
            && Sound(s')
            && s'.live == |s'.users + s'.admins| <= MAX_CONNS
            && |s'.users| <= MAX_CONNS - ADMIN_RESERVED
    decreases |steps|
  {
    if steps != [] {
      StepKeeps(s, steps[0]);
      SlotsStayWithinCaps(After(s, steps[0]), steps[1..]);
    } else {
      assert |s.users + s.admins| == |s.users| + |s.admins|;
    }
  }

  /** So a server as it starts keeps them for ever. */
  lemma ServerStaysWithinCaps(steps: seq<Step>)
    ensures Sound(START)
    ensures var s := AfterAll(START, steps);
            s.live == |s.users + s.admins| <= MAX_CONNS && |s.users| <= MAX_CONNS - ADMIN_RESERVED
  {
    SlotsStayWithinCaps(START, steps);
  }

  predicate OnlyReleases(steps: seq<Step>) {
    forall i :: 0 <= i < |steps| ==> steps[i].Release?
  }

  lemma {:induction false} ReleasesKeepAcceptor(s: Server, steps: seq<Step>)
    requires OnlyReleases(steps)
    ensures AfterAll(s, steps).acceptor == s.acceptor
    decreases |steps|
  {
    if steps != [] {
      ReleasesKeepAcceptor(After(s, steps[0]), steps[1..]);
    }
  }

  /** Unprivileged connections alone never get an administrator refused: whatever is released between the
      read and the check, a refusal means the reserved slots were all held by administrators at the read. */
  lemma AdminRefusedOnlyByAdmins(s: Server, releases: seq<Step>)
    requires Sound(s) && s.acceptor.Polling? && OnlyReleases(releases)
    ensures var read := After(s, Accept(true));
            After(AfterAll(read, releases), Check).acceptor.Polling? <==> s.live == MAX_CONNS
    ensures s.live == MAX_CONNS ==> |s.admins| >= ADMIN_RESERVED
  {
    ReleasesKeepAcceptor(After(s, Accept(true)), releases);
  }

  /** A connection is refused exactly when, at the read, its class's cap was reached: all slots, or all but the
      reserved ones. */
  lemma RefusedExactly(s: Server, admin: bool, releases: seq<Step>)
    requires Sound(s) && s.acceptor.Polling? && OnlyReleases(releases)
    ensures After(AfterAll(After(s, Accept(admin)), releases), Check).acceptor
         == if s.live >= (if admin then MAX_CONNS else MAX_CONNS - ADMIN_RESERVED) then Polling else Passed(admin)
  {
    ReleasesKeepAcceptor(After(s, Accept(admin)), releases);
  }

  /** One connection at a time is decided: another is accepted only once the last was refused or has its slot. */
  lemma OneAtATime(s: Server, step: Step)
    ensures step.Accept? && !s.acceptor.Polling? ==> After(s, step) == s
    ensures step.Check? && !s.acceptor.Read? ==> After(s, step) == s
    ensures step.Take? && !s.acceptor.Passed? ==> After(s, step) == s
  {
  }

  /** A slot let go of is free, and the counter one less. */
  lemma ReleaseFrees(s: Server, slot: nat)
    requires Sound(s) && IsHeld(s, slot)
    ensures !IsHeld(After(s, Release(slot)), slot) && After(s, Release(slot)).live == s.live - 1
    ensures forall other :: other != slot ==> (IsHeld(After(s, Release(slot)), other) <==> IsHeld(s, other))
  {
  }

  /** A connection admitted on its check is never refused its slot. */
  lemma PassedTakesItsSlot(s: Server, releases: seq<Step>, slot: nat)
    requires Sound(s) && s.acceptor.Passed? && OnlyReleases(releases) && !IsHeld(AfterAll(s, releases), slot)
    ensures var taken := After(AfterAll(s, releases), Take(slot));
            && IsHeld(taken, slot) && (slot in taken.admins <==> s.acceptor.admin)
            && taken.live == AfterAll(s, releases).live + 1 <= Cap(s.acceptor.admin)
  {
    ReleasesKeepAcceptor(s, releases);
    SlotsStayWithinCaps(s, releases);
  }
}
