/** Any number of processes appending to one chain directory under an exclusive-create lock file, with
    crashes at every step, lock-free integrity checks, and stray empty files turning up at any time. */
module AppendProtocol {
  import opened Common
  import opened ChainFiles

  type Pid = nat

  const MAX_ATTEMPTS: nat := 200

  /** A temporary file while it is being written, and once it is complete. */
  datatype Temp = Partial | Complete(block: Block)

  datatype Phase =
    | Idle
    | Trying(attempts: nat)                              // open(lock, 'wx') until it succeeds
    | Holding                                            // lock created, directory not listed yet
    | Pruning(todo: seq<int>, doomed: Option<int>)       // stat says empty: `doomed` is about to be unlinked
    | Pruned
    | Reading(names: seq<int>, got: map<int, Block>)     // files are read concurrently, in any order
    | Writing(block: Block, temp: string)
    | Written(block: Block, temp: string)
    | Releasing(outcome: Option<Block>)                  // the finally clause
    | Checking(listed: seq<int>, seen: map<int, Block>, base: nat, clean: bool)
    | Checked(result: Option<seq<Block>>, base: nat, clean: bool)
    | Crashed

  /** `log` and `returned` are history: the blocks ever moved into place, and those handed back to callers.
      `base` and `clean` of a check record the length of `log` and the absence of empty files at its listing. */
  datatype State = State(lock: bool, files: Files, temps: map<string, Temp>, phases: map<Pid, Phase>,
                         log: seq<Block>, returned: seq<Block>)

  datatype Action =
    | Start(p: Pid) | Acquire(p: Pid) | Retry(p: Pid)
    | ListForPrune(p: Pid, names: seq<int>) | PruneStat(p: Pid) | PruneUnlink(p: Pid) | PruneDone(p: Pid)
    | ListForRead(p: Pid, names: seq<int>) | ReadOne(p: Pid, i: int)
    | Build(p: Pid, timestamp: string, chain: string, data: string, temp: string)
    | FinishWrite(p: Pid) | Rename(p: Pid) | Fail(p: Pid, keepTemp: bool) | Release(p: Pid, unlinked: bool)
    | CheckStart(p: Pid, names: seq<int>) | CheckRead(p: Pid, i: int) | CheckFail(p: Pid, i: int) | CheckFinish(p: Pid)
    | Crash(p: Pid)
    | StrayEmpty(i: int)

  function PhaseOf(s: State, p: Pid): Phase { if p in s.phases then s.phases[p] else Idle }

  function Go(s: State, p: Pid, phase: Phase): State { s.(phases := s.phases[p := phase]) }

  predicate Critical(phase: Phase) {
    || phase.Holding? || phase.Pruning? || phase.Pruned? || phase.Reading?
    || phase.Writing? || phase.Written? || phase.Releasing?
  }

  predicate IsFull(files: Files, i: int) { i in files && files[i].Full? }

  predicate Descending(names: seq<int>) { forall i, j :: 0 <= i < j < |names| ==> names[i] > names[j] }

  predicate HasAll(names: seq<int>, got: map<int, Block>) { forall n :: 0 <= n < |names| ==> names[n] in got }

  function Collected(names: seq<int>, got: map<int, Block>): seq<Block>
    requires HasAll(names, got)
  {
    seq(|names|, n requires 0 <= n < |names| => got[names[n]])
  }

  ghost predicate Init(h: Hashing, s: State) {
    HoldsChain(h, s.files, s.log) && s.phases == map[] && s.returned == []
  }

  ghost predicate Next(h: Hashing, s: State, a: Action, s': State) {
    match a
    case Start(p) => (PhaseOf(s, p).Idle? || PhaseOf(s, p).Checked?) && s' == Go(s, p, Trying(0))
    case Acquire(p) => PhaseOf(s, p).Trying? && !s.lock && s' == Go(s, p, Holding).(lock := true)
    case Retry(p) =>
      && PhaseOf(s, p).Trying? && s.lock
      && s' == Go(s, p, if PhaseOf(s, p).attempts + 1 < MAX_ATTEMPTS then Trying(PhaseOf(s, p).attempts + 1) else Idle)
    case ListForPrune(p, names) =>
      PhaseOf(s, p).Holding? && Descending(names) && Elems(names) == s.files.Keys
          && s' == Go(s, p, Pruning(names, None))
    case PruneStat(p) =>
      && PhaseOf(s, p).Pruning? && PhaseOf(s, p).doomed.None? && PhaseOf(s, p).todo != []
      && var head, rest := PhaseOf(s, p).todo[0], PhaseOf(s, p).todo[1..];
         s' == Go(s, p, if head !in s.files then Pruning(rest, None)
                        else if s.files[head].Full? then Pruned
                        else Pruning(rest, Some(head)))
    case PruneUnlink(p) =>
      && PhaseOf(s, p).Pruning? && PhaseOf(s, p).doomed.Some?
      && s' == Go(s, p, Pruning(PhaseOf(s, p).todo, None)).(files := s.files - {PhaseOf(s, p).doomed.value})
    case PruneDone(p) =>
      PhaseOf(s, p).Pruning? && PhaseOf(s, p).doomed.None? && PhaseOf(s, p).todo == [] && s' == Go(s, p, Pruned)
    case ListForRead(p, names) =>
      PhaseOf(s, p).Pruned? && Ascending(names) && Elems(names) == s.files.Keys && s' == Go(s, p, Reading(names, map[]))
    case ReadOne(p, i) =>
      && PhaseOf(s, p).Reading? && i in PhaseOf(s, p).names && IsFull(s.files, i)
      && s' == Go(s, p, PhaseOf(s, p).(got := PhaseOf(s, p).got[i := s.files[i].block]))
    case Build(p, timestamp, chain, data, temp) =>
      && PhaseOf(s, p).Reading?
      && var Reading(names, got) := PhaseOf(s, p);
         && HasAll(names, got)
         && ValidChain(h, Collected(names, got))
         && s' == Go(s, p, Writing(NewBlock(h, Collected(names, got), timestamp, chain, data), temp))
                  .(temps := s.temps[temp := Partial])
    case FinishWrite(p) =>
      && PhaseOf(s, p).Writing?
      && s' == Go(s, p, Written(PhaseOf(s, p).block, PhaseOf(s, p).temp))
               .(temps := s.temps[PhaseOf(s, p).temp := Complete(PhaseOf(s, p).block)])
    case Rename(p) =>
      && PhaseOf(s, p).Written?
      && var Written(block, temp) := PhaseOf(s, p);
         && temp in s.temps && s.temps[temp].Complete?
         && s' == Go(s, p, Releasing(Some(block)))
                  .(temps := s.temps - {temp}, files := s.files[block.index := Full(s.temps[temp].block)],
                    log := s.log + [s.temps[temp].block])
    case Fail(p, keepTemp) =>
      && Critical(PhaseOf(s, p)) && !PhaseOf(s, p).Releasing?
      && s' == Go(s, p, Releasing(None))
               .(temps := if PhaseOf(s, p).Written? && !keepTemp then s.temps - {PhaseOf(s, p).temp} else s.temps)
    case Release(p, unlinked) =>
      && PhaseOf(s, p).Releasing?
      && s' == Go(s, p, Idle).(lock := s.lock && !unlinked,
                               returned := match PhaseOf(s, p).outcome
                                           case Some(b) => s.returned + [b]
                                           case None => s.returned)
    case CheckStart(p, names) =>
      && (PhaseOf(s, p).Idle? || PhaseOf(s, p).Checked?)
      && Ascending(names) && Elems(names) == s.files.Keys
      && s' == Go(s, p, Checking(names, map[], |s.log|, forall i :: i in s.files ==> s.files[i].Full?))
    case CheckRead(p, i) =>
      && PhaseOf(s, p).Checking? && i in PhaseOf(s, p).listed && IsFull(s.files, i)
      && s' == Go(s, p, PhaseOf(s, p).(seen := PhaseOf(s, p).seen[i := s.files[i].block]))
    case CheckFail(p, i) =>
      && PhaseOf(s, p).Checking? && i in PhaseOf(s, p).listed && !IsFull(s.files, i)
      && s' == Go(s, p, Checked(None, PhaseOf(s, p).base, PhaseOf(s, p).clean))
    case CheckFinish(p) =>
      && PhaseOf(s, p).Checking?
      && var Checking(names, got, base, clean) := PhaseOf(s, p);
         && HasAll(names, got)
         && s' == Go(s, p, Checked(if ValidChain(h, Collected(names, got)) then Some(Collected(names, got)) else None,
                                   base, clean))
    case Crash(p) => s' == Go(s, p, Crashed)
    case StrayEmpty(i) => i !in s.files && s' == s.(files := s.files[i := Empty])
  }

  // ---- the invariant ----

  ghost predicate GotFromLog(names: seq<int>, got: map<int, Block>, log: seq<Block>) {
    Ascending(names) && forall i :: i in got ==> i in names && 1 <= i <= |log| && got[i] == log[i - 1]
  }

  ghost predicate InLog(log: seq<Block>, b: Block) { 1 <= b.index <= |log| && log[b.index - 1] == b }

  ghost predicate NextUp(h: Hashing, log: seq<Block>, b: Block) { ValidChain(h, log + [b]) && b.index == |log| + 1 }

  /** What a process may rely on while it is in `phase`. */
  ghost predicate PhaseOk(h: Hashing, s: State, phase: Phase) {
    match phase
    case Pruning(_, doomed) => doomed.Some? ==> !IsFull(s.files, doomed.value)
    case Reading(names, got) => GotFromLog(names, got, s.log) && forall i :: 1 <= i <= |s.log| ==> i in names
    case Writing(block, _) => NextUp(h, s.log, block)
    case Written(block, temp) => NextUp(h, s.log, block) && (temp in s.temps ==> s.temps[temp] == Complete(block))
    case Releasing(outcome) =>
      outcome.Some? ==> InLog(s.log, outcome.value)
                        && forall n :: 0 <= n < |s.returned| ==> s.returned[n].index != outcome.value.index
    case Checking(names, got, base, clean) =>
      && GotFromLog(names, got, s.log) && base <= |s.log|
      && (clean ==> |names| == base && forall i :: 0 <= i < base ==> names[i] == i + 1)
    case Checked(result, base, clean) =>
      && base <= |s.log|
      && (result.Some? ==> result.value <= s.log)
      && (clean ==> result == Some(s.log[..base]))
    case _ => true
  }

  ghost predicate Receipts(s: State) {
    && (forall n :: 0 <= n < |s.returned| ==> InLog(s.log, s.returned[n]))
    && (forall m, n :: 0 <= m < n < |s.returned| ==> s.returned[m].index != s.returned[n].index)
  }

  ghost predicate Exclusive(s: State) {
    && (forall p, q :: p in s.phases && q in s.phases && Critical(s.phases[p]) && Critical(s.phases[q]) ==> p == q)
    && (forall p :: p in s.phases && Critical(s.phases[p]) ==> s.lock)
  }

  ghost predicate Inv(h: Hashing, s: State) {
    && HoldsChain(h, s.files, s.log)
    && Exclusive(s)
    && (forall p :: p in s.phases ==> PhaseOk(h, s, s.phases[p]))
    && Receipts(s)
  }

  // ---- frames ----

  /** Only `p` moved. */
  ghost predicate OnlyMoves(s: State, s': State, p: Pid) {
    s'.phases == s.phases[p := PhaseOf(s', p)] && p in s'.phases
  }

  /** A step that touches nothing but the phase of `p`. */
  lemma QuietStep(h: Hashing, s: State, s': State, p: Pid)
    requires Inv(h, s) && OnlyMoves(s, s', p)
    requires s' == s.(phases := s'.phases)
    requires PhaseOk(h, s', PhaseOf(s', p))
    requires Critical(PhaseOf(s', p)) ==> Critical(PhaseOf(s, p))
    ensures Inv(h, s')
  {
    forall q | q in s'.phases ensures PhaseOk(h, s', s'.phases[q]) {
      if q != p { PhaseSurvives(h, s, s', s.phases[q]); }
    }
  }

  /** What a process outside the critical section relies on survives growth of the log. */
  lemma PhaseSurvives(h: Hashing, s: State, s': State, phase: Phase)
    requires PhaseOk(h, s, phase)
    requires s.log <= s'.log
    requires !Critical(phase) || (s'.log == s.log && s'.files == s.files && s'.temps == s.temps
        && s'.returned == s.returned)
    ensures PhaseOk(h, s', phase)
  {
    if phase.Checked? { assert s'.log[..phase.base] == s.log[..phase.base]; }
  }

  /** A step of the lock holder `p`: everyone else is outside the critical section. */
  lemma HolderStep(h: Hashing, s: State, s': State, p: Pid)
    requires Inv(h, s) && OnlyMoves(s, s', p) && Critical(PhaseOf(s, p))
    requires s.log <= s'.log && HoldsChain(h, s'.files, s'.log) && Receipts(s')
    requires PhaseOk(h, s', PhaseOf(s', p))
    requires Critical(PhaseOf(s', p)) ==> s'.lock
    ensures Inv(h, s')
  {
    forall q | q in s'.phases && q != p ensures PhaseOk(h, s', s'.phases[q]) && !Critical(s'.phases[q]) {
      assert q in s.phases && s'.phases[q] == s.phases[q];
      PhaseSurvives(h, s, s', s.phases[q]);
    }
  }

  // ---- one lemma per kind of step ----

  lemma AcquireStep(h: Hashing, s: State, a: Action, s': State)
    requires Inv(h, s) && a.Acquire? && Next(h, s, a, s')
    ensures Inv(h, s')
  {
    forall q | q in s'.phases ensures PhaseOk(h, s', s'.phases[q]) {
      if q != a.p { PhaseSurvives(h, s, s', s.phases[q]); }
    }
  }

  lemma StrayStep(h: Hashing, s: State, a: Action, s': State)
    requires Inv(h, s) && a.StrayEmpty? && Next(h, s, a, s')
    ensures Inv(h, s')
  {
    hide ValidChain;
    assert forall i :: IsFull(s'.files, i) <==> IsFull(s.files, i);
    assert forall i :: IsFull(s.files, i) ==> s'.files[i] == s.files[i];
    forall i | 1 <= i <= |s.log| ensures IsFull(s'.files, i) { assert IsFull(s.files, i); }
    forall i | i in s'.files && s'.files[i].Full? ensures 1 <= i <= |s.log| && s'.files[i].block == s.log[i - 1] {
      assert IsFull(s.files, i);
    }
    forall p | p in s'.phases ensures PhaseOk(h, s', s'.phases[p]) { assert PhaseOk(h, s, s.phases[p]); }
  }

  lemma UnlinkStep(h: Hashing, s: State, a: Action, s': State)
    requires Inv(h, s) && a.PruneUnlink? && Next(h, s, a, s')
    ensures Inv(h, s')
  {
    var i := PhaseOf(s, a.p).doomed.value;
    assert PhaseOk(h, s, PhaseOf(s, a.p));
    forall j | 1 <= j <= |s.log| ensures IsFull(s'.files, j) { HeldBlock(h, s.files, s.log, j); }
    HolderStep(h, s, s', a.p);
  }

  lemma ListStep(h: Hashing, s: State, a: Action, s': State)
    requires Inv(h, s) && a.ListForRead? && Next(h, s, a, s')
    ensures Inv(h, s')
  {
    forall i | 1 <= i <= |s.log| ensures i in a.names { HeldBlock(h, s.files, s.log, i); assert i in Elems(a.names); }
    QuietStep(h, s, s', a.p);
  }

  lemma ReadStep(h: Hashing, s: State, a: Action, s': State)
    requires Inv(h, s) && (a.ReadOne? || a.CheckRead?) && Next(h, s, a, s')
    ensures Inv(h, s')
  {
    hide ValidChain, Exclusive, Receipts;
    assert PhaseOk(h, s, PhaseOf(s, a.p));
    QuietStep(h, s, s', a.p);
  }

  /** A completed collection over a listing is an initial stretch of the log. */
  lemma CollectedIsPrefix(h: Hashing, names: seq<int>, got: map<int, Block>, log: seq<Block>)
    requires GotFromLog(names, got, log) && ValidChain(h, log)
    requires HasAll(names, got)
    requires ValidChain(h, Collected(names, got))
    ensures |names| <= |log| && Collected(names, got) == log[..|names|]
  {
    var blocks := Collected(names, got);
    forall n | 0 <= n < |names| ensures names[n] == n + 1 && names[n] <= |log| {
      assert names[n] in names;
      assert blocks[n] == got[names[n]] == log[names[n] - 1];
      assert blocks[n].index == n + 1;
    }
    if names != [] { assert names[|names| - 1] == |names|; }
  }

  /** What the holder collected is the whole log. */
  lemma HolderCollectsLog(h: Hashing, names: seq<int>, got: map<int, Block>, log: seq<Block>)
    requires GotFromLog(names, got, log) && ValidChain(h, log)
    requires forall i :: 1 <= i <= |log| ==> i in names
    requires HasAll(names, got)
    requires ValidChain(h, Collected(names, got))
    ensures Collected(names, got) == log
  {
    CollectedIsPrefix(h, names, got, log);
    forall n | 0 <= n < |names| ensures names[n] <= |names| {
      assert Collected(names, got)[n] == log[n] && names[n] in names;
      assert log[n].index == n + 1;
    }
    if log != [] { assert |log| in names; }
  }

  lemma BuildStep(h: Hashing, s: State, a: Action, s': State)
    requires Inv(h, s) && a.Build? && Next(h, s, a, s')
    ensures Inv(h, s')
  {
    var Reading(names, got) := PhaseOf(s, a.p);
    assert PhaseOk(h, s, PhaseOf(s, a.p));
    HolderCollectsLog(h, names, got, s.log);
    NewBlockExtends(h, s.log, a.timestamp, a.chain, a.data);
    HolderStep(h, s, s', a.p);
  }

  lemma RenameStep(h: Hashing, s: State, a: Action, s': State)
    requires Inv(h, s) && a.Rename? && Next(h, s, a, s')
    ensures Inv(h, s')
  {
    var block := PhaseOf(s, a.p).block;
    assert PhaseOk(h, s, PhaseOf(s, a.p));
    AppendedFileExtends(h, s.files, s.log, block);
    forall n | 0 <= n < |s.returned| ensures InLog(s'.log, s.returned[n]) && s.returned[n].index != block.index {
      assert InLog(s.log, s.returned[n]);
    }
    HolderStep(h, s, s', a.p);
  }

  lemma ReleaseStep(h: Hashing, s: State, a: Action, s': State)
    requires Inv(h, s) && a.Release? && Next(h, s, a, s')
    ensures Inv(h, s')
  {
    assert PhaseOk(h, s, PhaseOf(s, a.p));
    HolderStep(h, s, s', a.p);
  }

  lemma CheckStartStep(h: Hashing, s: State, a: Action, s': State)
    requires Inv(h, s) && a.CheckStart? && Next(h, s, a, s')
    ensures Inv(h, s')
  {
    hide ValidChain, Exclusive, Receipts;
    if forall i :: i in s.files ==> s.files[i].Full? {
      assert forall i :: i in a.names <==> i in Elems(a.names);
      forall n | 0 <= n < |a.names| ensures IsFull(s.files, a.names[n]) { assert a.names[n] in a.names; }
      forall i | 1 <= i <= |s.log| ensures i in a.names { HeldBlock(h, s.files, s.log, i); }
      FullListingIsChain(h, a.names, s.files, s.log);
    }
    QuietStep(h, s, s', a.p);
  }

  lemma CheckFailStep(h: Hashing, s: State, a: Action, s': State)
    requires Inv(h, s) && a.CheckFail? && Next(h, s, a, s')
    ensures Inv(h, s')
  {
    var Checking(listed, seen, base, clean) := PhaseOf(s, a.p);
    assert PhaseOk(h, s, PhaseOf(s, a.p));
    assert !clean by {
      var n :| 0 <= n < |listed| && listed[n] == a.i;
      if 1 <= a.i <= |s.log| { HeldBlock(h, s.files, s.log, a.i); }
    }
    QuietStep(h, s, s', a.p);
  }

  lemma CheckFinishStep(h: Hashing, s: State, a: Action, s': State)
    requires Inv(h, s) && a.CheckFinish? && Next(h, s, a, s')
    ensures Inv(h, s')
  {
    hide Exclusive, Receipts;
    var Checking(listed, seen, base, clean) := PhaseOf(s, a.p);
    assert PhaseOk(h, s, PhaseOf(s, a.p));
    var blocks := Collected(listed, seen);
    if clean {
      assert blocks == s.log[..base];
      ValidPrefix(h, s.log, base);
    }
    if ValidChain(h, blocks) { CollectedIsPrefix(h, listed, seen, s.log); }
    QuietStep(h, s, s', a.p);
  }

  lemma ValidPrefix(h: Hashing, log: seq<Block>, n: nat)
    requires ValidChain(h, log) && n <= |log|
    ensures ValidChain(h, log[..n])
  {
    ValidChainPrefix(h, log, n);
  }

  lemma FinishOrFailStep(h: Hashing, s: State, a: Action, s': State)
    requires Inv(h, s) && (a.FinishWrite? || a.Fail?) && Next(h, s, a, s')
    ensures Inv(h, s')
  {
    assert PhaseOk(h, s, PhaseOf(s, a.p));
    HolderStep(h, s, s', a.p);
  }

  /** Steps that only move the process itself, a crash among them. */
  lemma LocalStep(h: Hashing, s: State, a: Action, s': State)
    requires Inv(h, s) && Next(h, s, a, s')
    requires IsLocal(a)
    ensures Inv(h, s')
  {
    QuietStep(h, s, s', a.p);
  }

  lemma StepKeepsBlocks(h: Hashing, s: State, a: Action, s': State)
    requires Next(h, s, a, s')
    ensures s.log <= s'.log
  {
  }

  predicate IsLocal(a: Action) {
    a.Start? || a.Retry? || a.ListForPrune? || a.PruneStat? || a.PruneDone? || a.Crash?
  }

  predicate IsCheck(a: Action) { a.CheckStart? || a.CheckRead? || a.CheckFail? || a.CheckFinish? }

  lemma CheckerStep(h: Hashing, s: State, a: Action, s': State)
    requires Inv(h, s) && Next(h, s, a, s') && IsCheck(a)
    ensures Inv(h, s')
  {
    if a.CheckStart? { CheckStartStep(h, s, a, s'); }
    if a.CheckRead? { ReadStep(h, s, a, s'); }
    if a.CheckFail? { CheckFailStep(h, s, a, s'); }
    if a.CheckFinish? { CheckFinishStep(h, s, a, s'); }
  }

  lemma AppenderStep(h: Hashing, s: State, a: Action, s': State)
    requires Inv(h, s) && Next(h, s, a, s') && !IsLocal(a) && !IsCheck(a) && !a.StrayEmpty?
    ensures Inv(h, s')
  {
    if a.Acquire? { AcquireStep(h, s, a, s'); }
    if a.PruneUnlink? { UnlinkStep(h, s, a, s'); }
    if a.ListForRead? { ListStep(h, s, a, s'); }
    if a.ReadOne? { ReadStep(h, s, a, s'); }
    if a.Build? { BuildStep(h, s, a, s'); }
    if a.FinishWrite? || a.Fail? { FinishOrFailStep(h, s, a, s'); }
    if a.Rename? { RenameStep(h, s, a, s'); }
    if a.Release? { ReleaseStep(h, s, a, s'); }
  }

  /** Every step of every process, crashes and stray files included, keeps the invariant. */
  lemma StepKeepsInv(h: Hashing, s: State, a: Action, s': State)
    requires Inv(h, s) && Next(h, s, a, s')
    ensures Inv(h, s')
  {
    if IsLocal(a) {
      LocalStep(h, s, a, s');
    } else if IsCheck(a) {
      CheckerStep(h, s, a, s');
    } else if a.StrayEmpty? {
      StrayStep(h, s, a, s');
    } else {
      AppenderStep(h, s, a, s');
    }
  }

  // ---- whole runs ----

  ghost predicate IsRun(h: Hashing, states: seq<State>, actions: seq<Action>) {
    && |states| == |actions| + 1
    && Init(h, states[0])
    && forall i :: 0 <= i < |actions| ==> Next(h, states[i], actions[i], states[i + 1])
  }

  lemma {:induction false} RunKeepsInv(h: Hashing, states: seq<State>, actions: seq<Action>, i: nat)
    requires IsRun(h, states, actions) && i < |states|
    ensures Inv(h, states[i])
    ensures i > 0 ==> states[i - 1].log <= states[i].log
  {
    if i > 0 {
      RunKeepsInv(h, states, actions, i - 1);
      StepKeepsInv(h, states[i - 1], actions[i - 1], states[i]);
      StepKeepsBlocks(h, states[i - 1], actions[i - 1], states[i]);
    }
  }

  lemma {:induction false} LogOnlyGrows(h: Hashing, states: seq<State>, actions: seq<Action>, i: nat, j: nat)
    requires IsRun(h, states, actions) && i <= j < |states|
    ensures states[i].log <= states[j].log
  {
    hide *;
    if i < j {
      LogOnlyGrows(h, states, actions, i, j - 1);
      RunKeepsInv(h, states, actions, j);
    }
  }

  /** The safety of the append path, for every interleaving of any number of appenders and checkers. */
  lemma AppendsAreSafe(h: Hashing, states: seq<State>, actions: seq<Action>, i: nat)
    requires IsRun(h, states, actions) && i < |states|
    // at most one process is between creating and removing the lock file
    ensures forall p, q :: Critical(PhaseOf(states[i], p)) && Critical(PhaseOf(states[i], q)) ==> p == q
    // the non-empty files are a valid chain 1..n, each block in the file of its own number
    ensures exists chain: seq<Block> :: HoldsChain(h, states[i].files, chain) && states[0].log <= chain
    // every block handed back has an index of its own and is in its file
    ensures forall m, n :: 0 <= m < n < |states[i].returned| ==>
              states[i].returned[m].index != states[i].returned[n].index
    ensures forall b :: b in states[i].returned ==>
              b.index in states[i].files && states[i].files[b.index] == Full(b)
  {
    RunKeepsInv(h, states, actions, i);
    LogOnlyGrows(h, states, actions, 0, i);
    var s := states[i];
    assert HoldsChain(h, s.files, s.log);
    forall b | b in s.returned ensures b.index in s.files && s.files[b.index] == Full(b) {
      var n :| 0 <= n < |s.returned| && s.returned[n] == b;
      assert InLog(s.log, b);
      HeldBlock(h, s.files, s.log, b.index);
    }
  }

  // ---- where the blocks come from ----

  predicate ActsFor(a: Action, p: Pid) { !a.StrayEmpty? && a.p == p }

  /** Build step `j` asked for the block that `p` is writing, and since then `p` has at most finished its file. */
  ghost predicate AskedAt(h: Hashing, states: seq<State>, actions: seq<Action>, p: Pid, j: nat, i: nat, b: Block)
    requires |states| == |actions| + 1 && i <= |actions|
  {
    && j < i && actions[j].Build? && actions[j].p == p
    && Carries(b, h, states[i].log, actions[j].timestamp, actions[j].chain, actions[j].data)
    && forall m :: j < m < i && ActsFor(actions[m], p) ==> actions[m].FinishWrite?
  }

  function Pending(phase: Phase): Option<Block> {
    match phase case Writing(block, _) => Some(block) case Written(block, _) => Some(block) case _ => None
  }

  lemma {:induction false} PendingWasAsked(h: Hashing, states: seq<State>, actions: seq<Action>, i: nat, p: Pid)
      returns (j: nat)
    requires IsRun(h, states, actions) && i < |states| && Pending(PhaseOf(states[i], p)).Some?
    ensures j < i && AskedAt(h, states, actions, p, j, i, Pending(PhaseOf(states[i], p)).value)
  {
    hide Next, Inv;
    StartsIdle(h, states[0], p);
    if i > 0 {
      var s, a, s' := states[i - 1], actions[i - 1], states[i];
      RunKeepsInv(h, states, actions, i - 1);
      if a.Build? && a.p == p {
        BuildCarries(h, s, a, s');
        j := i - 1;
      } else {
        PendingStays(h, s, a, s', p);
        j := PendingWasAsked(h, states, actions, i - 1, p);
      }
    }
  }

  lemma StartsIdle(h: Hashing, s: State, p: Pid)
    requires Init(h, s)
    ensures PhaseOf(s, p) == Idle
  {
  }

  lemma BuildCarries(h: Hashing, s: State, a: Action, s': State)
    requires Inv(h, s) && a.Build? && Next(h, s, a, s')
    ensures Pending(PhaseOf(s', a.p)).Some? && s'.log == s.log
    ensures Carries(Pending(PhaseOf(s', a.p)).value, h, s.log, a.timestamp, a.chain, a.data)
  {
    hide ValidChain, Exclusive, Receipts, Carries, Collected, NewBlock;
    var Reading(names, got) := PhaseOf(s, a.p);
    assert PhaseOk(h, s, PhaseOf(s, a.p));
    HolderCollectsLog(h, names, got, s.log);
    NewBlockExtends(h, s.log, a.timestamp, a.chain, a.data);
  }

  /** While `p` writes its block, nobody else adds to the chain, and `p` itself does nothing but finish its file. */
  lemma PendingStays(h: Hashing, s: State, a: Action, s': State, p: Pid)
    requires Inv(h, s) && Next(h, s, a, s') && Pending(PhaseOf(s', p)).Some? && !(a.Build? && a.p == p)
    ensures Pending(PhaseOf(s, p)) == Pending(PhaseOf(s', p)) && s'.log == s.log
    ensures ActsFor(a, p) ==> a.FinishWrite?
  {
    hide ValidChain, HoldsChain, PhaseOk, Receipts, Collected;
    OnlyRenameGrows(h, s, a, s');
    if ActsFor(a, p) {
      OwnStep(h, s, a, s');
    } else {
      OthersStay(h, s, a, s', p);
      if a.Rename? { OnlyHolderRenames(h, s, a, s', p); }
    }
  }

  lemma OnlyHolderRenames(h: Hashing, s: State, a: Action, s': State, p: Pid)
    requires Inv(h, s) && a.Rename? && Next(h, s, a, s') && Critical(PhaseOf(s, p))
    ensures a.p == p
  {
    hide ValidChain, HoldsChain, PhaseOk, Receipts;
  }

  lemma OwnStep(h: Hashing, s: State, a: Action, s': State)
    requires Next(h, s, a, s') && !a.StrayEmpty? && Pending(PhaseOf(s', a.p)).Some? && !a.Build?
    ensures a.FinishWrite? && Pending(PhaseOf(s, a.p)) == Pending(PhaseOf(s', a.p)) && s'.log == s.log
  {
    hide ValidChain, Collected;
  }

  lemma OthersStay(h: Hashing, s: State, a: Action, s': State, p: Pid)
    requires Next(h, s, a, s') && !ActsFor(a, p)
    ensures PhaseOf(s', p) == PhaseOf(s, p)
  {
    hide ValidChain, Collected;
  }

  /** Every block that joined the chain is one that some process was asked to append: that process built it at step `j`
      with the given time, chain name and data, and moved it into place at step `m` with nothing but the write between,
      in the place it was built for. */
  lemma {:induction false} EveryBlockWasAskedFor(h: Hashing, states: seq<State>, actions: seq<Action>, i: nat, n: nat)
      returns (j: nat, m: nat)
    requires IsRun(h, states, actions) && i < |states| && |states[0].log| <= n < |states[i].log|
    ensures j < m < i && actions[m].Rename? && states[m].log == states[i].log[..n]
    ensures AskedAt(h, states, actions, actions[m].p, j, m, states[i].log[n])
    ensures n + 1 in states[m + 1].files && states[m + 1].files[n + 1] == Full(states[i].log[n])
  {
    hide Next, Inv, AskedAt;
    RunKeepsInv(h, states, actions, i);
    var before := states[i - 1].log;
    if n < |before| {
      j, m := EveryBlockWasAskedFor(h, states, actions, i - 1, n);
      assert states[i].log[n] == before[n] && states[i].log[..n] == before[..n];
    } else {
      m := i - 1;
      RunKeepsInv(h, states, actions, m);
      GrowsByRename(h, states[m], actions[m], states[i], n);
      assert states[m].log == states[i].log[..n];
      j := PendingWasAsked(h, states, actions, m, actions[m].p);
    }
  }

  lemma GrowsByRename(h: Hashing, s: State, a: Action, s': State, n: nat)
    requires Inv(h, s) && Next(h, s, a, s') && |s.log| <= n < |s'.log|
    ensures a.Rename? && n == |s.log| && s.log == s'.log[..n] && Pending(PhaseOf(s, a.p)) == Some(s'.log[n])
    ensures n + 1 in s'.files && s'.files[n + 1] == Full(s'.log[n])
  {
    hide ValidChain, HoldsChain, Exclusive, Receipts;
    OnlyRenameGrows(h, s, a, s');
    assert PhaseOk(h, s, PhaseOf(s, a.p));
  }

  lemma OnlyRenameGrows(h: Hashing, s: State, a: Action, s': State)
    requires Next(h, s, a, s')
    ensures a.Rename? || s'.log == s.log
  {
    hide ValidChain, Collected;
  }

  /** Whoever moves a file into place adds exactly the block it was asked for. */
  lemma RenameStoresTheRequest(h: Hashing, states: seq<State>, actions: seq<Action>, i: nat) returns (j: nat)
    requires IsRun(h, states, actions) && i < |actions| && actions[i].Rename?
    ensures |states[i + 1].log| == |states[i].log| + 1
    ensures AskedAt(h, states, actions, actions[i].p, j, i, states[i + 1].log[|states[i].log|])
  {
    hide Inv, AskedAt;
    RunKeepsInv(h, states, actions, i);
    assert Next(h, states[i], actions[i], states[i + 1]);
    GrowsByRename(h, states[i], actions[i], states[i + 1], |states[i].log|);
    j := PendingWasAsked(h, states, actions, i, actions[i].p);
  }

  /** A process that waits for the lock has failed fewer than 200 times, and gives up on the 200th failure only. */
  lemma {:induction false} GivesUpAfterTwoHundred(h: Hashing, states: seq<State>, actions: seq<Action>, i: nat, p: Pid)
    requires IsRun(h, states, actions) && i < |states| && PhaseOf(states[i], p).Trying?
    ensures PhaseOf(states[i], p).attempts < 200
    ensures i < |actions| && actions[i] == Retry(p) ==>
              PhaseOf(states[i + 1], p) == if PhaseOf(states[i], p).attempts == 199 then Idle
                                           else Trying(PhaseOf(states[i], p).attempts + 1)
  {
    StartsIdle(h, states[0], p);
    if i > 0 {
      assert Next(h, states[i - 1], actions[i - 1], states[i]);
      TryingStep(h, states[i - 1], actions[i - 1], states[i], p);
      if PhaseOf(states[i - 1], p).Trying? { GivesUpAfterTwoHundred(h, states, actions, i - 1, p); }
    }
  }

  lemma TryingStep(h: Hashing, s: State, a: Action, s': State, p: Pid)
    requires Next(h, s, a, s') && PhaseOf(s', p).Trying?
    ensures || (PhaseOf(s', p) == Trying(0) && a == Start(p))
            || (PhaseOf(s', p) == PhaseOf(s, p) && !ActsFor(a, p))
            || (PhaseOf(s, p).Trying? && a == Retry(p) && PhaseOf(s', p).attempts == PhaseOf(s, p).attempts + 1 < 200)
  {
  }

  /** A lock-free integrity check never reports anything but a prefix of the chain, and when the directory had no
      empty file at its listing it succeeds with exactly the chain of that moment. */
  lemma ChecksReadPrefixes(h: Hashing, states: seq<State>, actions: seq<Action>, i: nat, p: Pid)
    requires IsRun(h, states, actions) && i < |states| && PhaseOf(states[i], p).Checked?
    ensures var Checked(result, base, clean) := PhaseOf(states[i], p);
            && (result.Some? ==> result.value <= states[i].log && ValidChain(h, result.value))
            && (clean ==> base <= |states[i].log| && result == Some(states[i].log[..base]))
  {
    RunKeepsInv(h, states, actions, i);
    assert PhaseOk(h, states[i], states[i].phases[p]);
    var result := PhaseOf(states[i], p).result;
    if result.Some? {
      assert result.value == states[i].log[..|result.value|];
      ValidPrefix(h, states[i].log, |result.value|);
    }
  }

  /** A process that never gets the lock gives up; a lock left behind by a crash is never passed. */
  lemma {:induction false} AbandonedLockStops(h: Hashing, states: seq<State>, actions: seq<Action>, i: nat, j: nat)
    requires IsRun(h, states, actions) && i <= j < |states|
    requires states[i].lock && forall p :: p in states[i].phases ==> !Critical(states[i].phases[p])
    ensures states[j].lock && states[j].log == states[i].log && states[j].returned == states[i].returned
    ensures forall p :: p in states[j].phases ==> !Critical(states[j].phases[p])
  {
    hide Next;
    if i < j {
      AbandonedLockStops(h, states, actions, i, j - 1);
      StuckStep(h, states[j - 1], actions[j - 1], states[j]);
    }
  }

  lemma StuckStep(h: Hashing, s: State, a: Action, s': State)
    requires Next(h, s, a, s') && s.lock && forall p :: p in s.phases ==> !Critical(s.phases[p])
    ensures s'.lock && s'.log == s.log && s'.returned == s.returned
    ensures forall p :: p in s'.phases ==> !Critical(s'.phases[p])
  {
    if !a.StrayEmpty? { assert !Critical(PhaseOf(s, a.p)); }
  }
}
