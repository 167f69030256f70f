/** The installation lease shared by the installer and launching engines.

    An engine holds the lease shared from launch to exit.  An installer first verifies the
    existing tree under a shared lease, then converts it to an exclusive one; the
    conversion drops the shared lease before it takes the exclusive one.  Runs interleave
    any number of installers and engines, any of which may stop at any point, and edits of
    the tree by programs that know nothing of the lease. */
module Lease {
  import opened Prelude

  type Pid = nat

  /** A receipt vouches for the code recorded in it. */
  datatype Receipt = Receipt(digest: nat, code: nat)

  /** The installed directory.  `code` stands for the bytes of sources and executables,
      `binary` for the identity of the server executable, and `stamp` for the metadata of
      every entry: whatever changes the tree gives it a stamp never seen before. */
  datatype Tree = Tree(directory: nat, receipt: Receipt, code: nat, binary: nat, stamp: nat)

  /** What an upgrade remembers of the tree it verified. */
  datatype Record = Record(receipt: Receipt, stamp: nat)

  datatype Phase =
    | Idle
      // installer, shared lease
    | Opened
    | Verified(receipt: Receipt)
    | Recorded(previous: Option<Record>)
      // installer, between the two leases
    | Converting(previous: Option<Record>)
      // installer, exclusive lease
    | Exclusive(previous: Option<Record>)
    | Rechecked(previous: Option<Record>)
    | Built(previous: Option<Record>, candidate: Tree)
    | Merged(record: Record, candidate: Tree)
    | Reverified(record: Record, candidate: Tree)
    | Final(record: Record, candidate: Tree)
    | Published(replaced: Option<Tree>)
      // engine
    | Admitted(expected: nat)
    | Leased(expected: nat)
    | Matched(expected: nat)
    | Running(expected: nat, actual: nat)
    | Ended

  predicate HoldsShared(phase: Phase) {
    phase.Opened? || phase.Verified? || phase.Recorded? || EngineHolds(phase)
  }

  /** An engine that has been given the installation-use lease. */
  predicate EngineHolds(phase: Phase) { phase.Leased? || phase.Matched? || phase.Running? }

  predicate HoldsExclusive(phase: Phase) {
    phase.Exclusive? || phase.Rechecked? || phase.Built? || phase.Merged? || phase.Reverified? || phase.Final? || phase.Published?
  }

  /** The record a process compares the tree with, and the candidate it has built. */
  function RecordOf(phase: Phase): Option<Record> {
    if phase.Recorded? || phase.Converting? || phase.Exclusive? || phase.Rechecked? || phase.Built? then phase.previous
    else if phase.Merged? || phase.Reverified? || phase.Final? then Some(phase.record)
    else None
  }

  function CandidateOf(phase: Phase): Option<Tree> {
    if phase.Built? || phase.Merged? || phase.Reverified? || phase.Final? then Some(phase.candidate) else None
  }

  datatype State = State(
    clock: nat, tree: Option<Tree>, shared: set<Pid>, exclusive: Option<Pid>, phases: map<Pid, Phase>)

  function At(s: State, p: Pid): Phase { if p in s.phases then s.phases[p] else Idle }

  function Go(s: State, p: Pid, phase: Phase): State { s.(phases := s.phases[p := phase]) }

  /** Leave: closing the lock file releases whatever lease it carried. */
  function Leave(s: State, p: Pid): State {
    Go(s, p, Ended).(shared := s.shared - {p}, exclusive := if s.exclusive == Some(p) then None else s.exclusive)
  }

  function Init(tree: Option<Tree>): State {
    State(if tree.Some? then tree.value.stamp + 1 else 0, tree, {}, None, map[])
  }

  // ----- The installer's steps -----

  /** `flock(LOCK_SH | LOCK_NB)`: refused only while someone holds the lease exclusively. */
  function LockShared(s: State, p: Pid, phase: Phase): State {
    if s.exclusive.Some? then Leave(s, p) else Go(s, p, phase).(shared := s.shared + {p})
  }

  /** Read the receipt and check the recorded code; without a tree there is no record. */
  function Verify(s: State, p: Pid): State {
    match s.tree
    case None => Go(s, p, Recorded(None))
    case Some(t) => if t.receipt.code == t.code then Go(s, p, Verified(t.receipt)) else Leave(s, p)
  }

  function TakeSnapshot(s: State, p: Pid): State
    requires At(s, p).Verified?
  {
    match s.tree
    case None => Leave(s, p)
    case Some(t) => Go(s, p, Recorded(Some(Record(At(s, p).receipt, t.stamp))))
  }

  /** First half of `flock(LOCK_EX | LOCK_NB)`: the shared lease is gone. */
  function DropShared(s: State, p: Pid): State
    requires At(s, p).Recorded?
  {
    Go(s, p, Converting(At(s, p).previous)).(shared := s.shared - {p})
  }

  /** Second half: refused while anyone holds the lease in any mode. */
  function TakeExclusive(s: State, p: Pid): State
    requires At(s, p).Converting?
  {
    if s.exclusive.Some? || s.shared != {} then Leave(s, p)
    else Go(s, p, Exclusive(At(s, p).previous)).(exclusive := Some(p))
  }

  predicate SameTree(tree: Option<Tree>, record: Record) {
    tree.Some? && tree.value.receipt == record.receipt && tree.value.stamp == record.stamp
  }

  /** The tree is still the recorded one, or still absent. */
  function Recheck(s: State, p: Pid): State
    requires At(s, p).Exclusive?
  {
    match At(s, p).previous
    case Some(record) => if SameTree(s.tree, record) then Go(s, p, Rechecked(Some(record))) else Leave(s, p)
    case None => if s.tree.None? then Go(s, p, Rechecked(None)) else Leave(s, p)
  }

  /** Build the private candidate; its directory is new, its receipt describes its code. */
  function Build(s: State, p: Pid, candidate: Tree): State
    requires At(s, p).Rechecked?
  {
    Go(s, p, Built(At(s, p).previous, candidate.(stamp := s.clock))).(clock := s.clock + 1)
  }

  /** Link the user's files into the candidate.  Only the metadata of the tree changes, and
      the record follows it. */
  function Merge(s: State, p: Pid, binary: nat): State
    requires At(s, p).Built? && At(s, p).previous.Some?
  {
    var record := At(s, p).previous.value;
    if s.tree.Some? && s.tree.value.stamp == record.stamp then
      Go(s, p, Merged(record.(stamp := s.clock), At(s, p).candidate))
        .(clock := s.clock + 1, tree := Some(s.tree.value.(stamp := s.clock, binary := binary)))
    else Leave(s, p)
  }

  /** Check the code against the record once more after the long preparation. */
  function Reverify(s: State, p: Pid): State
    requires At(s, p).Merged?
  {
    var record := At(s, p).record;
    if SameTree(s.tree, record) && s.tree.value.code == record.receipt.code
    then Go(s, p, Reverified(record, At(s, p).candidate))
    else Leave(s, p)
  }

  /** The last metadata check before the exchange. */
  function FinalCheck(s: State, p: Pid): State
    requires At(s, p).Reverified?
  {
    if SameTree(s.tree, At(s, p).record)
    then Go(s, p, Final(At(s, p).record, At(s, p).candidate))
    else Leave(s, p)
  }

  /** The atomic exchange of two directories. */
  function Exchange(s: State, p: Pid): State
    requires At(s, p).Final?
  {
    if s.tree.None? then Leave(s, p)
    else Go(s, p, Published(s.tree)).(tree := Some(At(s, p).candidate))
  }

  /** The first installation: a rename that never replaces. */
  function Create(s: State, p: Pid): State
    requires At(s, p).Built?
  {
    if s.tree.Some? then Leave(s, p)
    else Go(s, p, Published(None)).(tree := Some(At(s, p).candidate))
  }

  // ----- The engine's steps -----

  /** The child compares the executable with the identity its host admitted. */
  function Match(s: State, p: Pid): State
    requires At(s, p).Leased?
  {
    if s.tree.Some? && s.tree.value.binary == At(s, p).expected
    then Go(s, p, Matched(At(s, p).expected))
    else Leave(s, p)
  }

  /** exec of whatever executable the path names now. */
  function Exec(s: State, p: Pid): State
    requires At(s, p).Matched?
  {
    if s.tree.None? then Leave(s, p)
    else Go(s, p, Running(At(s, p).expected, s.tree.value.binary))
  }

  // ----- Runs -----

  datatype Step =
    | StepOpen(p: Pid) | StepVerify(p: Pid) | StepSnapshot(p: Pid) | StepDrop(p: Pid) | StepTake(p: Pid)
    | StepRecheck(p: Pid) | StepBuild(p: Pid, candidate: Tree) | StepMerge(p: Pid, binary: nat)
    | StepReverify(p: Pid) | StepFinal(p: Pid) | StepExchange(p: Pid) | StepCreate(p: Pid)
    | StepAdmit(p: Pid, expected: nat) | StepLease(p: Pid) | StepMatch(p: Pid) | StepExec(p: Pid)
    | StepLeave(p: Pid) | StepEdit(tree: Option<Tree>)

  /** A process takes its steps in program order; it may leave, or be killed, at any point. */
  predicate Enabled(s: State, step: Step) {
    match step
    case StepOpen(p) => At(s, p).Idle?
    case StepVerify(p) => At(s, p).Opened?
    case StepSnapshot(p) => At(s, p).Verified?
    case StepDrop(p) => At(s, p).Recorded?
    case StepTake(p) => At(s, p).Converting?
    case StepRecheck(p) => At(s, p).Exclusive?
    case StepBuild(p, candidate) => At(s, p).Rechecked? && candidate.receipt.code == candidate.code
    case StepMerge(p, _) => At(s, p).Built? && At(s, p).previous.Some?
    case StepReverify(p) => At(s, p).Merged?
    case StepFinal(p) => At(s, p).Reverified?
    case StepExchange(p) => At(s, p).Final?
    case StepCreate(p) => At(s, p).Built? && At(s, p).previous.None?
    case StepAdmit(p, _) => At(s, p).Idle?
    case StepLease(p) => At(s, p).Admitted?
    case StepMatch(p) => At(s, p).Leased?
    case StepExec(p) => At(s, p).Matched?
    case StepLeave(p) => true
    case StepEdit(_) => true
  }

  predicate Acts(step: Step, p: Pid) { !step.StepEdit? && step.p == p }

  /** A step changes no process but its own. */
  function Apply(s: State, step: Step): (s': State)
    requires Enabled(s, step)
    ensures forall q: Pid :: !Acts(step, q) ==> At(s', q) == At(s, q)
  {
    match step
    case StepOpen(p) => LockShared(s, p, Opened)
    case StepVerify(p) => Verify(s, p)
    case StepSnapshot(p) => TakeSnapshot(s, p)
    case StepDrop(p) => DropShared(s, p)
    case StepTake(p) => TakeExclusive(s, p)
    case StepRecheck(p) => Recheck(s, p)
    case StepBuild(p, candidate) => Build(s, p, candidate)
    case StepMerge(p, binary) => Merge(s, p, binary)
    case StepReverify(p) => Reverify(s, p)
    case StepFinal(p) => FinalCheck(s, p)
    case StepExchange(p) => Exchange(s, p)
    case StepCreate(p) => Create(s, p)
    case StepAdmit(p, expected) => Go(s, p, Admitted(expected))
    case StepLease(p) => LockShared(s, p, Leased(At(s, p).expected))
    case StepMatch(p) => Match(s, p)
    case StepExec(p) => Exec(s, p)
    case StepLeave(p) => Leave(s, p)
    case StepEdit(tree) =>
      s.(tree := if tree.Some? then Some(tree.value.(stamp := s.clock)) else None, clock := s.clock + 1)
  }

  /** A run: states joined by the steps between them. */
  ghost predicate Run(states: seq<State>, steps: seq<Step>) {
    && |states| == |steps| + 1
    && (exists tree :: states[0] == Init(tree))
    && forall i :: 0 <= i < |steps| ==> Enabled(states[i], steps[i]) && states[i + 1] == Apply(states[i], steps[i])
  }

  // ----- What every step keeps -----

  /** The lock table agrees with the phases, and an exclusive holder is alone. */
  ghost predicate LocksOk(s: State) {
    && (forall p: Pid :: p in s.shared <==> HoldsShared(At(s, p)))
    && (forall p: Pid :: s.exclusive == Some(p) <==> HoldsExclusive(At(s, p)))
    && (s.exclusive.Some? ==> s.shared == {})
  }

  /** Stamps in use are older than the clock, so an edit's stamp is new. */
  ghost predicate StampsOk(s: State) {
    && (s.tree.Some? ==> s.tree.value.stamp < s.clock)
    && (forall p: Pid :: RecordOf(At(s, p)).Some? ==> RecordOf(At(s, p)).value.stamp < s.clock)
    && (forall p: Pid :: CandidateOf(At(s, p)).Some? ==> CandidateOf(At(s, p)).value.stamp < s.clock)
  }

  /** The exclusive holder's private candidate carries a stamp that is neither in the tree
      nor in any record. */
  ghost predicate CandidatesOk(s: State) {
    s.exclusive.Some? && CandidateOf(At(s, s.exclusive.value)).Some? ==>
      var stamp := CandidateOf(At(s, s.exclusive.value)).value.stamp;
      && (s.tree.Some? ==> stamp != s.tree.value.stamp)
      && (forall q: Pid :: RecordOf(At(s, q)).Some? ==> stamp != RecordOf(At(s, q)).value.stamp)
  }

  /** A tree that still carries the stamp of a reverified record is the verified code. */
  ghost predicate CodeOk(s: State) {
    forall p: Pid :: (At(s, p).Reverified? || At(s, p).Final?) && s.tree.Some? && s.tree.value.stamp == At(s, p).record.stamp ==>
      s.tree.value.receipt == At(s, p).record.receipt && s.tree.value.code == At(s, p).record.receipt.code
  }

  ghost predicate Inv(s: State) { LocksOk(s) && StampsOk(s) && CandidatesOk(s) && CodeOk(s) }

  lemma SharedStep(s: State, step: Step)
    requires LocksOk(s) && Enabled(s, step)
    ensures forall p: Pid :: p in Apply(s, step).shared <==> HoldsShared(At(Apply(s, step), p))
  {
  }

  lemma ExclusiveStep(s: State, step: Step)
    requires LocksOk(s) && Enabled(s, step)
    ensures forall p: Pid :: Apply(s, step).exclusive == Some(p) <==> HoldsExclusive(At(Apply(s, step), p))
  {
  }

  lemma LocksStep(s: State, step: Step)
    requires LocksOk(s) && Enabled(s, step)
    ensures LocksOk(Apply(s, step))
  {
    SharedStep(s, step);
    ExclusiveStep(s, step);
  }

  lemma RecordStampsStep(s: State, step: Step)
    requires StampsOk(s) && Enabled(s, step)
    ensures forall p: Pid :: RecordOf(At(Apply(s, step), p)).Some? ==>
              RecordOf(At(Apply(s, step), p)).value.stamp < Apply(s, step).clock
  {
  }

  lemma CandidateStampsStep(s: State, step: Step)
    requires StampsOk(s) && Enabled(s, step)
    ensures forall p: Pid :: CandidateOf(At(Apply(s, step), p)).Some? ==>
              CandidateOf(At(Apply(s, step), p)).value.stamp < Apply(s, step).clock
  {
  }

  lemma TreeStampStep(s: State, step: Step)
    requires StampsOk(s) && Enabled(s, step)
    ensures Apply(s, step).tree.Some? ==> Apply(s, step).tree.value.stamp < Apply(s, step).clock
  {
  }

  lemma StampsStep(s: State, step: Step)
    requires StampsOk(s) && Enabled(s, step)
    ensures StampsOk(Apply(s, step))
  {
    RecordStampsStep(s, step);
    CandidateStampsStep(s, step);
    TreeStampStep(s, step);
    hide Apply, Enabled;
  }

  /** A new candidate gets a new stamp, and so does the tree when it is merged. */
  lemma CandidatesMade(s: State, step: Step)
    requires LocksOk(s) && StampsOk(s) && CandidatesOk(s) && Enabled(s, step) && (step.StepBuild? || step.StepMerge?)
    ensures CandidatesOk(Apply(s, step))
  {
  }

  lemma CandidatesMoved(s: State, step: Step)
    requires LocksOk(s) && StampsOk(s) && CandidatesOk(s) && Enabled(s, step)
    requires Transition(step) || step.StepReverify? || step.StepFinal? || step.StepEdit? || step.StepLeave?
    requires !step.StepMerge?
    ensures CandidatesOk(Apply(s, step))
  {
  }

  lemma CandidatesKept(s: State, step: Step)
    requires LocksOk(s) && StampsOk(s) && CandidatesOk(s) && Enabled(s, step)
    requires !step.StepBuild? && !Transition(step) && !step.StepReverify? && !step.StepFinal? && !step.StepEdit? && !step.StepLeave?
    ensures CandidatesOk(Apply(s, step))
  {
  }

  lemma CandidatesStep(s: State, step: Step)
    requires LocksOk(s) && StampsOk(s) && CandidatesOk(s) && Enabled(s, step)
    ensures CandidatesOk(Apply(s, step))
  {
    hide LocksOk, StampsOk, CandidatesOk, Enabled, Apply;
    if step.StepBuild? || step.StepMerge? {
      CandidatesMade(s, step);
    } else if Transition(step) || step.StepReverify? || step.StepFinal? || step.StepEdit? || step.StepLeave? {
      CandidatesMoved(s, step);
    } else {
      CandidatesKept(s, step);
    }
  }

  lemma CodeStep(s: State, step: Step)
    requires LocksOk(s) && StampsOk(s) && CandidatesOk(s) && CodeOk(s) && Enabled(s, step)
    ensures CodeOk(Apply(s, step))
  {
  }

  lemma InvStep(s: State, step: Step)
    requires Inv(s) && Enabled(s, step)
    ensures Inv(Apply(s, step))
  {
    LocksStep(s, step);
    StampsStep(s, step);
    CandidatesStep(s, step);
    CodeStep(s, step);
  }

  lemma {:induction false} Reachable(states: seq<State>, steps: seq<Step>, i: nat)
    requires Run(states, steps) && i < |states|
    ensures Inv(states[i])
  {
    if i > 0 {
      Reachable(states, steps, i - 1);
      InvStep(states[i - 1], steps[i - 1]);
    }
  }

  // ----- Progress of one process -----

  function Rank(phase: Phase): nat {
    match phase
    case Idle => 0
    case Opened => 1 case Verified(_) => 2 case Recorded(_) => 3 case Converting(_) => 4 case Exclusive(_) => 5
    case Rechecked(_) => 6 case Built(_, _) => 7 case Merged(_, _) => 8 case Reverified(_, _) => 9
    case Final(_, _) => 10 case Published(_) => 11
    case Admitted(_) => 12 case Leased(_) => 13 case Matched(_) => 14 case Running(_, _) => 15
    case Ended => 16
  }

  lemma RankStep(s: State, step: Step, p: Pid)
    requires Enabled(s, step)
    ensures if Acts(step, p) && !(step.StepLeave? && At(s, p).Ended?) then Rank(At(Apply(s, step), p)) > Rank(At(s, p))
            else At(Apply(s, step), p) == At(s, p)
  {
  }

  lemma RunStep(states: seq<State>, steps: seq<Step>, i: nat)
    requires Run(states, steps) && i + 1 < |states|
    ensures |states| == |steps| + 1 && Enabled(states[i], steps[i]) && states[i + 1] == Apply(states[i], steps[i])
  {
    hide Enabled, Apply;
  }

  /** A process never returns to an earlier phase. */
  lemma {:induction false} RankMonotone(states: seq<State>, steps: seq<Step>, p: Pid, i: nat, j: nat)
    requires Run(states, steps) && i <= j < |states|
    ensures Rank(At(states[i], p)) <= Rank(At(states[j], p))
    ensures Rank(At(states[i], p)) == Rank(At(states[j], p)) ==> At(states[i], p) == At(states[j], p)
    decreases j - i
  {
    hide Run, Enabled, Apply, Rank;
    if i < j {
      RankMonotone(states, steps, p, i, j - 1);
      RunStep(states, steps, j - 1);
      RankStep(states[j - 1], steps[j - 1], p);
    }
  }

  // ----- Safety over all runs -----

  predicate Transition(step: Step) { step.StepMerge? || step.StepExchange? || step.StepCreate? }

  /** Whenever an installer touches the installed tree, nobody else holds the lease in any
      mode: no engine launching or running, and no other installer. */
  lemma TransitionsAreExclusive(states: seq<State>, steps: seq<Step>, i: nat, q: Pid)
    requires Run(states, steps) && i < |steps| && Transition(steps[i]) && q != steps[i].p
    ensures !EngineHolds(At(states[i], q)) && !HoldsShared(At(states[i], q)) && !HoldsExclusive(At(states[i], q))
  {
    Reachable(states, steps, i);
    assert HoldsExclusive(At(states[i], steps[i].p));
  }

  predicate HoldsLease(phase: Phase) { HoldsShared(phase) || HoldsExclusive(phase) }

  ghost predicate Undisturbed(steps: seq<Step>, i: nat, j: nat) {
    i <= j <= |steps| && forall k :: i <= k < j ==> !steps[k].StepEdit?
  }

  lemma FrozenStep(s: State, step: Step, p: Pid)
    requires LocksOk(s) && Enabled(s, step) && !step.StepEdit?
    requires HoldsLease(At(s, p)) && At(Apply(s, step), p) == At(s, p)
    ensures Apply(s, step).tree == s.tree
  {
    RankStep(s, step, p);
    assert Transition(step) ==> HoldsExclusive(At(s, step.p));
  }

  lemma PhaseConstant(states: seq<State>, steps: seq<Step>, p: Pid, i: nat, k: nat, j: nat)
    requires Run(states, steps) && i <= k <= j < |states| && At(states[i], p) == At(states[j], p)
    ensures At(states[k], p) == At(states[i], p)
  {
    RankMonotone(states, steps, p, i, k);
    RankMonotone(states, steps, p, k, j);
  }

  lemma LocksReachable(states: seq<State>, steps: seq<Step>, i: nat)
    requires Run(states, steps) && i < |states|
    ensures LocksOk(states[i])
  {
    Reachable(states, steps, i);
  }

  /** While a process holds the lease and only waits, nobody but an editor changes the tree. */
  lemma {:induction false} LeaseFreezesTree(states: seq<State>, steps: seq<Step>, p: Pid, i: nat, j: nat)
    requires Run(states, steps) && i <= j < |states| && Undisturbed(steps, i, j)
    requires HoldsLease(At(states[i], p)) && At(states[i], p) == At(states[j], p)
    ensures states[i].tree == states[j].tree
    decreases j - i
  {
    hide Run, Enabled, Apply, LocksOk, HoldsLease;
    if i < j {
      PhaseConstant(states, steps, p, i, j - 1, j);
      LeaseFreezesTree(states, steps, p, i, j - 1);
      LocksReachable(states, steps, j - 1);
      RunStep(states, steps, j - 1);
      FrozenStep(states[j - 1], steps[j - 1], p);
    }
  }

  /** An engine runs the very executable its host admitted, unless someone edited the
      installation between the child's check and its exec. */
  lemma EngineRunsAdmittedBinary(states: seq<State>, steps: seq<Step>, p: Pid, i: nat, j: nat)
    requires Run(states, steps) && i < j < |steps| && steps[i] == StepMatch(p) && steps[j] == StepExec(p)
    requires Undisturbed(steps, i, j)
    ensures At(states[j + 1], p) == Running(At(states[i], p).expected, At(states[i], p).expected)
  {
    RankMonotone(states, steps, p, i + 1, j);
    RankStep(states[i], steps[i], p);
    LeaseFreezesTree(states, steps, p, i + 1, j);
  }

  /** No installer replaces or changes the tree under a running engine. */
  lemma NothingMovesUnderRunningEngine(states: seq<State>, steps: seq<Step>, p: Pid, i: nat, j: nat)
    requires Run(states, steps) && i <= j < |states| && Undisturbed(steps, i, j)
    requires At(states[i], p).Running? && At(states[j], p).Running?
    ensures states[j].tree == states[i].tree
  {
    RankMonotone(states, steps, p, i, j);
    LeaseFreezesTree(states, steps, p, i, j);
  }

  // ----- What an upgrade replaces -----

  predicate Matches(s: State, p: Pid) {
    RecordOf(At(s, p)).Some? && s.tree.Some? && s.tree.value.stamp == RecordOf(At(s, p)).value.stamp
  }

  /** A tree that has departed from an upgrade's record never returns to it. */
  lemma MismatchStays(s: State, step: Step, p: Pid)
    requires Inv(s) && Enabled(s, step) && RecordOf(At(s, p)).Some? && !Matches(s, p)
    ensures !Matches(Apply(s, step), p)
  {
  }

  /** As long as the record matches, only the upgrade itself has changed the tree. */
  lemma MatchingStep(s: State, step: Step, p: Pid)
    requires Inv(s) && Enabled(s, step) && Matches(s, p) && Matches(Apply(s, step), p)
    ensures Apply(s, step).tree == s.tree || (step.StepMerge? && step.p == p)
  {
  }

  lemma {:induction false} MatchedThroughout(states: seq<State>, steps: seq<Step>, p: Pid, i: nat, j: nat)
    requires Run(states, steps) && i <= j < |states|
    requires RecordOf(At(states[i], p)).Some? && Matches(states[j], p)
    ensures forall k :: i <= k <= j ==> Matches(states[k], p)
    decreases j - i
  {
    if i < j {
      var k := j - 1;
      RecordKept(states, steps, p, i, k, j);
      Reachable(states, steps, k);
      if !Matches(states[k], p) { MismatchStays(states[k], steps[k], p); }
      MatchedThroughout(states, steps, p, i, k);
    }
  }

  lemma RecordKept(states: seq<State>, steps: seq<Step>, p: Pid, i: nat, k: nat, j: nat)
    requires Run(states, steps) && i <= k <= j < |states|
    requires RecordOf(At(states[i], p)).Some? && RecordOf(At(states[j], p)).Some?
    ensures RecordOf(At(states[k], p)).Some?
    decreases k - i
  {
    hide Run;
    RankMonotone(states, steps, p, i, k);
    RankMonotone(states, steps, p, k, j);
    if i < k {
      RecordKept(states, steps, p, i, k - 1, j);
      RunStep(states, steps, k - 1);
      RankMonotone(states, steps, p, k - 1, j);
    }
  }

  /** The conversion of the lease is not atomic, and another installer may publish in
      between.  An upgrade that passes its checks has still seen one tree from the snapshot
      on: every step up to its final check that changed the tree was its own merge. */
  lemma NobodySlippedIn(states: seq<State>, steps: seq<Step>, p: Pid, i: nat, j: nat, k: nat)
    requires Run(states, steps) && i <= k < j < |steps|
    requires RecordOf(At(states[i], p)).Some? && steps[j] == StepFinal(p) && At(states[j + 1], p).Final?
    ensures states[k + 1].tree == states[k].tree || (steps[k].StepMerge? && steps[k].p == p)
  {
    MatchedThroughout(states, steps, p, i, j);
    Reachable(states, steps, k);
    assert Matches(states[k], p) && Matches(states[k + 1], p);
    MatchingStep(states[k], steps[k], p);
  }

  /** The same directory with the same receipt and code; metadata may differ. */
  ghost predicate SameInstallation(a: Option<Tree>, b: Option<Tree>) {
    a.Some? && b.Some? && a.value.directory == b.value.directory && a.value.receipt == b.value.receipt && a.value.code == b.value.code
  }

  lemma ReceiptStep(s: State, step: Step, p: Pid)
    requires Enabled(s, step) && RecordOf(At(s, p)).Some? && RecordOf(At(Apply(s, step), p)).Some?
    ensures RecordOf(At(Apply(s, step), p)).value.receipt == RecordOf(At(s, p)).value.receipt
  {
  }

  lemma InstallationStep(s: State, step: Step)
    requires Enabled(s, step) && s.tree.Some? && (Apply(s, step).tree == s.tree || step.StepMerge?)
    ensures SameInstallation(s.tree, Apply(s, step).tree)
  {
  }

  /** A snapshot that is not followed by leaving recorded the tree and the verified receipt. */
  lemma SnapshotTaken(states: seq<State>, steps: seq<Step>, p: Pid, s: nat, j: nat)
    requires Run(states, steps) && s < j < |states| && steps[s] == StepSnapshot(p) && At(states[j], p).Final?
    ensures SameInstallation(states[s].tree, states[s + 1].tree) && At(states[s], p).Verified?
    ensures RecordOf(At(states[s + 1], p)).Some? && RecordOf(At(states[s + 1], p)).value.receipt == At(states[s], p).receipt
  {
    hide Run;
    RunStep(states, steps, s);
    RankMonotone(states, steps, p, s + 1, j);
  }

  /** From the snapshot to the final check the installation is one and the same, and so is
      the receipt that was verified. */
  lemma {:induction false} SnapshotKept(states: seq<State>, steps: seq<Step>, p: Pid, s: nat, k: nat, j: nat)
    requires Run(states, steps) && s < k <= j < |steps| && steps[s] == StepSnapshot(p)
    requires steps[j] == StepFinal(p) && At(states[j + 1], p).Final?
    ensures SameInstallation(states[s].tree, states[k].tree)
    ensures At(states[s], p).Verified? && RecordOf(At(states[k], p)).Some?
    ensures RecordOf(At(states[k], p)).value.receipt == At(states[s], p).receipt
    decreases k
  {
    hide Enabled, Apply, Matches;
    SnapshotTaken(states, steps, p, s, j + 1);
    if k > s + 1 {
      SnapshotKept(states, steps, p, s, k - 1, j);
      NobodySlippedIn(states, steps, p, s + 1, j, k - 1);
      RunStep(states, steps, k - 1);
      InstallationStep(states[k - 1], steps[k - 1]);
      RecordKept(states, steps, p, s + 1, k, j + 1);
      ReceiptStep(states[k - 1], steps[k - 1], p);
    }
  }

  /** What stands between the final check and the exchange. */
  lemma FinalTree(states: seq<State>, steps: seq<Step>, p: Pid, i: nat, j: nat)
    requires Run(states, steps) && i < j < |steps| && steps[i] == StepFinal(p) && steps[j] == StepExchange(p)
    requires Undisturbed(steps, i, j)
    ensures At(states[i + 1], p).Final? && At(states[j], p) == At(states[i + 1], p) && states[j].tree == states[i].tree
    ensures SameTree(states[j].tree, At(states[j], p).record) && states[j].tree.value.code == At(states[j], p).record.receipt.code
    ensures At(states[j + 1], p) == Published(states[j].tree) && states[j + 1].tree == Some(At(states[j], p).candidate)
  {
    RankMonotone(states, steps, p, i + 1, j);
    RankStep(states[i], steps[i], p);
    LeaseFreezesTree(states, steps, p, i + 1, j);
    Reachable(states, steps, j);
  }

  /** The directory an upgrade swaps out is the one it verified and snapshotted, with the
      receipt and code it had then, unless someone edited it after the final check; the
      candidate takes its place. */
  lemma ReplacedTreeIsVerified(states: seq<State>, steps: seq<Step>, p: Pid, s: nat, i: nat, j: nat)
    requires Run(states, steps) && s < i < j < |steps|
    requires steps[s] == StepSnapshot(p) && steps[i] == StepFinal(p) && steps[j] == StepExchange(p)
    requires Undisturbed(steps, i, j)
    ensures At(states[s], p).Verified? && SameInstallation(states[s].tree, states[j].tree)
    ensures states[s].tree.value.receipt == At(states[s], p).receipt && states[s].tree.value.code == At(states[s], p).receipt.code
    ensures At(states[j + 1], p) == Published(states[j].tree) && states[j + 1].tree == Some(At(states[j], p).candidate)
  {
    RunStep(states, steps, s);
    RunStep(states, steps, i);
    FinalTree(states, steps, p, i, j);
    SnapshotKept(states, steps, p, s, i, i);
    ReceiptStep(states[i], steps[i], p);
  }

  /** A first installation never replaces a tree. */
  lemma CreateReplacesNothing(states: seq<State>, steps: seq<Step>, p: Pid, i: nat)
    requires Run(states, steps) && i < |steps| && steps[i] == StepCreate(p) && At(states[i + 1], p).Published?
    ensures states[i].tree.None? && states[i + 1].tree == Some(At(states[i], p).candidate)
  {
  }

  // ----- Installers and engines get there -----

  /** No lease in any mode. */
  predicate HoldsNothing(phase: Phase) { phase.Idle? || phase.Converting? || phase.Admitted? || phase.Ended? }

  /** An installation lease is refused exactly while an installer holds it exclusively. */
  lemma SharedIsGranted(states: seq<State>, steps: seq<Step>, i: nat, p: Pid)
    requires Run(states, steps) && i < |steps| && (steps[i] == StepOpen(p) || steps[i] == StepLease(p))
    ensures At(states[i + 1], p).Ended? <==> exists q: Pid :: HoldsExclusive(At(states[i], q))
    ensures At(states[i + 1], p).Ended? || HoldsShared(At(states[i + 1], p))
  {
    LocksReachable(states, steps, i);
    if states[i].exclusive.Some? { assert HoldsExclusive(At(states[i], states[i].exclusive.value)); }
  }

  /** The conversion is refused exactly while anybody else holds the lease in any mode. */
  lemma ExclusiveIsGranted(states: seq<State>, steps: seq<Step>, i: nat, p: Pid)
    requires Run(states, steps) && i < |steps| && steps[i] == StepTake(p)
    ensures At(states[i + 1], p).Ended? <==> exists q: Pid :: q != p && !HoldsNothing(At(states[i], q))
    ensures At(states[i + 1], p).Ended? || At(states[i + 1], p) == Exclusive(At(states[i], p).previous)
  {
    var s := states[i];
    LocksReachable(states, steps, i);
    assert At(s, p).Converting?;
    if s.exclusive.Some? { assert !HoldsNothing(At(s, s.exclusive.value)); }
    if s.shared != {} {
      var q :| q in s.shared;
      assert !HoldsNothing(At(s, q));
    }
  }

  /** The state after some steps; None if one of them is not enabled. */
  function Play(s: State, steps: seq<Step>): Option<State>
    decreases |steps|
  {
    if steps == [] then Some(s)
    else if !Enabled(s, steps[0]) then None
    else Play(Apply(s, steps[0]), steps[1..])
  }

  /** One step after another. */
  lemma {:induction false} PlayPath(path: seq<State>, steps: seq<Step>)
    requires |path| == |steps| + 1
    requires forall i :: 0 <= i < |steps| ==> Enabled(path[i], steps[i]) && path[i + 1] == Apply(path[i], steps[i])
    ensures Play(path[0], steps) == Some(path[|steps|])
    decreases |steps|
  {
    hide Enabled, Apply;
    if steps != [] {
      forall i | 0 <= i < |steps[1..]|
        ensures Enabled(path[1..][i], steps[1..][i]) && path[1..][i + 1] == Apply(path[1..][i], steps[1..][i])
      {
        assert path[1..][i] == path[i + 1] && steps[1..][i] == steps[i + 1] && path[1..][i + 1] == path[i + 2];
      }
      PlayPath(path[1..], steps[1..]);
    }
  }

  lemma {:induction false} PlayTwice(s: State, a: seq<Step>, b: seq<Step>)
    requires Play(s, a).Some?
    ensures Play(s, a + b) == Play(Play(s, a).value, b)
    decreases |a|
  {
    hide Enabled, Apply;
    if a == [] {
      assert a + b == b;
    } else {
      assert (a + b)[1..] == a[1..] + b;
      PlayTwice(Apply(s, a[0]), a[1..], b);
    }
  }

  /** What can be played makes a run longer. */
  lemma {:induction false} RunGoesOn(states: seq<State>, steps: seq<Step>, more: seq<Step>) returns (longer: seq<State>)
    requires Run(states, steps) && Play(states[|steps|], more).Some?
    ensures Run(longer, steps + more) && longer[..|states|] == states
    ensures longer[|longer| - 1] == Play(states[|steps|], more).value
    decreases |more|
  {
    if more == [] {
      longer := states;
      assert steps + more == steps;
    } else {
      hide Enabled, Apply;
      var next := Apply(states[|steps|], more[0]);
      RunGrows(states, steps, more[0]);
      longer := RunGoesOn(states + [next], steps + [more[0]], more[1..]);
      assert steps + [more[0]] + more[1..] == steps + more;
      assert longer[..|states|] == longer[..|states| + 1][..|states|];
    }
  }

  lemma RunGrows(states: seq<State>, steps: seq<Step>, step: Step)
    requires Run(states, steps) && Enabled(states[|steps|], step)
    ensures Run(states + [Apply(states[|steps|], step)], steps + [step])
  {
    hide Enabled, Apply;
    assert (states + [Apply(states[|steps|], step)])[0] == states[0];
  }

  // ----- An installer alone -----

  function AdmissionSteps(p: Pid): seq<Step> { [StepOpen(p), StepVerify(p), StepSnapshot(p), StepDrop(p), StepTake(p), StepRecheck(p)] }

  function MergeSteps(p: Pid, candidate: Tree, binary: nat): seq<Step> {
    [StepBuild(p, candidate), StepMerge(p, binary), StepReverify(p), StepFinal(p), StepExchange(p)]
  }

  /** An upgrade in program order. */
  function UpgradeSteps(p: Pid, candidate: Tree, binary: nat): seq<Step> { AdmissionSteps(p) + MergeSteps(p, candidate, binary) }

  /** A first installation in program order. */
  function InstallSteps(p: Pid, candidate: Tree): seq<Step> {
    [StepOpen(p), StepVerify(p), StepDrop(p), StepTake(p), StepRecheck(p), StepBuild(p, candidate), StepCreate(p)]
  }

  function LaunchSteps(p: Pid, expected: nat): seq<Step> {
    [StepAdmit(p, expected), StepLease(p), StepMatch(p), StepExec(p)]
  }

  lemma Admission(s: State, p: Pid) returns (end: State)
    requires At(s, p).Idle? && s.shared == {} && s.exclusive == None
    requires s.tree.Some? && s.tree.value.receipt.code == s.tree.value.code
    ensures Play(s, AdmissionSteps(p)) == Some(end) && end.tree == s.tree && end.clock == s.clock
    ensures At(end, p) == Rechecked(Some(Record(s.tree.value.receipt, s.tree.value.stamp)))
  {
    var shared := Apply(s, StepOpen(p));
    var verified := Apply(shared, StepVerify(p));
    var recorded := Apply(verified, StepSnapshot(p));
    var converting := Apply(recorded, StepDrop(p));
    assert converting.shared == {};
    var taken := Apply(converting, StepTake(p));
    end := Apply(taken, StepRecheck(p));
    hide Apply;
    PlayPath([s, shared, verified, recorded, converting, taken, end], AdmissionSteps(p));
  }

  lemma Merging(s: State, p: Pid, candidate: Tree, binary: nat) returns (end: State)
    requires s.tree.Some? && s.tree.value.receipt.code == s.tree.value.code && candidate.receipt.code == candidate.code
    requires At(s, p) == Rechecked(Some(Record(s.tree.value.receipt, s.tree.value.stamp)))
    ensures Play(s, MergeSteps(p, candidate, binary)) == Some(end) && end.tree == Some(candidate.(stamp := s.clock))
    ensures At(end, p) == Published(Some(s.tree.value.(stamp := s.clock + 1, binary := binary)))
  {
    var built := Apply(s, StepBuild(p, candidate));
    var merged := Apply(built, StepMerge(p, binary));
    var tree := s.tree.value.(stamp := s.clock + 1, binary := binary);
    assert merged.tree == Some(tree)
           && At(merged, p) == Merged(Record(tree.receipt, tree.stamp), candidate.(stamp := s.clock));
    assert Enabled(s, StepBuild(p, candidate)) && Enabled(built, StepMerge(p, binary));
    var reverified, final;
    reverified, final, end := Exchanging(merged, p);
    hide Apply, Enabled;
    PlayPath([s, built, merged, reverified, final, end], MergeSteps(p, candidate, binary));
  }

  lemma Exchanging(s: State, p: Pid) returns (reverified: State, final: State, end: State)
    requires s.tree.Some? && s.tree.value.receipt.code == s.tree.value.code && At(s, p).Merged?
    requires At(s, p).record == Record(s.tree.value.receipt, s.tree.value.stamp)
    ensures Enabled(s, StepReverify(p)) && reverified == Apply(s, StepReverify(p))
    ensures Enabled(reverified, StepFinal(p)) && final == Apply(reverified, StepFinal(p))
    ensures Enabled(final, StepExchange(p)) && end == Apply(final, StepExchange(p))
    ensures end.tree == Some(At(s, p).candidate) && At(end, p) == Published(s.tree)
  {
    reverified := Apply(s, StepReverify(p));
    final := Apply(reverified, StepFinal(p));
    end := Apply(final, StepExchange(p));
  }

  lemma Installing(s: State, p: Pid, candidate: Tree) returns (end: State)
    requires At(s, p).Idle? && s.shared == {} && s.exclusive == None && s.tree.None? && candidate.receipt.code == candidate.code
    ensures Play(s, InstallSteps(p, candidate)) == Some(end) && end.tree == Some(candidate.(stamp := s.clock))
    ensures At(end, p) == Published(None)
  {
    var shared := Apply(s, StepOpen(p));
    var recorded := Apply(shared, StepVerify(p));
    var converting := Apply(recorded, StepDrop(p));
    assert converting.shared == {};
    var taken := Apply(converting, StepTake(p));
    var rechecked := Apply(taken, StepRecheck(p));
    var built := Apply(rechecked, StepBuild(p, candidate));
    end := Apply(built, StepCreate(p));
    hide Apply;
    PlayPath([s, shared, recorded, converting, taken, rechecked, built, end], InstallSteps(p, candidate));
  }

  lemma Launching(s: State, p: Pid) returns (end: State)
    requires At(s, p).Idle? && s.exclusive == None && s.tree.Some?
    ensures Play(s, LaunchSteps(p, s.tree.value.binary)) == Some(end) && end.tree == s.tree
    ensures At(end, p) == Running(s.tree.value.binary, s.tree.value.binary)
  {
    var binary := s.tree.value.binary;
    var admitted := Apply(s, StepAdmit(p, binary));
    var leased := Apply(admitted, StepLease(p));
    var matched := Apply(leased, StepMatch(p));
    end := Apply(matched, StepExec(p));
    hide Apply;
    PlayPath([s, admitted, leased, matched, end], LaunchSteps(p, binary));
  }

  lemma NobodyHolds(states: seq<State>, steps: seq<Step>)
    requires Run(states, steps) && forall q: Pid :: HoldsNothing(At(states[|steps|], q))
    ensures states[|steps|].shared == {} && states[|steps|].exclusive == None
  {
    var s := states[|steps|];
    assert s.exclusive == None || s.exclusive == Some(s.exclusive.value);
    LocksReachable(states, steps, |steps|);
    forall q: Pid ensures q !in s.shared && s.exclusive != Some(q) {
      assert HoldsNothing(At(s, q));
    }
  }

  lemma NoneExclusive(states: seq<State>, steps: seq<Step>)
    requires Run(states, steps) && forall q: Pid :: !HoldsExclusive(At(states[|steps|], q))
    ensures states[|steps|].exclusive == None
  {
    var s := states[|steps|];
    assert s.exclusive == None || s.exclusive == Some(s.exclusive.value);
    LocksReachable(states, steps, |steps|);
    forall q: Pid ensures s.exclusive != Some(q) {
      assert !HoldsExclusive(At(s, q));
    }
  }

  /** From wherever a run has got to, when nobody holds the lease and the tree's receipt
      vouches for its code: one upgrade that takes its steps in order, with nobody acting in
      between, ends with its candidate as the tree and the old directory kept. */
  lemma UpgradePublishes(states: seq<State>, steps: seq<Step>, p: Pid, candidate: Tree, binary: nat) returns (longer: seq<State>)
    requires Run(states, steps) && At(states[|steps|], p).Idle? && (forall q: Pid :: HoldsNothing(At(states[|steps|], q)))
    requires var tree := states[|steps|].tree; tree.Some? && tree.value.receipt.code == tree.value.code
    requires candidate.receipt.code == candidate.code
    ensures Run(longer, steps + UpgradeSteps(p, candidate, binary)) && longer[..|states|] == states
    ensures var end, old' := longer[|longer| - 1], states[|steps|].tree.value;
            && end.tree.Some? && end.tree.value.(stamp := candidate.stamp) == candidate
            && At(end, p).Published? && At(end, p).replaced.Some?
            && At(end, p).replaced.value.(stamp := old'.stamp, binary := old'.binary) == old'
  {
    hide Enabled, Apply;
    var s := states[|steps|];
    NobodyHolds(states, steps);
    var admitted := Admission(s, p);
    var end := Merging(admitted, p, candidate, binary);
    PlayTwice(s, AdmissionSteps(p), MergeSteps(p, candidate, binary));
    longer := RunGoesOn(states, steps, UpgradeSteps(p, candidate, binary));
  }

  /** The same for a first installation, when there is no tree. */
  lemma InstallPublishes(states: seq<State>, steps: seq<Step>, p: Pid, candidate: Tree) returns (longer: seq<State>)
    requires Run(states, steps) && At(states[|steps|], p).Idle? && (forall q: Pid :: HoldsNothing(At(states[|steps|], q)))
    requires states[|steps|].tree.None? && candidate.receipt.code == candidate.code
    ensures Run(longer, steps + InstallSteps(p, candidate)) && longer[..|states|] == states
    ensures var end := longer[|longer| - 1];
            && end.tree.Some? && end.tree.value.(stamp := candidate.stamp) == candidate && At(end, p) == Published(None)
  {
    hide Enabled, Apply;
    NobodyHolds(states, steps);
    var end := Installing(states[|steps|], p, candidate);
    longer := RunGoesOn(states, steps, InstallSteps(p, candidate));
  }

  /** An engine gets to run the tree's executable when it was admitted for it and no
      installer holds the lease exclusively, however many engines share it. */
  lemma EngineStarts(states: seq<State>, steps: seq<Step>, p: Pid) returns (longer: seq<State>)
    requires Run(states, steps) && At(states[|steps|], p).Idle? && (forall q: Pid :: !HoldsExclusive(At(states[|steps|], q)))
    requires states[|steps|].tree.Some?
    ensures var tree := states[|steps|].tree;
            && Run(longer, steps + LaunchSteps(p, tree.value.binary)) && longer[..|states|] == states
            && longer[|longer| - 1].tree == tree && At(longer[|longer| - 1], p) == Running(tree.value.binary, tree.value.binary)
  {
    hide Enabled, Apply;
    NoneExclusive(states, steps);
    var s := states[|steps|];
    var end := Launching(s, p);
    longer := RunGoesOn(states, steps, LaunchSteps(p, s.tree.value.binary));
  }

  /** And so does an upgrade right after the start, on any tree its receipt vouches for. */
  lemma StartIsARun(tree: Option<Tree>)
    ensures Run([Init(tree)], []) && forall q: Pid :: At(Init(tree), q).Idle?
  {
  }
}
