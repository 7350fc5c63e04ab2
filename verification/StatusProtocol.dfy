/**
 Writers of one account's status, interleaved: each reads a copy, computes a change, and commits it only
 if the stored version is still the one it read. A failure report that loses the race reads again and retries once.
 */
module StatusProtocol {
  import opened Prelude
  import opened Entities
  import opened MemoryStore

  datatype Writer =
    | QuotaCallback(until: Option<int>)
    | FailureCooldown(until: Option<int>)
    | FailureTrip(until: Option<int>)
    | SuccessRecovery
    | Other(change: Account, fields: set<UpdateField>)
  {
    predicate ReportsFailure() {
      FailureCooldown? || FailureTrip?
    }

    function Fields(): set<UpdateField> {
      if Other? then fields else {FieldStatus}
    }
  }

  /** When a copy was read: in which lifetime of the account, and after how many commits in it. */
  datatype Moment = Moment(life: nat, commits: nat)

  datatype Phase =
    | Idle
    | HasRead(writer: Writer, copy: Account, since: Moment)
    | LostRace(writer: Writer, wanted: Account)
    | HasReread(writer: Writer, wanted: Account, copy: Account, since: Moment)

  /** A committed write: what it was computed from and when that was read, what it replaced and when, what it left. */
  datatype Commit = Commit(
    writer: Writer, retry: bool, basis: Account, since: Moment, replaced: Account, at: Moment, written: Account)
  {
    /** The copy was read in the lifetime it was committed in. */
    predicate SameLife() {
      since.life == at.life
    }
  }

  /** now counts the lifetimes of the account, and the commits in the current one. */
  datatype State = State(account: Account, procs: map<nat, Phase>, log: seq<Commit>, now: Moment)

  /** Recreate removes the account and adds another under its ID. */
  datatype Action =
    | Begin(p: nat, writer: Writer)
    | TryCommit(p: nat, time: int)
    | ReadAgain(p: nat)
    | Recreate(a: Account, time: int)

  function PhaseOf(s: State, p: nat): Phase {
    if p in s.procs then s.procs[p] else Idle
  }

  /** What a writer wants to store, given its copy; nothing when its own guard says no. */
  function Compute(w: Writer, copy: Account): Option<Account> {
    match w
    case QuotaCallback(until) =>
      if copy.status == STATUS_AVAILABLE then Some(copy.(cooldownUntil := until, status := STATUS_COOLING_DOWN))
      else None
    case FailureCooldown(until) => Some(copy.(cooldownUntil := until, status := STATUS_COOLING_DOWN))
    case FailureTrip(until) => Some(copy.(circuitOpenUntil := until, status := STATUS_CIRCUIT_OPEN))
    case SuccessRecovery =>
      if copy.status == STATUS_CIRCUIT_OPEN then Some(copy.(status := STATUS_AVAILABLE, circuitOpenUntil := None))
      else None
    case Other(change, _) => Some(change.(id := copy.id, version := copy.version))
  }

  /** Statuses the retry leaves alone. */
  predicate Settled(status: int) {
    status == STATUS_BANNED || status == STATUS_INVALIDATED || status == STATUS_DISABLED
      || status == STATUS_CIRCUIT_OPEN
  }

  function CommitIf(s: State, p: nat, w: Writer, retry: bool, copy: Account, since: Moment, wanted: Account,
                    time: int): State
  {
    if s.account.version == copy.version then
      var after := Updated(s.account, wanted, w.Fields(), time);
      State(after, s.procs[p := Idle], s.log + [Commit.Commit(w, retry, copy, since, s.account, s.now, after)],
            s.now.(commits := s.now.commits + 1))
    else
      s.(procs := s.procs[p := if w.ReportsFailure() && !retry then LostRace(w, wanted) else Idle])
  }

  /** What a retry wants to store: its new copy with the status and times the first attempt computed. */
  function Merged(copy: Account, wanted: Account): Account {
    copy.(status := wanted.status, circuitOpenUntil := wanted.circuitOpenUntil, cooldownUntil := wanted.cooldownUntil)
  }

  function Step(s: State, act: Action): State {
    match act
    case Begin(p, w) =>
      if PhaseOf(s, p).Idle? then s.(procs := s.procs[p := HasRead(w, s.account, s.now)]) else s
    case TryCommit(p, time) =>
      (match PhaseOf(s, p)
       case HasRead(w, copy, since) =>
         (match Compute(w, copy)
          case Some(wanted) => CommitIf(s, p, w, false, copy, since, wanted, time)
          case None => s.(procs := s.procs[p := Idle]))
       case HasReread(w, wanted, copy, since) => CommitIf(s, p, w, true, copy, since, Merged(copy, wanted), time)
       case _ => s)
    case ReadAgain(p) =>
      (match PhaseOf(s, p)
       case LostRace(w, wanted) =>
         s.(procs := s.procs[p := if Settled(s.account.status) then Idle else HasReread(w, wanted, s.account, s.now)])
       case _ => s)
    case Recreate(a, time) => s.(account := Stored(a, time), now := Moment(s.now.life + 1, 0))
  }

  function Run(s: State, acts: seq<Action>): State {
    if acts == [] then s else Step(Run(s, acts[..|acts| - 1]), acts[|acts| - 1])
  }

  ghost predicate OneLifetime(acts: seq<Action>) {
    forall i :: 0 <= i < |acts| ==> !acts[i].Recreate?
  }

  function Start(a: Account): State {
    State(a, map[], [], Moment(0, 0))
  }

  // ---- Invariant ----

  /** The version a lifetime began with: every later one begins at 1. */
  function FirstVersion(initial: Account, life: nat): int {
    if life == 0 then initial.version else 1
  }

  /** A copy from the current lifetime is as old as the commits it has missed; from an earlier one nothing is known. */
  ghost predicate CopyFits(initial: Account, s: State, copy: Account, since: Moment) {
    && since.life <= s.now.life
    && (since.life == s.now.life ==>
          && since.commits <= s.now.commits
          && copy.version == FirstVersion(initial, since.life) + since.commits
          && (since.commits == s.now.commits ==> copy == s.account))
  }

  ghost predicate PhaseFits(initial: Account, s: State, ph: Phase) {
    match ph
    case Idle => true
    case HasRead(_, copy, since) => CopyFits(initial, s, copy, since)
    case LostRace(w, _) => w.ReportsFailure()
    case HasReread(w, _, copy, since) =>
      w.ReportsFailure() && !Settled(copy.status) && CopyFits(initial, s, copy, since)
  }

  ghost predicate CommitFits(c: Commit) {
    && c.since.life <= c.at.life
    && c.written.version == c.replaced.version + 1
    && (c.retry ==> c.writer.ReportsFailure())
    && (c.SameLife() ==>
          && c.basis == c.replaced && c.since == c.at
          && (c.writer.QuotaCallback? ==>
             c.replaced.status == STATUS_AVAILABLE && c.written.status == STATUS_COOLING_DOWN)
          && (c.writer.SuccessRecovery? ==>
             c.replaced.status == STATUS_CIRCUIT_OPEN && c.written.status == STATUS_AVAILABLE)
          && (c.retry ==> !Settled(c.replaced.status)))
  }

  /** Two commits in a row within one lifetime: the second replaced what the first left. */
  ghost predicate Links(c: Commit, next: Commit) {
    && c.at.life <= next.at.life
    && (c.at.life == next.at.life ==> next.at.commits == c.at.commits + 1 && next.replaced == c.written)
    && (c.at.life < next.at.life ==> next.at.commits == 0)
  }

  /** The log is unbroken within every lifetime, and its last commit in the current one left the current account. */
  ghost predicate LogFits(initial: Account, s: State) {
    && (forall i :: 0 <= i < |s.log| ==> CommitFits(s.log[i]))
    && (forall i :: 0 <= i < |s.log| - 1 ==> Links(s.log[i], s.log[i + 1]))
    && (s.log != [] && s.log[0].at.life == 0 ==> s.log[0].replaced == initial && s.log[0].at.commits == 0)
    && (s.now.commits == 0 ==>
          && (s.now.life == 0 ==> s.account == initial)
          && (s.log == [] || s.log[|s.log| - 1].at.life < s.now.life))
    && (s.now.commits > 0 ==>
          && s.log != [] && s.log[|s.log| - 1].at == Moment(s.now.life, s.now.commits - 1)
          && s.log[|s.log| - 1].written == s.account)
  }

  ghost predicate Inv(initial: Account, s: State) {
    && s.account.version == FirstVersion(initial, s.now.life) + s.now.commits
    && LogFits(initial, s)
    && (forall p :: p in s.procs ==> PhaseFits(initial, s, s.procs[p]))
  }

  lemma PhasesKept(initial: Account, s: State, s': State, p: nat)
    requires forall q :: q in s.procs ==> PhaseFits(initial, s, s.procs[q])
    requires forall q :: q in s'.procs ==> q == p || (q in s.procs && s'.procs[q] == s.procs[q])
    requires p in s'.procs ==> PhaseFits(initial, s', s'.procs[p])
    requires s'.now.life == s.now.life && s'.now.commits >= s.now.commits
              && (s'.now == s.now ==> s'.account == s.account)
    ensures forall q :: q in s'.procs ==> PhaseFits(initial, s', s'.procs[q])
  {
    forall q | q in s'.procs
      ensures PhaseFits(initial, s', s'.procs[q])
    {
      if q != p {
        assert PhaseFits(initial, s, s.procs[q]);
      }
    }
  }

  lemma CommitKeepsInv(initial: Account, s: State, p: nat, w: Writer, retry: bool, copy: Account, since: Moment,
                       wanted: Account, time: int)
    requires Inv(initial, s) && CopyFits(initial, s, copy, since)
    requires !retry ==> Compute(w, copy) == Some(wanted)
    requires retry ==> w.ReportsFailure() && !Settled(copy.status)
    ensures Inv(initial, CommitIf(s, p, w, retry, copy, since, wanted, time))
  {
    var s' := CommitIf(s, p, w, retry, copy, since, wanted, time);
    PhasesKept(initial, s, s', p);
    if s.account.version == copy.version {
      var c := s'.log[|s.log|];
      NewCommitFits(initial, s, copy, since, c, wanted, time);
      hide CommitFits, Links, PhaseFits, Updated;
      LogGrows(initial, s, s', c);
    } else {
      hide LogFits, PhaseFits;
      SameLog(initial, s, s');
    }
  }

  /** A commit of a fitting copy fits, and links to the last one. */
  lemma NewCommitFits(initial: Account, s: State, copy: Account, since: Moment, c: Commit, wanted: Account, time: int)
    requires Inv(initial, s) && CopyFits(initial, s, copy, since) && copy.version == s.account.version
    requires c == Commit.Commit(c.writer, c.retry, copy, since, s.account, s.now,
                                Updated(s.account, wanted, c.writer.Fields(), time))
    requires !c.retry ==> Compute(c.writer, copy) == Some(wanted)
    requires c.retry ==> c.writer.ReportsFailure() && !Settled(copy.status)
    ensures CommitFits(c)
    ensures s.log != [] ==> Links(s.log[|s.log| - 1], c)
  {
    if s.log != [] && |s.log| > 1 {
      assert Links(s.log[|s.log| - 2], s.log[|s.log| - 1]);
    }
  }

  lemma LogGrows(initial: Account, s: State, s': State, c: Commit)
    requires LogFits(initial, s) && CommitFits(c) && (s.log != [] ==> Links(s.log[|s.log| - 1], c))
    requires c.replaced == s.account && c.at == s.now
    requires s' == State(c.written, s'.procs, s.log + [c], s.now.(commits := s.now.commits + 1))
    ensures LogFits(initial, s')
  {
    hide CommitFits, Links;
  }

  lemma StepKeepsInv(initial: Account, s: State, act: Action)
    requires Inv(initial, s)
    ensures Inv(initial, Step(s, act))
  {
    hide LogFits, CommitFits, Links;
    match act {
      case Begin(p, w) => PhasesKept(initial, s, Step(s, act), p);
      case ReadAgain(p) => PhasesKept(initial, s, Step(s, act), p);
      case Recreate(a, time) => RecreateKeepsInv(initial, s, a, time);
      case TryCommit(p, time) =>
        match PhaseOf(s, p) {
          case HasRead(w, copy, since) =>
            match Compute(w, copy) {
              case Some(wanted) => CommitKeepsInv(initial, s, p, w, false, copy, since, wanted, time);
              case None => PhasesKept(initial, s, Step(s, act), p);
            }
          case HasReread(w, wanted, copy, since) =>
            CommitKeepsInv(initial, s, p, w, true, copy, since, Merged(copy, wanted), time);
          case _ =>
        }
    }
    SameLog(initial, s, Step(s, act));
  }

  lemma SameLog(initial: Account, s: State, s': State)
    requires LogFits(initial, s)
    ensures s'.log == s.log && s'.now == s.now && s'.account == s.account ==> LogFits(initial, s')
  {}

  lemma RecreateKeepsInv(initial: Account, s: State, a: Account, time: int)
    requires Inv(initial, s)
    ensures Inv(initial, Step(s, Recreate(a, time)))
  {
    var s' := Step(s, Recreate(a, time));
    forall q | q in s'.procs
      ensures PhaseFits(initial, s', s'.procs[q])
    {
      assert PhaseFits(initial, s, s.procs[q]);
    }
  }

  lemma {:induction false} RunKeepsInv(initial: Account, acts: seq<Action>)
    ensures Inv(initial, Run(Start(initial), acts))
  {
    if acts != [] {
      RunKeepsInv(initial, acts[..|acts| - 1]);
      StepKeepsInv(initial, Run(Start(initial), acts[..|acts| - 1]), acts[|acts| - 1]);
    }
  }

  // ---- What every run guarantees ----

  /**
   Whatever happens, a commit whose copy was read in the same lifetime was computed from exactly the account it
   replaced.
   */
  lemma CopiesOfThisLifeAreNeverStale(initial: Account, acts: seq<Action>, i: nat)
    requires i < |Run(Start(initial), acts).log|
    ensures var c := Run(Start(initial), acts).log[i];
            c.SameLife() ==> c.basis == c.replaced && c.since == c.at
  {
    RunKeepsInv(initial, acts);
  }

  lemma {:induction false} OneLifeOnly(initial: Account, acts: seq<Action>)
    requires OneLifetime(acts)
    ensures var s := Run(Start(initial), acts);
            s.now.life == 0 && forall i :: 0 <= i < |s.log| ==> s.log[i].at.life == 0
  {
    if acts != [] {
      OneLifeOnly(initial, acts[..|acts| - 1]);
    }
  }

  lemma {:induction false} CommitsNumbered(initial: Account, acts: seq<Action>)
    requires OneLifetime(acts)
    ensures var s := Run(Start(initial), acts); s.now.commits == |s.log|
  {
    if acts != [] {
      CommitsNumbered(initial, acts[..|acts| - 1]);
    }
  }

  /**
   However writers interleave in one lifetime, each commit was computed from exactly the account it replaced, and none
   is lost.
   */
  lemma CommitsAreComputedFromWhatTheyReplace(initial: Account, acts: seq<Action>)
    requires OneLifetime(acts)
    ensures var s := Run(Start(initial), acts);
            && (forall i :: 0 <= i < |s.log| ==> s.log[i].basis == s.log[i].replaced)
            && (forall i :: 0 <= i < |s.log| - 1 ==> s.log[i].written == s.log[i + 1].replaced)
            && s.account == (if s.log == [] then initial else s.log[|s.log| - 1].written)
            && s.account.version == initial.version + |s.log|
  {
    RunKeepsInv(initial, acts);
    OneLifeOnly(initial, acts);
    CommitsNumbered(initial, acts);
    var s := Run(Start(initial), acts);
    forall i | 0 <= i < |s.log|
      ensures s.log[i].SameLife()
    {
      assert CommitFits(s.log[i]);
    }
    forall i | 0 <= i < |s.log| - 1
      ensures s.log[i].written == s.log[i + 1].replaced
    {
      assert Links(s.log[i], s.log[i + 1]);
    }
  }

  /** The quota callback only ever turns Available into CoolingDown, unless its copy is from an earlier lifetime. */
  lemma QuotaCallbackOnlyCools(initial: Account, acts: seq<Action>, i: nat)
    requires var log := Run(Start(initial), acts).log; i < |log| && log[i].writer.QuotaCallback? && log[i].SameLife()
    ensures var c := Run(Start(initial), acts).log[i];
            c.replaced.status == STATUS_AVAILABLE && c.written.status == STATUS_COOLING_DOWN
  {
    RunKeepsInv(initial, acts);
  }

  /**
   A retried failure report never replaces a banned, invalidated, disabled or circuit-open account of the lifetime it
   read.
   */
  lemma RetryRespectsSettled(initial: Account, acts: seq<Action>, i: nat)
    requires var log := Run(Start(initial), acts).log; i < |log| && log[i].retry && log[i].SameLife()
    ensures var c := Run(Start(initial), acts).log[i];
            && (c.writer.FailureCooldown? || c.writer.FailureTrip?)
            && c.replaced.status != STATUS_BANNED && c.replaced.status != STATUS_INVALIDATED
            && c.replaced.status != STATUS_DISABLED && c.replaced.status != STATUS_CIRCUIT_OPEN
  {
    RunKeepsInv(initial, acts);
  }

  /**
   A failure report that lost the race and reads again gives up when it finds one of these four statuses. For any other
   it waits with the account it found, and commits what it wanted if it comes next.
   */
  lemma RetryGivesUpIff(initial: Account, acts: seq<Action>, p: nat, time: int)
    requires PhaseOf(Run(Start(initial), acts), p).LostRace?
    ensures var s := Run(Start(initial), acts);
            var again := Step(s, ReadAgain(p));
            var done := Step(again, TryCommit(p, time));
            var ph := PhaseOf(s, p);
            again.account == s.account &&
            if s.account.status in {STATUS_BANNED, STATUS_INVALIDATED, STATUS_DISABLED, STATUS_CIRCUIT_OPEN} then
              PhaseOf(again, p).Idle? && done == again
            else
              && PhaseOf(again, p) == HasReread(ph.writer, ph.wanted, s.account, s.now)
              && done.account == s.account.(
                   status := ph.wanted.status, cooldownUntil := ph.wanted.cooldownUntil,
                   circuitOpenUntil := ph.wanted.circuitOpenUntil, updatedAt := time, version := s.account.version + 1)
  {
    RunKeepsInv(initial, acts);
    var s := Run(Start(initial), acts);
    assert PhaseFits(initial, s, s.procs[p]);
  }

  /** A writer whose write did not go through: a first attempt to report a failure reads again, all others give up. */
  lemma LosersRetryOnce(initial: Account, acts: seq<Action>, p: nat, time: int)
    requires var s := Run(Start(initial), acts); Pending(PhaseOf(s, p)) && !Commits(s, p, time)
    ensures var s := Run(Start(initial), acts);
            var ph, after := PhaseOf(s, p), Step(s, TryCommit(p, time));
            after.account == s.account &&
            if ph.HasRead? && (ph.writer.FailureCooldown? || ph.writer.FailureTrip?)
            then PhaseOf(after, p).LostRace? && PhaseOf(after, p).writer == ph.writer
            else PhaseOf(after, p).Idle?
  {}

  /**
   With nobody in between, a failure report always writes, the quota callback exactly when the account is available,
   a recovery exactly when its circuit is open. A writer that is busy does not start over.
   */
  lemma AloneItWritesIff(initial: Account, acts: seq<Action>, p: nat, w: Writer, time: int)
    ensures var s := Run(Start(initial), acts);
            var read := Step(s, Begin(p, w));
            if PhaseOf(s, p).Idle? then
              PhaseOf(read, p) == HasRead(w, s.account, s.now) && read.account == s.account &&
              (Commits(read, p, time) <==>
                 && (w.QuotaCallback? ==> s.account.status == STATUS_AVAILABLE)
                 && (w.SuccessRecovery? ==> s.account.status == STATUS_CIRCUIT_OPEN))
            else read == s
  {}

  /** An account that is removed and added again starts over, while what was read of the earlier one stays around. */
  lemma RecreateStartsOver(s: State, a: Account, time: int)
    ensures var after := Step(s, Recreate(a, time));
            && after.account.version == 1 && after.now == Moment(s.now.life + 1, 0)
            && after.log == s.log && after.procs == s.procs
  {}

  // ---- What is written ----

  /** Only the status, its two times and the bookkeeping differ. */
  ghost predicate StatusOnly(before: Account, after: Account) {
    after == before.(status := after.status, cooldownUntil := after.cooldownUntil,
                     circuitOpenUntil := after.circuitOpenUntil, updatedAt := after.updatedAt, version := after.version)
  }

  ghost predicate Asks(w: Writer, wanted: Account) {
    match w
    case QuotaCallback(until) => wanted.status == STATUS_COOLING_DOWN && wanted.cooldownUntil == until
    case FailureCooldown(until) => wanted.status == STATUS_COOLING_DOWN && wanted.cooldownUntil == until
    case FailureTrip(until) => wanted.status == STATUS_CIRCUIT_OPEN && wanted.circuitOpenUntil == until
    case SuccessRecovery => wanted.status == STATUS_AVAILABLE && wanted.circuitOpenUntil.None?
    case Other(_, _) => true
  }

  /** The commit did to the account what its writer is for. */
  ghost predicate Serves(c: Commit) {
    && Asks(c.writer, c.written)
    && (c.writer.QuotaCallback? ==> c.basis.status == STATUS_AVAILABLE)
    && (c.writer.SuccessRecovery? ==> c.basis.status == STATUS_CIRCUIT_OPEN)
    && (c.writer.Other? ==>
          c.written.status == if FieldStatus in c.writer.fields then c.writer.change.status else c.replaced.status)
    && (!c.writer.Other? ==> StatusOnly(c.replaced, c.written))
    && (!c.writer.Other? && !c.retry ==>
          && (c.writer.FailureTrip? || c.writer.SuccessRecovery? ==> c.written.cooldownUntil == c.basis.cooldownUntil)
          && (c.writer.FailureCooldown? || c.writer.QuotaCallback? ==>
                c.written.circuitOpenUntil == c.basis.circuitOpenUntil))
  }

  ghost predicate PhaseAsks(ph: Phase) {
    match ph
    case LostRace(w, wanted) => Asks(w, wanted) && (w.FailureCooldown? || w.FailureTrip?)
    case HasReread(w, wanted, _, _) => Asks(w, wanted) && (w.FailureCooldown? || w.FailureTrip?)
    case _ => true
  }

  ghost predicate AllServe(s: State) {
    && (forall i :: 0 <= i < |s.log| ==> Serves(s.log[i]))
    && (forall q :: q in s.procs ==> PhaseAsks(s.procs[q]))
  }

  /**
   Over every run, each commit serves its writer: a cooldown cools until the time it was given, a trip opens the
   circuit, a recovery closes one, a retry asks for what its first attempt asked for, and none of them touches another
   field.
   */
  lemma {:induction false} CommitsServe(initial: Account, acts: seq<Action>)
    ensures AllServe(Run(Start(initial), acts))
  {
    if acts != [] {
      var s, act := Run(Start(initial), acts[..|acts| - 1]), acts[|acts| - 1];
      CommitsServe(initial, acts[..|acts| - 1]);
      StepServes(s, act);
    }
  }

  lemma StepServes(s: State, act: Action)
    requires AllServe(s)
    ensures AllServe(Step(s, act))
  {
    if act.TryCommit? {
      var ph := PhaseOf(s, act.p);
      match ph {
        case HasRead(w, copy, since) =>
          if Compute(w, copy).Some? {
            CommitServes(s, act.p, w, false, copy, since, Compute(w, copy).value, act.time);
          }
        case HasReread(w, wanted, copy, since) =>
          assert PhaseAsks(s.procs[act.p]);
          CommitServes(s, act.p, w, true, copy, since, Merged(copy, wanted), act.time);
        case _ =>
      }
    } else {
      assert Step(s, act).log == s.log;
      forall q | q in Step(s, act).procs
        ensures PhaseAsks(Step(s, act).procs[q])
      {
        assert q in s.procs ==> PhaseAsks(s.procs[q]);
      }
    }
  }

  lemma CommitServes(s: State, p: nat, w: Writer, retry: bool, copy: Account, since: Moment, wanted: Account,
                     time: int)
    requires AllServe(s) && Asks(w, wanted)
    requires !retry ==> Compute(w, copy) == Some(wanted)
    requires retry ==> w.FailureCooldown? || w.FailureTrip?
    ensures AllServe(CommitIf(s, p, w, retry, copy, since, wanted, time))
  {
    var s' := CommitIf(s, p, w, retry, copy, since, wanted, time);
    if s.account.version == copy.version {
      var c := s'.log[|s.log|];
      assert c.replaced == s.account && c.basis == copy && c.writer == w;
      assert c.written == Updated(s.account, wanted, w.Fields(), time);
      assert Serves(c);
    }
    forall q | q in s'.procs
      ensures PhaseAsks(s'.procs[q])
    {
      assert q in s.procs ==> PhaseAsks(s.procs[q]);
    }
  }

  /** A write is waiting: the writer has a copy and something to store. */
  ghost predicate Pending(ph: Phase) {
    (ph.HasRead? && Compute(ph.writer, ph.copy).Some?) || ph.HasReread?
  }

  /** The step commits a write. */
  ghost predicate Commits(s: State, p: nat, time: int) {
    |Step(s, TryCommit(p, time)).log| > |s.log|
  }

  /**
   A waiting write of the current lifetime goes through exactly when nobody has committed since its copy was read; one
   of an earlier lifetime exactly when its version is 1 plus the commits since the account was recreated.
   */
  lemma CommitsIff(initial: Account, acts: seq<Action>, p: nat, time: int)
    requires Pending(PhaseOf(Run(Start(initial), acts), p))
    ensures var s := Run(Start(initial), acts);
            var ph := PhaseOf(s, p);
            Commits(s, p, time) <==>
              if ph.since.life == s.now.life then ph.since.commits == s.now.commits
              else ph.copy.version == 1 + s.now.commits
    ensures var s := Run(Start(initial), acts);
            var ph := PhaseOf(s, p);
            ph.since.life == s.now.life && Commits(s, p, time) ==> ph.copy == s.account
  {
    RunKeepsInv(initial, acts);
    var s := Run(Start(initial), acts);
    assert PhaseFits(initial, s, s.procs[p]);
  }

  /**
   The first attempt of a failure report has no guard: with a copy of the current lifetime it replaces a settled status
   exactly when the status it read is settled and nobody has committed since; with a copy of an earlier one exactly when
   the status is settled by now and the versions happen to agree.
   */
  lemma FirstAttemptReplacesSettledIff(initial: Account, acts: seq<Action>, p: nat, time: int)
    requires var ph := PhaseOf(Run(Start(initial), acts), p); ph.HasRead? && ph.writer.ReportsFailure()
    ensures var s := Run(Start(initial), acts);
            var ph := PhaseOf(s, p);
            var settled := {STATUS_BANNED, STATUS_INVALIDATED, STATUS_DISABLED, STATUS_CIRCUIT_OPEN};
            (Commits(s, p, time) && s.account.status in settled) <==>
            if ph.since.life == s.now.life then ph.copy.status in settled && ph.since == s.now
            else s.account.status in settled && ph.copy.version == 1 + s.now.commits
  {
    CommitsIff(initial, acts, p, time);
  }

  lemma BannedAccountGetsCooled(a: Account, until: Option<int>, time: int)
    requires a.status == STATUS_BANNED
    ensures Run(Start(a), [Begin(0, FailureCooldown(until)), TryCommit(0, time)]).account.status == STATUS_COOLING_DOWN
  {
    var acts := [Begin(0, FailureCooldown(until)), TryCommit(0, time)];
    assert acts[..1] == [Begin(0, FailureCooldown(until))] && acts[..1][..0] == [];
    assert Run(Start(a), acts[..1]) == Step(Start(a), acts[0]);
  }

  /** Versions start over when an account is recreated, so across lifetimes a stale copy can be committed. */
  lemma StaleCopyAcrossLifetimes(a: Account, b: Account, time: int)
    requires a.version == 1 && a.status == STATUS_AVAILABLE && b.id == a.id && b.status == STATUS_BANNED
    ensures var s := Run(Start(a), [Begin(0, QuotaCallback(None)), Recreate(b, time), TryCommit(0, time)]);
            && |s.log| == 1 && s.log[0].writer.QuotaCallback? && !s.log[0].SameLife()
            && s.log[0].replaced.status == STATUS_BANNED && s.log[0].basis != s.log[0].replaced
            && s.account.status == STATUS_COOLING_DOWN
  {
    var acts := [Begin(0, QuotaCallback(None)), Recreate(b, time), TryCommit(0, time)];
    assert acts[..2][..1] == [acts[0]] && acts[..2][1] == acts[1] && [acts[0]][..0] == [];
    assert Run(Start(a), [acts[0]]) == Step(Start(a), acts[0]);
    assert Run(Start(a), acts[..2]) == Step(Step(Start(a), acts[0]), acts[1]);
  }
}
