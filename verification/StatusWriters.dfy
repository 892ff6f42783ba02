/** Many writers of one claim's status: each reads the claim, computes the new list, and writes it back
    under the version it read. Between two steps of a writer anything may happen to the claim. */
module StatusWriters {
  import opened Text
  import opened Protocol
  import opened DeviceStatus

  datatype Claim = Claim(uid: string, version: nat, generation: int, devices: seq<Status>)

  /** A removal belongs to the release of one claim UID, but does not look at it. */
  datatype Job = Tell(report: Report) | Forget(driver: string, meant: string)

  /** A conflict is retried while tries remain. */
  datatype Writer =
    | Reading(key: ClaimKey, job: Job, tries: nat)
    | Writing(key: ClaimKey, job: Job, tries: nat, read: Claim, now: nat)

  const TRIES := 4

  /** `log` has the successful writes to each claim, in the order in which they took effect. */
  datatype Server = Server(claims: map<ClaimKey, Claim>, nextVersion: nat, writers: map<nat, Writer>, log: map<string, seq<Op>>)

  datatype Step =
    | ClaimAdded(key: ClaimKey, uid: string, generation: int)
    | ClaimRemoved(key: ClaimKey)
    | ClaimEdited(key: ClaimKey, generation: int)
    | Start(writer: nat, key: ClaimKey, job: Job)
    | Read(writer: nat, now: nat)
    | Write(writer: nat, answered: bool)
    | Quit(writer: nat)

  /** The write that the writer makes of what it read. */
  function OpOf(w: Writer): Op
    requires w.Writing?
  {
    match w.job
    case Tell(report) => Put(report, w.read.generation, w.now)
    case Forget(driver, _) => Clear(driver)
  }

  /** A report is for one claim UID; a removal is not, but is skipped when there is nothing to remove. */
  predicate GoesOn(job: Job, claim: Claim) {
    match job
    case Tell(report) => claim.uid == report.uid
    case Forget(driver, _) => |Without(claim.devices, driver)| != |claim.devices|
  }

  predicate Enabled(s: Server, step: Step) {
    match step
    case ClaimAdded(key, uid, _) => key !in s.claims && uid !in s.log
    case ClaimRemoved(key) => key in s.claims
    case ClaimEdited(key, _) => key in s.claims
    case Start(writer, _, _) => writer !in s.writers
    case Read(writer, _) => writer in s.writers && s.writers[writer].Reading?
    case Write(writer, _) => writer in s.writers && s.writers[writer].Writing?
    case Quit(writer) => writer in s.writers
  }

  /** The version the writer read is still the current one. */
  predicate Commits(s: Server, writer: nat)
    requires writer in s.writers && s.writers[writer].Writing?
  {
    var w := s.writers[writer];
    w.key in s.claims && s.claims[w.key].version == w.read.version
  }

  function WriteBack(s: Server, writer: nat, answered: bool): Server
    requires writer in s.writers && s.writers[writer].Writing?
  {
    var w := s.writers[writer];
    if !Commits(s, writer) then
      if answered && w.key in s.claims && w.tries > 1 then
        s.(writers := s.writers[writer := Reading(w.key, w.job, w.tries - 1)])
      else
        s.(writers := s.writers - {writer})
    else
      var uid := s.claims[w.key].uid;
      s.(claims := s.claims[w.key := s.claims[w.key].(version := s.nextVersion, devices := Apply(OpOf(w), w.read.devices))],
         nextVersion := s.nextVersion + 1,
         writers := s.writers - {writer},
         log := s.log[uid := LogOf(s, uid) + [OpOf(w)]])
  }

  function LogOf(s: Server, uid: string): seq<Op> {
    if uid in s.log then s.log[uid] else []
  }

  function Next(s: Server, step: Step): Server
    requires Enabled(s, step)
  {
    match step
    case ClaimAdded(key, uid, generation) =>
      s.(claims := s.claims[key := Claim(uid, s.nextVersion, generation, [])], nextVersion := s.nextVersion + 1, log := s.log[uid := []])
    case ClaimRemoved(key) => s.(claims := s.claims - {key})
    case ClaimEdited(key, generation) =>
      s.(claims := s.claims[key := s.claims[key].(version := s.nextVersion, generation := generation)], nextVersion := s.nextVersion + 1)
    case Start(writer, key, job) => s.(writers := s.writers[writer := Reading(key, job, TRIES)])
    case Read(writer, now) =>
      var w := s.writers[writer];
      if w.key in s.claims && GoesOn(w.job, s.claims[w.key]) then
        s.(writers := s.writers[writer := Writing(w.key, w.job, w.tries, s.claims[w.key], now)])
      else
        s.(writers := s.writers - {writer})
    case Write(writer, answered) => WriteBack(s, writer, answered)
    case Quit(writer) => s.(writers := s.writers - {writer})
  }

  ghost predicate IsRun(states: seq<Server>, steps: seq<Step>) {
    && |states| == |steps| + 1
    && states[0].claims == map[] && states[0].writers == map[] && states[0].log == map[]
    && forall i :: 0 <= i < |steps| ==> Enabled(states[i], steps[i]) && states[i + 1] == Next(states[i], steps[i])
  }

  // ---------------------------------------------------------------- invariant

  /** The claim is what its log says. */
  ghost predicate ClaimOk(s: Server, claim: Claim) {
    claim.version < s.nextVersion && claim.uid in s.log && claim.devices == Fold(s.log[claim.uid])
  }

  /** What was read under the current version is current. */
  ghost predicate WriterOk(s: Server, w: Writer) {
    w.Writing? ==>
      && w.read.version < s.nextVersion
      && (w.key in s.claims && s.claims[w.key].version == w.read.version ==> s.claims[w.key] == w.read)
      && (w.job.Tell? ==> w.read.uid == w.job.report.uid)
  }

  ghost predicate UidsDistinct(claims: map<ClaimKey, Claim>) {
    forall k, l :: k in claims && l in claims && claims[k].uid == claims[l].uid ==> k == l
  }

  ghost predicate PutsForOwner(uid: string, ops: seq<Op>) {
    forall i :: 0 <= i < |ops| && ops[i].Put? ==> ops[i].report.uid == uid
  }

  ghost predicate Inv(s: Server) {
    && (forall k :: k in s.claims ==> ClaimOk(s, s.claims[k]))
    && (forall t :: t in s.writers ==> WriterOk(s, s.writers[t]))
    && UidsDistinct(s.claims)
    && (forall uid :: uid in s.log ==> PutsForOwner(uid, s.log[uid]))
  }

  lemma WriteKeepsClaims(s: Server, writer: nat, answered: bool, k: ClaimKey)
    requires Inv(s) && Enabled(s, Write(writer, answered)) && Commits(s, writer) && k in s.claims
    ensures var s' := WriteBack(s, writer, answered);
            ClaimOk(s', s'.claims[k])
  {
  }

  lemma WriteKeepsLog(s: Server, writer: nat, answered: bool, uid: string)
    requires Inv(s) && Enabled(s, Write(writer, answered)) && Commits(s, writer)
    ensures var s' := WriteBack(s, writer, answered);
            uid in s'.log ==> PutsForOwner(uid, s'.log[uid])
  {
  }

  lemma WriteKeeps(s: Server, writer: nat, answered: bool)
    requires Inv(s) && Enabled(s, Write(writer, answered)) && Commits(s, writer)
    ensures Inv(WriteBack(s, writer, answered))
  {
    var s' := WriteBack(s, writer, answered);
    forall k | k in s'.claims
      ensures ClaimOk(s', s'.claims[k])
    {
      WriteKeepsClaims(s, writer, answered, k);
    }
    forall t | t in s'.writers
      ensures WriterOk(s', s'.writers[t])
    {
      WriteKeepsWriter(s, writer, answered, t);
    }
    WriteKeepsUids(s, writer, answered);
    forall uid | uid in s'.log
      ensures PutsForOwner(uid, s'.log[uid])
    {
      WriteKeepsLog(s, writer, answered, uid);
    }
  }

  lemma WriteKeepsWriter(s: Server, writer: nat, answered: bool, t: nat)
    requires Inv(s) && Enabled(s, Write(writer, answered)) && Commits(s, writer)
    requires t in WriteBack(s, writer, answered).writers
    ensures var s' := WriteBack(s, writer, answered); WriterOk(s', s'.writers[t])
  {
    assert WriterOk(s, s.writers[t]);
  }

  lemma WriteKeepsUids(s: Server, writer: nat, answered: bool)
    requires Inv(s) && Enabled(s, Write(writer, answered)) && Commits(s, writer)
    ensures UidsDistinct(WriteBack(s, writer, answered).claims)
  {
    var s' := WriteBack(s, writer, answered);
    assert forall k :: k in s'.claims ==> k in s.claims && s'.claims[k].uid == s.claims[k].uid;
  }

  lemma StepKeepsClaim(s: Server, step: Step, k: ClaimKey)
    requires Inv(s) && Enabled(s, step) && k in Next(s, step).claims && !(step.Write? && Commits(s, step.writer))
    ensures ClaimOk(Next(s, step), Next(s, step).claims[k])
  {
  }

  lemma StepKeepsWriter(s: Server, step: Step, t: nat)
    requires Inv(s) && Enabled(s, step) && t in Next(s, step).writers && !(step.Write? && Commits(s, step.writer))
    ensures WriterOk(Next(s, step), Next(s, step).writers[t])
  {
  }

  lemma StepKeeps(s: Server, step: Step)
    requires Inv(s) && Enabled(s, step)
    ensures Inv(Next(s, step))
  {
    if step.Write? && Commits(s, step.writer) {
      WriteKeeps(s, step.writer, step.answered);
    } else {
      var s' := Next(s, step);
      forall k | k in s'.claims
        ensures ClaimOk(s', s'.claims[k])
      {
        StepKeepsClaim(s, step, k);
      }
      forall t | t in s'.writers
        ensures WriterOk(s', s'.writers[t])
      {
        StepKeepsWriter(s, step, t);
      }
      assert forall k :: k in s.claims ==> ClaimOk(s, s.claims[k]);
    }
  }

  lemma {:induction false} RunKeeps(states: seq<Server>, steps: seq<Step>, i: nat)
    requires IsRun(states, steps) && i < |states|
    ensures Inv(states[i])
    decreases i
  {
    if i > 0 {
      RunKeeps(states, steps, i - 1);
      StepKeeps(states[i - 1], steps[i - 1]);
    }
  }

  // ---------------------------------------------------------------- theorems

  /** In every reachable state the list is the successful writes to that claim, one at a time in the order
      they took effect; its keys are distinct, each driver's entries are what its own writes made of them,
      and no report meant for another claim is among them. */
  lemma ListIsItsWrites(states: seq<Server>, steps: seq<Step>, i: nat, key: ClaimKey, driver: string)
    requires IsRun(states, steps) && i < |states| && key in states[i].claims
    ensures var claim := states[i].claims[key];
            && claim.uid in states[i].log
            && var ops := states[i].log[claim.uid];
               && claim.devices == Fold(ops) && KeysDistinct(claim.devices)
               && OfDriver(claim.devices, driver) == Fold(OpsOf(ops, driver))
               && PutsForOwner(claim.uid, ops)
  {
    RunKeeps(states, steps, i);
    assert ClaimOk(states[i], states[i].claims[key]);
    var ops := states[i].log[states[i].claims[key].uid];
    FoldDistinct(ops);
    DriversApart(ops, driver);
  }

  lemma StepLogGrows(s: Server, step: Step, uid: string)
    requires Enabled(s, step)
    ensures LogOf(s, uid) <= LogOf(Next(s, step), uid)
    ensures LogOf(s, uid) < LogOf(Next(s, step), uid) ==> step.Write? && Commits(s, step.writer)
    ensures uid in s.log ==> uid in Next(s, step).log
  {
  }

  /** The log only grows, and only by writers that commit. */
  lemma {:induction false} LogGrows(states: seq<Server>, steps: seq<Step>, i: nat, j: nat, uid: string)
    requires IsRun(states, steps) && i <= j < |states|
    ensures LogOf(states[i], uid) <= LogOf(states[j], uid)
    ensures uid in states[i].log ==> uid in states[j].log
    decreases j
  {
    if i < j {
      LogGrows(states, steps, i, j - 1, uid);
      StepLogGrows(states[j - 1], steps[j - 1], uid);
    }
  }

  /** A write that commits is the next in the log, although the writer computed the list from what it had read. */
  lemma CommitIsLogged(states: seq<Server>, steps: seq<Step>, i: nat, kind: string)
    requires IsRun(states, steps) && i < |steps| && steps[i].Write? && Commits(states[i], steps[i].writer)
    ensures var w, key := states[i].writers[steps[i].writer], states[i].writers[steps[i].writer].key;
            var claim, claim' := states[i].claims[key], states[i + 1].claims[key];
            && claim'.devices == Apply(OpOf(w), claim.devices) && claim'.uid == claim.uid
            && LogOf(states[i + 1], claim.uid) == LogOf(states[i], claim.uid) + [OpOf(w)]
            && (w.job.Tell? ==>
                  claim.uid == w.job.report.uid
                  && DeviceStatus.Reported(claim.devices, claim'.devices, w.job.report, claim.generation, w.now, kind))
            && forall other :: other in states[i].claims && other != key ==> states[i + 1].claims[other] == states[i].claims[other]
  {
    RunKeeps(states, steps, i);
    var w := states[i].writers[steps[i].writer];
    assert WriterOk(states[i], w) && ClaimOk(states[i], states[i].claims[w.key]);
    if w.job.Tell? {
      PutKeepsConditions(w.read.devices, w.job.report, w.read.generation, w.now, kind);
    }
  }

  // ---------------------------------------------------------------- removals have no UID check

  /** A removal that commits hits the claim it was meant for exactly when that is the claim it read: what happens
      to the claim afterwards makes it conflict, what happened before goes unnoticed. Every entry of the driver goes. */
  lemma RemovalHitsWhatWasRead(states: seq<Server>, steps: seq<Step>, i: nat, key: DeviceKey)
    requires IsRun(states, steps) && i < |steps| && steps[i].Write? && Commits(states[i], steps[i].writer)
    requires states[i].writers[steps[i].writer].job.Forget?
    ensures var w := states[i].writers[steps[i].writer];
            && (states[i].claims[w.key].uid == w.job.meant <==> w.read.uid == w.job.meant)
            && DeviceStatus.Find(states[i + 1].claims[w.key].devices, key)
               == if key.driver == w.job.driver then None else DeviceStatus.Find(states[i].claims[w.key].devices, key)
  {
    RunKeeps(states, steps, i);
    var w := states[i].writers[steps[i].writer];
    assert WriterOk(states[i], w);
    WithoutFind(w.read.devices, w.job.driver, key);
  }

  ghost predicate RunsTo(states: seq<Server>, steps: seq<Step>, s: Server) {
    IsRun(states, steps) && states[|steps|] == s
  }

  lemma Take(states: seq<Server>, steps: seq<Step>, s: Server, step: Step, s': Server)
    requires RunsTo(states, steps, s) && Enabled(s, step) && s' == Next(s, step)
    ensures RunsTo(states + [s'], steps + [step], s')
  {
  }

  /** The old claim is deleted after its removal has begun, and another of the same name is created. */
  lemma Succession(key: ClaimKey, job: Job, meant: string, uid: string, s: Server) returns (states: seq<Server>, steps: seq<Step>)
    requires uid != meant
    requires s == Server(map[key := Claim(uid, 1, 0, [])], 2, map[0 := Reading(key, job, TRIES)], map[meant := [], uid := []])
    ensures RunsTo(states, steps, s)
  {
    var s0 := Server(map[], 0, map[], map[]);
    var s1 := s0.(claims := map[key := Claim(meant, 0, 0, [])], nextVersion := 1, log := map[meant := []]);
    var s2 := s1.(writers := map[0 := Reading(key, job, TRIES)]);
    states, steps := [s0], [];
    Take(states, steps, s0, ClaimAdded(key, meant, 0), s1);
    states, steps := states + [s1], steps + [ClaimAdded(key, meant, 0)];
    Take(states, steps, s1, Start(0, key, job), s2);
    states, steps := states + [s2], steps + [Start(0, key, job)];
    var s3 := s2.(claims := map[]);
    Take(states, steps, s2, ClaimRemoved(key), s3);
    states, steps := states + [s3], steps + [ClaimRemoved(key)];
    assert s == Next(s3, ClaimAdded(key, uid, 0));
    Take(states, steps, s3, ClaimAdded(key, uid, 0), s);
    states, steps := states + [s], steps + [ClaimAdded(key, uid, 0)];
  }

  /** The successor's device is reported. */
  lemma Reported(states: seq<Server>, steps: seq<Step>, s: Server, key: ClaimKey, job: Job, report: Report)
    returns (states': seq<Server>, steps': seq<Step>, s': Server)
    requires RunsTo(states, steps, s) && s.claims == map[key := Claim(report.uid, 1, 0, [])] && s.nextVersion == 2
    requires s.writers == map[0 := Reading(key, job, TRIES)]
    ensures RunsTo(states', steps', s') && s'.writers == s.writers
    ensures s'.claims == map[key := Claim(report.uid, 2, 0, [DeviceStatus.Entry([], report, 0, 0)])]
  {
    var s1 := s.(writers := s.writers[1 := Reading(key, Tell(report), TRIES)]);
    var s2 := s.(writers := s.writers[1 := Writing(key, Tell(report), TRIES, s.claims[key], 0)]);
    Take(states, steps, s, Start(1, key, Tell(report)), s1);
    states', steps' := states + [s1], steps + [Start(1, key, Tell(report))];
    Take(states', steps', s1, Read(1, 0), s2);
    states', steps' := states' + [s2], steps' + [Read(1, 0)];
    s' := Next(s2, Write(1, true));
    Take(states', steps', s2, Write(1, true), s');
    states', steps' := states' + [s'], steps' + [Write(1, true)];
  }

  /** A removal that belongs to a claim already deleted wipes the entries of its successor of the same name. */
  lemma RemovalHitsSuccessor(key: ClaimKey, report: Report, meant: string) returns (states: seq<Server>, steps: seq<Step>, s: Server)
    requires report.uid != meant
    ensures RunsTo(states, steps, s) && Enabled(s, Write(0, true)) && Commits(s, 0)
    ensures s.writers[0].job == Forget(report.key.driver, meant) && s.writers[0].key == key
    ensures s.claims[key].uid == report.uid && s.claims[key].devices == [DeviceStatus.Entry([], report, 0, 0)]
    ensures var after := Next(s, Write(0, true)).claims;
            key in after && after[key].uid == report.uid && after[key].devices == []
  {
    var job := Forget(report.key.driver, meant);
    var s4 := Server(map[key := Claim(report.uid, 1, 0, [])], 2, map[0 := Reading(key, job, TRIES)], map[meant := [], report.uid := []]);
    states, steps := Succession(key, job, meant, report.uid, s4);
    var s7;
    states, steps, s7 := Reported(states, steps, s4, key, job, report);
    var told := [DeviceStatus.Entry([], report, 0, 0)];
    assert told[1..] == [] && Without(told, report.key.driver) == [];
    s := Next(s7, Read(0, 0));
    Take(states, steps, s7, Read(0, 0), s);
    states, steps := states + [s], steps + [Read(0, 0)];
  }
}
