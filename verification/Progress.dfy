/** Healing gets done: a node with repair work always has a next step, and the work runs out. */
module Progress {
  import opened Chunks
  import opened Cluster
  import opened Lists
  import opened Placement
  import opened Preference
  import opened RingStates

  // ---------------------------------------------------------------------------------------------
  // How much is left to do
  // ---------------------------------------------------------------------------------------------

  ghost function Total(m: map<nat, nat>): nat
    decreases |m|
  {
    if m == map[] then 0 else
      var k :| k in m;
      m[k] + Total(m - {k})
  }

  lemma {:induction false} TotalRemove(m: map<nat, nat>, k: nat)
    requires k in m
    ensures Total(m) == m[k] + Total(m - {k})
    decreases |m|
  {
    var j :| j in m && Total(m) == m[j] + Total(m - {j});
    if j != k {
      TotalRemove(m - {j}, k);
      TotalRemove(m - {k}, j);
      assert m - {j} - {k} == m - {k} - {j};
    }
  }

  lemma TotalUpdate(m: map<nat, nat>, k: nat, v: nat)
    requires k in m
    ensures Total(m[k := v]) == Total(m) - m[k] + v
  {
    TotalRemove(m, k);
    TotalRemove(m[k := v], k);
    assert m[k := v] - {k} == m - {k};
  }

  function PassWeight(p: Pass): nat {
    match p case Waiting => 0 case Scanning(todo) => |todo| + 1
  }

  function PassWeights(passes: map<nat, Pass>): map<nat, nat> {
    map k | k in passes :: PassWeight(passes[k])
  }

  function PushWeights(pushes: map<nat, Push>): map<nat, nat> {
    map k | k in pushes :: |pushes[k].todo| + 1
  }

  function Unlisted(passes: map<nat, Pass>): set<nat> {
    set k | k in passes && passes[k].Waiting?
  }

  /** Work left at a node; each kind can only turn into the kinds after it. */
  datatype Work = Work(unlisted: nat, scans: nat, queued: nat, pushes: nat)

  ghost function WorkOf(nd: Node): Work {
    Work(|Unlisted(nd.passes)|, Total(PassWeights(nd.passes)), |nd.queue|, Total(PushWeights(nd.inFlight)))
  }

  ghost predicate LessWork(a: Work, b: Work) {
    || a.unlisted < b.unlisted
    || (a.unlisted == b.unlisted && a.scans < b.scans)
    || (a.unlisted == b.unlisted && a.scans == b.scans && a.queued < b.queued)
    || (a.unlisted == b.unlisted && a.scans == b.scans && a.queued == b.queued && a.pushes < b.pushes)
  }

  /** The work a node does on its own account, without anything new arriving. */
  predicate OwnWork(s: NodeId, step: Step) {
    step.node == s && (step.PushArrives? || step.act.TakeJob? || step.act.GiveUpPush? || step.act.EndJob?
                       || step.act.ListChunks? || step.act.RepairChunk? || step.act.EndPass? || step.act.ListFails?)
  }

  lemma SetLosesOne(a: set<nat>, b: set<nat>, k: nat)
    requires k in a && b == a - {k}
    ensures |b| == |a| - 1
  {}

  lemma PassListed(before: map<nat, Pass>, after: map<nat, Pass>, k: nat)
    requires k in before && before[k].Waiting?
    requires after == before - {k} || (exists ids :: after == before[k := Scanning(ids)])
    ensures |Unlisted(after)| < |Unlisted(before)|
  {
    SetLosesOne(Unlisted(before), Unlisted(after), k);
  }

  lemma PassEnded(before: map<nat, Pass>, k: nat)
    requires k in before && before[k].Scanning?
    ensures Unlisted(before - {k}) == Unlisted(before)
    ensures Total(PassWeights(before - {k})) < Total(PassWeights(before))
  {
    TotalRemove(PassWeights(before), k);
    assert PassWeights(before - {k}) == PassWeights(before) - {k};
  }

  lemma PassAdvanced(before: map<nat, Pass>, k: nat)
    requires k in before && before[k].Scanning? && before[k].todo != []
    ensures var after := before[k := Scanning(before[k].todo[1..])];
            Unlisted(after) == Unlisted(before) && Total(PassWeights(after)) < Total(PassWeights(before))
  {
    var fewer := Scanning(before[k].todo[1..]);
    TotalUpdate(PassWeights(before), k, PassWeight(fewer));
    assert PassWeights(before[k := fewer]) == PassWeights(before)[k := PassWeight(fewer)];
  }

  lemma PassWorkDecreases(cfg: Config, self: NodeId, nd: Node, a: Act)
    requires CanAct(self, nd, a) && (a.ListChunks? || a.ListFails? || a.RepairChunk? || a.EndPass?)
    ensures LessWork(WorkOf(Acted(cfg, self, nd, a)), WorkOf(nd))
  {
    if a.ListChunks? || a.ListFails? {
      PassListed(nd.passes, Acted(cfg, self, nd, a).passes, a.k);
    } else if a.EndPass? {
      PassEnded(nd.passes, a.k);
    } else {
      PassAdvanced(nd.passes, a.k);
    }
  }

  lemma PushWorkDecreases(nd: Node, nd': Node, k: nat)
    requires k in nd.inFlight && nd'.passes == nd.passes && nd'.queue == nd.queue
    requires nd'.inFlight == nd.inFlight - {k}
             || (nd.inFlight[k].todo != []
                 && nd'.inFlight == nd.inFlight[k := nd.inFlight[k].(todo := nd.inFlight[k].todo[1..])])
    ensures LessWork(WorkOf(nd'), WorkOf(nd))
  {
    var before, after := PushWeights(nd.inFlight), PushWeights(nd'.inFlight);
    if nd'.inFlight == nd.inFlight - {k} {
      TotalRemove(before, k);
      assert after == before - {k};
    } else {
      TotalUpdate(before, k, |nd.inFlight[k].todo|);
      assert after == before[k := |nd.inFlight[k].todo|];
    }
  }

  /** Every step of a node's own work leaves it with less to do, whichever it is. */
  lemma OwnWorkDecreases(cfg: Config, sys: System, step: Step, s: NodeId)
    requires Enabled(cfg, sys, step) && OwnWork(s, step)
    ensures LessWork(WorkOf(Next(cfg, sys, step)[s]), WorkOf(sys[s]))
  {
    if step.PushArrives? {
      PushWorkDecreases(sys[s], Next(cfg, sys, step)[s], step.k);
    } else if step.act.GiveUpPush? || step.act.EndJob? {
      PushWorkDecreases(sys[s], Acted(cfg, s, sys[s], step.act), step.act.k);
    } else if !step.act.TakeJob? {
      PassWorkDecreases(cfg, s, sys[s], step.act);
    }
  }

  // ---------------------------------------------------------------------------------------------
  // There is always a next step
  // ---------------------------------------------------------------------------------------------

  /** Nodes it has to do with exist or are known to be gone, and what it has listed is still there. */
  ghost predicate Sound(sys: System, s: NodeId, gone: set<NodeId>) {
    && s in sys && sys[s].ring <= sys.Keys + gone
    && (forall k, t | k in sys[s].inFlight && t in sys[s].inFlight[k].todo :: t in sys || t in gone)
    && (forall k, id | k in sys[s].passes && sys[s].passes[k].Scanning? && id in sys[s].passes[k].todo :: id in sys[s].store)
  }

  predicate Finished(nd: Node) {
    nd.passes == map[] && nd.queue == [] && nd.inFlight == map[]
  }

  lemma Listed(ids: set<ChunkId>) returns (list: seq<ChunkId>)
    ensures NoDuplicates(list) && Elements(list) == ids
    decreases |ids|
  {
    hide NoDuplicates, Elements;
    if ids == {} {
      list := [];
      NothingListed();
    } else {
      var id :| id in ids;
      var rest := Listed(ids - {id});
      list := [id] + rest;
      ElementsCons(id, rest);
      assert {id} + (ids - {id}) == ids;
    }
  }

  lemma NothingListed()
    ensures Elements<ChunkId>([]) == {} && NoDuplicates<ChunkId>([])
  {}

  lemma PushStep(cfg: Config, sys: System, s: NodeId, id: ChunkId, gone: set<NodeId>, k: nat) returns (step: Step)
    requires Sound(sys, s, gone) && Honest(cfg, sys[s]) && k in sys[s].inFlight
    ensures Enabled(cfg, sys, step) && Smooth(sys, s, id, gone, step) && OwnWork(s, step)
    ensures step == PushArrives(s, k) || step == Acts(s, GiveUpPush(k)) || step == Acts(s, EndJob(k))
  {
    var push := sys[s].inFlight[k];
    assert HonestJob(cfg, push.job);
    if push.todo == [] {
      step := Acts(s, EndJob(k));
    } else if push.todo[0] in sys {
      step := PushArrives(s, k);
    } else {
      step := Acts(s, GiveUpPush(k));
      assert push.todo[0] in push.todo;
    }
  }

  lemma PassStep(cfg: Config, sys: System, s: NodeId, id: ChunkId, gone: set<NodeId>, k: nat) returns (step: Step)
    requires Sound(sys, s, gone) && k in sys[s].passes && sys[s].queue == []
    ensures Enabled(cfg, sys, step) && Smooth(sys, s, id, gone, step) && OwnWork(s, step)
    ensures step.Acts? && (step.act.ListChunks? || step.act.RepairChunk? || step.act.EndPass?)
  {
    var pass := sys[s].passes[k];
    if pass.Waiting? {
      var ids := Listed(sys[s].store.Keys);
      step := Acts(s, ListChunks(k, ids));
    } else if pass.todo == [] {
      step := Acts(s, EndPass(k));
    } else {
      assert pass.todo[0] in pass.todo;
      step := Acts(s, RepairChunk(k, Owners(cfg, sys[s], pass.todo[0]), true));
    }
  }

  /** A node that has not finished can go on, without doing anything that healing forbids. */
  lemma NeverStuck(cfg: Config, sys: System, s: NodeId, id: ChunkId, gone: set<NodeId>) returns (step: Step)
    requires Sound(sys, s, gone) && Honest(cfg, sys[s]) && !Finished(sys[s])
    ensures Enabled(cfg, sys, step) && Smooth(sys, s, id, gone, step) && OwnWork(s, step)
    ensures Sound(Next(cfg, sys, step), s, gone)
  {
    if sys[s].inFlight != map[] {
      var k :| k in sys[s].inFlight;
      step := PushStep(cfg, sys, s, id, gone, k);
      PushStepSound(cfg, sys, s, gone, k, step);
    } else if sys[s].queue != [] {
      var owners := Owners(cfg, sys[s], sys[s].queue[0].chunkID);
      step := Acts(s, TakeJob(0, owners));
      TakeJobSound(cfg, sys, s, gone, owners);
    } else {
      var k :| k in sys[s].passes;
      step := PassStep(cfg, sys, s, id, gone, k);
      PassStepSound(cfg, sys, s, gone, step);
    }
  }

  lemma TailMembers<T>(s: seq<T>)
    requires s != []
    ensures forall x | x in s[1..] :: x in s
  {}

  lemma PushStepSound(cfg: Config, sys: System, s: NodeId, gone: set<NodeId>, k: nat, step: Step)
    requires Sound(sys, s, gone) && Enabled(cfg, sys, step)
    requires step == PushArrives(s, k) || step == Acts(s, GiveUpPush(k)) || step == Acts(s, EndJob(k))
    ensures Sound(Next(cfg, sys, step), s, gone)
  {
    var sys' := Next(cfg, sys, step);
    assert sys'.Keys == sys.Keys;
    assert sys'[s].passes == sys[s].passes && sys'[s].ring == sys[s].ring;
    assert forall id | id in sys[s].store :: id in sys'[s].store;
    if sys[s].inFlight[k].todo != [] {
      TailMembers(sys[s].inFlight[k].todo);
    }
  }

  lemma {:induction false} DeleteMembers(list: seq<NodeId>, x: NodeId)
    ensures forall t | t in Delete(list, x) :: t in list
  {
    if list != [] {
      DeleteMembers(list[1..], x);
    }
  }

  lemma TakeJobSound(cfg: Config, sys: System, s: NodeId, gone: set<NodeId>, owners: seq<NodeId>)
    requires Sound(sys, s, gone) && Enabled(cfg, sys, Acts(s, TakeJob(0, owners)))
    ensures Sound(Next(cfg, sys, Acts(s, TakeJob(0, owners))), s, gone)
  {
    TargetsOnRing(cfg.hk, sys[s].ring, sys[s].queue[0].chunkID, FACTOR);
    DeleteMembers(owners, s);
  }

  lemma PassStepSound(cfg: Config, sys: System, s: NodeId, gone: set<NodeId>, step: Step)
    requires Sound(sys, s, gone) && Enabled(cfg, sys, step) && step.node == s && step.Acts?
    requires step.act.ListChunks? || step.act.RepairChunk? || step.act.EndPass?
    ensures Sound(Next(cfg, sys, step), s, gone)
  {
    var sys' := Next(cfg, sys, step);
    assert sys'.Keys == sys.Keys;
    assert sys'[s].inFlight == sys[s].inFlight && sys'[s].ring == sys[s].ring && sys'[s].store == sys[s].store;
    var a := step.act;
    if a.ListChunks? {
      assert forall id :: id in a.ids <==> id in Elements(a.ids);
    } else if a.RepairChunk? {
      TailMembers(sys[s].passes[a.k].todo);
    }
  }

  // ---------------------------------------------------------------------------------------------
  // Healing completes
  // ---------------------------------------------------------------------------------------------

  lemma RunCons(cfg: Config, sys: System, step: Step, rest: seq<Step>, end: System, s: NodeId, id: ChunkId, gone: set<NodeId>)
    returns (steps: seq<Step>)
    requires Enabled(cfg, sys, step) && Smooth(sys, s, id, gone, step)
    requires Run(cfg, Next(cfg, sys, step), rest, end) && SmoothRun(cfg, Next(cfg, sys, step), rest, s, id, gone)
    ensures Run(cfg, sys, steps, end) && SmoothRun(cfg, sys, steps, s, id, gone) && steps == [step] + rest
  {
    steps := [step] + rest;
    assert steps[1..] == rest;
  }

  lemma OwnWorkKeepsRing(cfg: Config, sys: System, step: Step, s: NodeId)
    requires Enabled(cfg, sys, step) && OwnWork(s, step)
    ensures Next(cfg, sys, step)[s].ring == sys[s].ring
  {
    if step.Acts? {
      OwnActKeepsRing(cfg, s, sys[s], step.act);
    }
  }

  lemma OwnActKeepsRing(cfg: Config, self: NodeId, nd: Node, a: Act)
    requires CanAct(self, nd, a) && !a.NodeDies? && !a.NodeReturns? && !a.Restart?
    ensures Acted(cfg, self, nd, a).ring == nd.ring
  {
    hide Pieces, Numbered, ManifestOf, Delete;
  }

  /** Every step is work of this node on its own account. */
  ghost predicate OwnRun(s: NodeId, steps: seq<Step>) {
    forall i | 0 <= i < |steps| :: OwnWork(s, steps[i])
  }

  /** Whatever the node has in hand, it can finish it by steps of its own, none of which healing forbids. */
  lemma {:induction false} WorkCompletes(cfg: Config, sys: System, s: NodeId, id: ChunkId, gone: set<NodeId>)
    returns (steps: seq<Step>, end: System)
    requires Sound(sys, s, gone) && AllHonest(cfg, sys)
    ensures Run(cfg, sys, steps, end) && SmoothRun(cfg, sys, steps, s, id, gone) && OwnRun(s, steps)
    ensures s in end && Finished(end[s]) && end[s].ring == sys[s].ring
    decreases WorkOf(sys[s]).unlisted, WorkOf(sys[s]).scans, WorkOf(sys[s]).queued, WorkOf(sys[s]).pushes
  {
    if Finished(sys[s]) {
      steps, end := [], sys;
    } else {
      var step := OwnStep(cfg, sys, s, id, gone);
      var rest;
      rest, end := WorkCompletes(cfg, Next(cfg, sys, step), s, id, gone);
      steps := RunCons(cfg, sys, step, rest, end, s, id, gone);
      OwnRunCons(s, step, rest);
    }
  }

  /** One step forward. */
  lemma OwnStep(cfg: Config, sys: System, s: NodeId, id: ChunkId, gone: set<NodeId>) returns (step: Step)
    requires Sound(sys, s, gone) && AllHonest(cfg, sys) && !Finished(sys[s])
    ensures Enabled(cfg, sys, step) && Smooth(sys, s, id, gone, step) && OwnWork(s, step)
    ensures var sys' := Next(cfg, sys, step);
            && Sound(sys', s, gone) && AllHonest(cfg, sys') && sys'[s].ring == sys[s].ring
            && LessWork(WorkOf(sys'[s]), WorkOf(sys[s]))
  {
    assert Honest(cfg, sys[s]);
    step := NeverStuck(cfg, sys, s, id, gone);
    OwnWorkDecreases(cfg, sys, step, s);
    OwnWorkKeepsRing(cfg, sys, step, s);
    NextHonest(cfg, sys, step);
  }

  lemma OwnRunCons(s: NodeId, step: Step, rest: seq<Step>)
    requires OwnWork(s, step) && OwnRun(s, rest)
    ensures OwnRun(s, [step] + rest)
  {
    forall i | 0 <= i < |[step] + rest| ensures OwnWork(s, ([step] + rest)[i]) {
      assert ([step] + rest)[i] == if i == 0 then step else rest[i - 1];
    }
  }

  /** When it has finished, a chunk in its care is on all the nodes responsible for it, those in `gone` apart. */
  lemma HealingCompletes(cfg: Config, sys: System, s: NodeId, id: ChunkId, gone: set<NodeId>)
    returns (steps: seq<Step>, end: System)
    requires Cared(cfg, sys, s, id, gone) && Sound(sys, s, gone) && AllHonest(cfg, sys)
    ensures Run(cfg, sys, steps, end) && SmoothRun(cfg, sys, steps, s, id, gone)
    ensures s in end && end[s].passes == map[] && end[s].queue == [] && end[s].inFlight == map[]
    ensures end[s].ring == sys[s].ring
    ensures forall t | t in Targets(cfg.hk, end[s].ring, id, 3) && t !in gone :: t in end && id in end[t].store
  {
    hide Targets, CollisionFree;
    steps, end := WorkCompletes(cfg, sys, s, id, gone);
    RunKeepsCare(cfg, sys, steps, end, s, id, gone);
    FinishedIsReplicated(cfg, end, s, id, gone);
  }

  lemma FinishedIsReplicated(cfg: Config, end: System, s: NodeId, id: ChunkId, gone: set<NodeId>)
    requires Cared(cfg, end, s, id, gone) && Finished(end[s])
    ensures Replicated(cfg, end, s, id, gone)
  {
    assert !PassCovers(end[s], id) && !QueueCovers(end[s], id) && !PushCovers(cfg, end, s, id, gone);
  }
}
