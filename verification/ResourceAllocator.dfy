/** The compute resource allocator: commitments against the free resources of each node. */
module ResourceAllocator {
  import opened Common
  import opened Decimal
  import opened Hashing
  import opened MapSums

  const ID_SIZE: nat := 32

  datatype ComputeTask = ComputeTask(requiredComputeUnits: uint64, timeoutSeconds: uint64, circuitIdentifier: string)

  datatype Commitment = Commitment(
    commitmentId: string, nodeId: string, cpuCores: uint64, memoryMb: uint64, gpu: bool, durationSeconds: uint64)

  datatype NodeStatus = NodeStatus(
    nodeId: string, cpuCores: uint64, memoryMb: uint64, gpuAvailable: bool, activeTasks: uint64, utilization: real)

  datatype State = State(commitments: map<string, Commitment>, nodes: map<string, NodeStatus>)

  function RequiredCpu(task: ComputeTask): uint64 {
    task.requiredComputeUnits / 1000
  }

  function RequiredMemory(task: ComputeTask): uint64 {
    task.requiredComputeUnits / 10
  }

  predicate Available(s: State, task: ComputeTask, nodeId: string) {
    && nodeId in s.nodes
    && s.nodes[nodeId].cpuCores >= RequiredCpu(task)
    && s.nodes[nodeId].memoryMb >= RequiredMemory(task)
    && (task.circuitIdentifier != "" || s.nodes[nodeId].gpuAvailable)
  }

  function WithTasks(status: NodeStatus, cpu: int, memory: int, tasks: int): NodeStatus {
    var active := Wrap(tasks);
    status.(cpuCores := Wrap(cpu), memoryMb := Wrap(memory), activeTasks := active, utilization := active as real / 8.0)
  }

  function Taken(status: NodeStatus, c: Commitment): NodeStatus {
    WithTasks(status, status.cpuCores - c.cpuCores, status.memoryMb - c.memoryMb, status.activeTasks + 1)
  }

  function Returned(status: NodeStatus, c: Commitment): NodeStatus {
    WithTasks(status, status.cpuCores + c.cpuCores, status.memoryMb + c.memoryMb, status.activeTasks - 1)
  }

  function Committed(nodeId: string, status: NodeStatus, task: ComputeTask, id: string): Commitment {
    Commitment(id, nodeId, Min(RequiredCpu(task), status.cpuCores), Min(RequiredMemory(task), status.memoryMb),
               status.gpuAvailable, task.timeoutSeconds)
  }

  /** The commitment is stored under its id (IdOf), whether or not that is in use. */
  function Allocate(s: State, task: ComputeTask, nodeId: string, id: string): State {
    if !Available(s, task, nodeId) then s
    else
      var status := s.nodes[nodeId];
      var c := Committed(nodeId, status, task, id);
      State(s.commitments[id := c],
            s.nodes[nodeId := Taken(status, c)])
  }

  const NO_STATUS: NodeStatus := NodeStatus("", 0, 0, false, 0, 0.0)

  function StatusOf(s: State, nodeId: string): NodeStatus {
    if nodeId in s.nodes then s.nodes[nodeId] else NO_STATUS
  }

  function Release(s: State, id: string): State {
    if id !in s.commitments then s
    else
      var c := s.commitments[id];
      var status := StatusOf(s, c.nodeId);
      State(s.commitments - {id},
            s.nodes[c.nodeId := Returned(status, c)])
  }

  // ----- Commitment ids -----

  /** What a commitment is named after: its node and the millisecond it was made in. */
  datatype Origin = Origin(nodeId: string, millis: nat)

  /** Node and time run together without a separator. */
  function Text(o: Origin): string {
    o.nodeId + Print(o.millis)
  }

  /** The first sixteen bytes of the hash, in hexadecimal. */
  function ShortHash(h: HexHash): string -> string {
    (text: string) => h(text)[..ID_SIZE]
  }

  function CommitmentId(h: HexHash, o: Origin): string {
    h(Text(o))[..ID_SIZE]
  }

  function IdOf(h: HexHash): Origin -> string {
    (o: Origin) => CommitmentId(h, o)
  }

  /** Two origins share a text only if their times have different numbers of digits. */
  lemma SharedTextSplitsDifferently(a: Origin, b: Origin)
    requires Text(a) == Text(b) && |Print(a.millis)| == |Print(b.millis)|
    ensures a == b
  {
    var n := |a.nodeId|;
    assert a.nodeId == Text(a)[..n] && b.nodeId == Text(b)[..n];
    assert Print(a.millis) == Text(a)[n..] && Print(b.millis) == Text(b)[n..];
    PrintInjective(a.millis, b.millis);
  }

  /** That can happen: a digit counts for the node or for the time. */
  lemma TextsCanCoincide(nodeId: string)
    ensures Text(Origin(nodeId, 11)) == Text(Origin(nodeId + "1", 1))
  {
    assert Print(11) == Print(1) + [Digit(1)];
  }

  /** A time of thirteen digits: from 2001 to 2286. */
  predicate Contemporary(o: Origin) {
    Pow10(12) <= o.millis < Pow10(13)
  }

  /** For such times ids collide only where the shortened hash does. */
  lemma IdsCollisionFree(h: HexHash, origins: set<Origin>)
    requires forall o :: o in origins ==> Contemporary(o)
    requires CollisionFree(ShortHash(h), set o | o in origins :: Text(o))
    ensures CollisionFree(IdOf(h), origins)
  {
    forall a, b | a in origins && b in origins && IdOf(h)(a) == IdOf(h)(b) ensures a == b {
      assert ShortHash(h)(Text(a)) == ShortHash(h)(Text(b));
      ContemporaryTextsDiffer(a, b);
    }
  }

  lemma ContemporaryTextsDiffer(a: Origin, b: Origin)
    requires Contemporary(a) && Contemporary(b) && Text(a) == Text(b)
    ensures a == b
  {
    PrintLength(a.millis, 13);
    PrintLength(b.millis, 13);
    SharedTextSplitsDifferently(a, b);
  }

  // ----- Conservation -----

  function CpuAt(nodeId: string): Commitment -> int {
    (c: Commitment) => if c.nodeId == nodeId then c.cpuCores else 0
  }

  function MemoryAt(nodeId: string): Commitment -> int {
    (c: Commitment) => if c.nodeId == nodeId then c.memoryMb else 0
  }

  function TaskAt(nodeId: string): Commitment -> int {
    (c: Commitment) => if c.nodeId == nodeId then 1 else 0
  }

  /**
   * Free, committed and lost resources of a node are its capacity, and its task count is the number of
   * commitments made and not released; gone holds the commitments lost because their id was used again.
   */
  ghost predicate NodeBalanced(capacity: NodeStatus, nodeId: string, s: State, gone: seq<Commitment>)
    requires nodeId in s.nodes
  {
    Accounts(capacity, s.nodes[nodeId], Total(s.commitments, gone, CpuAt(nodeId)),
             Total(s.commitments, gone, MemoryAt(nodeId)), Total(s.commitments, gone, TaskAt(nodeId)))
  }

  /** A status of a node from which so many cores, so much memory and so many tasks are taken. */
  predicate Accounts(capacity: NodeStatus, status: NodeStatus, cpu: int, memory: int, tasks: int) {
    && status.cpuCores + cpu == capacity.cpuCores && status.memoryMb + memory == capacity.memoryMb
    && status.activeTasks == Wrap(tasks) && status.utilization == status.activeTasks as real / 8.0
    && status.nodeId == capacity.nodeId && status.gpuAvailable == capacity.gpuAvailable
  }

  lemma TakenAccounts(capacity: NodeStatus, status: NodeStatus, c: Commitment, cpu: int, memory: int, tasks: int)
    requires Accounts(capacity, status, cpu, memory, tasks)
    requires c.cpuCores <= status.cpuCores && c.memoryMb <= status.memoryMb
    ensures Accounts(capacity, Taken(status, c), cpu + c.cpuCores, memory + c.memoryMb, tasks + 1)
  {
    WrapSmall(status.cpuCores - c.cpuCores);
    WrapSmall(status.memoryMb - c.memoryMb);
    WrapAdd(tasks, 1);
  }

  lemma ReturnedAccounts(capacity: NodeStatus, status: NodeStatus, c: Commitment, cpu: int, memory: int, tasks: int)
    requires Accounts(capacity, status, cpu + c.cpuCores, memory + c.memoryMb, tasks + 1) && cpu >= 0 && memory >= 0
    ensures Accounts(capacity, Returned(status, c), cpu, memory, tasks)
  {
    WrapSmall(status.cpuCores + c.cpuCores);
    WrapSmall(status.memoryMb + c.memoryMb);
    WrapAdd(tasks + 1, 0 - 1);
  }

  /** Every commitment, stored or lost, is for a known node, and stored under its own id. */
  ghost predicate Named(s: State, gone: seq<Commitment>) {
    && (forall id :: id in s.commitments ==>
          s.commitments[id].nodeId in s.nodes && s.commitments[id].commitmentId == id)
    && forall i :: 0 <= i < |gone| ==> gone[i].nodeId in s.nodes
  }

  ghost predicate Balanced(capacity: map<string, NodeStatus>, s: State, gone: seq<Commitment>) {
    && s.nodes.Keys == capacity.Keys
    && (forall n :: n in s.nodes ==> NodeBalanced(capacity[n], n, s, gone))
    && Named(s, gone)
  }

  /** A configuration before any allocation. */
  predicate Idle(nodes: map<string, NodeStatus>) {
    forall n :: n in nodes ==> nodes[n].activeTasks == 0 && nodes[n].utilization == 0.0
  }

  /** An available node has at least what the task needs: the minimum never clips and nothing underflows. */
  lemma CommitsExactlyTheNeed(s: State, task: ComputeTask, nodeId: string, id: string)
    requires Available(s, task, nodeId)
    ensures var s' := Allocate(s, task, nodeId, id);
      && s'.commitments[id].cpuCores == task.requiredComputeUnits / 1000
      && s'.commitments[id].memoryMb == task.requiredComputeUnits / 10
      && s'.nodes[nodeId].cpuCores == s.nodes[nodeId].cpuCores - task.requiredComputeUnits / 1000
      && s'.nodes[nodeId].memoryMb == s.nodes[nodeId].memoryMb - task.requiredComputeUnits / 10
  {
    var status := s.nodes[nodeId];
    WrapSmall(status.cpuCores - RequiredCpu(task));
    WrapSmall(status.memoryMb - RequiredMemory(task));
  }

  /** When a task is granted, what is stored, and what the node has left. */
  lemma AllocationIs(s: State, task: ComputeTask, nodeId: string, id: string)
    ensures Available(s, task, nodeId) <==>
      && nodeId in s.nodes
      && task.requiredComputeUnits < 1000 * (s.nodes[nodeId].cpuCores + 1)
      && task.requiredComputeUnits < 10 * (s.nodes[nodeId].memoryMb + 1)
      && (task.circuitIdentifier == "" ==> s.nodes[nodeId].gpuAvailable)
    ensures Available(s, task, nodeId) ==>
      var status, s' := s.nodes[nodeId], Allocate(s, task, nodeId, id);
      var cpu, memory, tasks := task.requiredComputeUnits / 1000, task.requiredComputeUnits / 10,
                                Wrap(status.activeTasks + 1);
      && cpu <= status.cpuCores && memory <= status.memoryMb
      && s'.commitments == s.commitments[id :=
           Commitment(id, nodeId, cpu, memory, status.gpuAvailable, task.timeoutSeconds)]
      && s'.nodes == s.nodes[nodeId := NodeStatus(
           status.nodeId, status.cpuCores - cpu, status.memoryMb - memory, status.gpuAvailable,
           tasks, tasks as real / 8.0)]
  {
    if Available(s, task, nodeId) {
      WrapSmall(s.nodes[nodeId].cpuCores - RequiredCpu(task));
      WrapSmall(s.nodes[nodeId].memoryMb - RequiredMemory(task));
    }
  }

  lemma TotalsPut(commitments: map<string, Commitment>, gone: seq<Commitment>, id: string, c: Commitment, n: string)
    ensures var all, lost := commitments[id := c], Gone(commitments, gone, id);
      && Total(all, lost, CpuAt(n)) == Total(commitments, gone, CpuAt(n)) + CpuAt(n)(c)
      && Total(all, lost, MemoryAt(n)) == Total(commitments, gone, MemoryAt(n)) + MemoryAt(n)(c)
      && Total(all, lost, TaskAt(n)) == Total(commitments, gone, TaskAt(n)) + TaskAt(n)(c)
  {
    PutAdds(commitments, gone, CpuAt(n), id, c);
    PutAdds(commitments, gone, MemoryAt(n), id, c);
    PutAdds(commitments, gone, TaskAt(n), id, c);
  }

  lemma AllocateKeepsNode(
    capacity: NodeStatus, s: State, gone: seq<Commitment>, task: ComputeTask, nodeId: string, id: string, n: string)
    requires Available(s, task, nodeId) && n in s.nodes && NodeBalanced(capacity, n, s, gone)
    ensures NodeBalanced(capacity, n, Allocate(s, task, nodeId, id), Gone(s.commitments, gone, id))
  {
    var c := Committed(nodeId, s.nodes[nodeId], task, id);
    TotalsPut(s.commitments, gone, id, c, n);
    if n == nodeId {
      TakenAccounts(capacity, s.nodes[n], c, Total(s.commitments, gone, CpuAt(n)),
                    Total(s.commitments, gone, MemoryAt(n)), Total(s.commitments, gone, TaskAt(n)));
    } else {
      assert Allocate(s, task, nodeId, id).nodes[n] == s.nodes[n];
    }
  }

  lemma AllocateKeepsBalance(
    capacity: map<string, NodeStatus>, s: State, gone: seq<Commitment>, task: ComputeTask, nodeId: string, id: string)
    requires Balanced(capacity, s, gone) && Available(s, task, nodeId)
    ensures Balanced(capacity, Allocate(s, task, nodeId, id), Gone(s.commitments, gone, id))
  {
    forall n | n in s.nodes
      ensures NodeBalanced(capacity[n], n, Allocate(s, task, nodeId, id), Gone(s.commitments, gone, id))
    {
      AllocateKeepsNode(capacity[n], s, gone, task, nodeId, id, n);
    }
    AllocateKeepsNames(s, gone, task, nodeId, id);
  }

  lemma AllocateKeepsNames(s: State, gone: seq<Commitment>, task: ComputeTask, nodeId: string, id: string)
    requires Named(s, gone) && Available(s, task, nodeId)
    ensures Named(Allocate(s, task, nodeId, id), Gone(s.commitments, gone, id))
  {}

  lemma TotalsRemove(commitments: map<string, Commitment>, gone: seq<Commitment>, id: string, n: string)
    requires id in commitments
    ensures var c, rest := commitments[id], commitments - {id};
      && Total(commitments, gone, CpuAt(n)) == Total(rest, gone, CpuAt(n)) + CpuAt(n)(c)
      && Total(commitments, gone, MemoryAt(n)) == Total(rest, gone, MemoryAt(n)) + MemoryAt(n)(c)
      && Total(commitments, gone, TaskAt(n)) == Total(rest, gone, TaskAt(n)) + TaskAt(n)(c)
  {
    SumRemove(commitments, CpuAt(n), id);
    SumRemove(commitments, MemoryAt(n), id);
    SumRemove(commitments, TaskAt(n), id);
  }

  lemma TotalsNonNegative(commitments: map<string, Commitment>, gone: seq<Commitment>, n: string)
    ensures Total(commitments, gone, CpuAt(n)) >= 0 && Total(commitments, gone, MemoryAt(n)) >= 0
  {
    SumNonNegative(commitments, CpuAt(n));
    SumNonNegative(commitments, MemoryAt(n));
    SumOverNonNegative(gone, CpuAt(n));
    SumOverNonNegative(gone, MemoryAt(n));
  }

  lemma ReleaseKeepsOwnNode(capacity: NodeStatus, s: State, gone: seq<Commitment>, id: string, n: string)
    requires id in s.commitments && s.commitments[id].nodeId == n && n in s.nodes
    requires NodeBalanced(capacity, n, s, gone)
    ensures NodeBalanced(capacity, n, Release(s, id), gone)
  {
    var rest := s.commitments - {id};
    TotalsRemove(s.commitments, gone, id, n);
    TotalsNonNegative(rest, gone, n);
    ReturnedAccounts(capacity, s.nodes[n], s.commitments[id], Total(rest, gone, CpuAt(n)),
                     Total(rest, gone, MemoryAt(n)), Total(rest, gone, TaskAt(n)));
  }

  lemma ReleaseKeepsOtherNode(capacity: NodeStatus, s: State, gone: seq<Commitment>, id: string, n: string)
    requires id in s.commitments && s.commitments[id].nodeId != n && n in s.nodes
    requires NodeBalanced(capacity, n, s, gone)
    ensures NodeBalanced(capacity, n, Release(s, id), gone)
  {
    TotalsRemove(s.commitments, gone, id, n);
    assert Release(s, id).nodes[n] == s.nodes[n];
  }

  lemma ReleaseKeepsBalance(capacity: map<string, NodeStatus>, s: State, gone: seq<Commitment>, id: string)
    requires Balanced(capacity, s, gone)
    ensures Balanced(capacity, Release(s, id), gone)
  {
    if id in s.commitments {
      forall n | n in s.nodes ensures NodeBalanced(capacity[n], n, Release(s, id), gone) {
        if n == s.commitments[id].nodeId {
          ReleaseKeepsOwnNode(capacity[n], s, gone, id, n);
        } else {
          ReleaseKeepsOtherNode(capacity[n], s, gone, id, n);
        }
      }
    }
  }

  /** Releasing an id twice is releasing it once. */
  lemma SecondReleaseIsNoOp(s: State, id: string)
    ensures Release(Release(s, id), id) == Release(s, id)
  {}

  /** Allocating and releasing at once restores the state exactly when the id was not in use. */
  lemma ReleaseUndoesAllocateIff(
    capacity: NodeStatus, s: State, gone: seq<Commitment>, task: ComputeTask, nodeId: string, id: string)
    requires Available(s, task, nodeId) && NodeBalanced(capacity, nodeId, s, gone)
    ensures Release(Allocate(s, task, nodeId, id), id) == s <==> id !in s.commitments
  {
    if id in s.commitments {
      assert id !in Release(Allocate(s, task, nodeId, id), id).commitments;
    } else {
      ReleaseUndoesAllocate(s, task, nodeId, id);
    }
  }

  lemma ReleaseUndoesAllocate(s: State, task: ComputeTask, nodeId: string, id: string)
    requires Available(s, task, nodeId) && id !in s.commitments
    requires s.nodes[nodeId].utilization == s.nodes[nodeId].activeTasks as real / 8.0
    ensures Release(Allocate(s, task, nodeId, id), id) == s
  {
    var status := s.nodes[nodeId];
    var c := Committed(nodeId, status, task, id);
    ReleaseOfStored(s, id, c, Taken(status, c));
    StatusRoundTrip(status, c);
    StoreSame(s.nodes, nodeId);
  }

  lemma StoreSame<K, V>(m: map<K, V>, k: K)
    requires k in m
    ensures m[k := m[k]] == m
  {}

  lemma ReleaseOfStored(s: State, id: string, c: Commitment, taken: NodeStatus)
    requires id !in s.commitments
    ensures Release(State(s.commitments[id := c], s.nodes[c.nodeId := taken]), id)
            == State(s.commitments, s.nodes[c.nodeId := Returned(taken, c)])
  {
    assert s.commitments[id := c] - {id} == s.commitments;
  }

  lemma StatusRoundTrip(status: NodeStatus, c: Commitment)
    requires c.cpuCores <= status.cpuCores && c.memoryMb <= status.memoryMb
    requires status.utilization == status.activeTasks as real / 8.0
    ensures Returned(Taken(status, c), c) == status
  {
    WrapSmall(status.cpuCores - c.cpuCores);
    WrapSmall(status.memoryMb - c.memoryMb);
    WrapSmall(status.activeTasks);
    WrapAdd(status.activeTasks + 1, 0 - 1);
  }

  // ----- Runs -----

  datatype Event = AllocateEvent(task: ComputeTask, nodeId: string, millis: nat) | ReleaseEvent(id: string)

  /** The state, the millisecond each stored commitment was made in, and the commitments lost to reused ids. */
  datatype Run = Run(state: State, made: map<string, nat>, gone: seq<Commitment>)

  function Start(nodes: map<string, NodeStatus>): Run {
    Run(State(map[], nodes), map[], [])
  }

  ghost function Next(h: HexHash, r: Run, e: Event): Run {
    match e
    case AllocateEvent(task, nodeId, millis) =>
      if Available(r.state, task, nodeId) then AllocateStep(h, r, task, Origin(nodeId, millis)) else r
    case ReleaseEvent(id) => Run(Release(r.state, id), r.made - {id}, r.gone)
  }

  ghost function AllocateStep(h: HexHash, r: Run, task: ComputeTask, o: Origin): Run {
    var id := CommitmentId(h, o);
    Run(Allocate(r.state, task, o.nodeId, id), r.made[id := o.millis], Gone(r.state.commitments, r.gone, id))
  }

  ghost function After(h: HexHash, r: Run, events: seq<Event>): Run
    decreases |events|
  {
    if events == [] then r else After(h, Next(h, r, events[0]), events[1..])
  }

  lemma {:induction false} RunKeepsBalance(capacity: map<string, NodeStatus>, h: HexHash, r: Run, events: seq<Event>)
    requires Balanced(capacity, r.state, r.gone)
    ensures var last := After(h, r, events); Balanced(capacity, last.state, last.gone)
    decreases |events|
  {
    if events != [] {
      StepKeepsBalance(capacity, h, r, events[0]);
      RunKeepsBalance(capacity, h, Next(h, r, events[0]), events[1..]);
    }
  }

  lemma StepKeepsBalance(capacity: map<string, NodeStatus>, h: HexHash, r: Run, e: Event)
    requires Balanced(capacity, r.state, r.gone)
    ensures Balanced(capacity, Next(h, r, e).state, Next(h, r, e).gone)
  {
    match e
    case AllocateEvent(task, nodeId, millis) =>
      if Available(r.state, task, nodeId) {
        AllocateKeepsBalance(capacity, r.state, r.gone, task, nodeId, CommitmentId(h, Origin(nodeId, millis)));
      }
    case ReleaseEvent(id) => ReleaseKeepsBalance(capacity, r.state, r.gone, id);
  }

  /** Resources are conserved in every state reached from an idle configuration, lost commitments included. */
  lemma ConservedInEveryState(h: HexHash, nodes: map<string, NodeStatus>, events: seq<Event>)
    requires Idle(nodes)
    ensures var r := After(h, Start(nodes), events); Balanced(nodes, r.state, r.gone)
  {
    RunKeepsBalance(nodes, h, Start(nodes), events);
  }

  // ----- What is lost, and when -----

  lemma {:induction false} TasksOf(gone: seq<Commitment>, n: string)
    ensures 0 <= SumOver(gone, TaskAt(n)) <= |gone|
    ensures (exists i :: 0 <= i < |gone| && gone[i].nodeId == n) ==> SumOver(gone, TaskAt(n)) > 0
  {
    if gone != [] {
      TasksOf(gone[..|gone| - 1], n);
    }
  }

  lemma WrapLost(x: int, lost: int)
    requires 0 < lost < TWO_64
    ensures Wrap(x + lost) != Wrap(x)
  {}

  /** The nodes balance over the stored commitments alone exactly when none was lost. */
  lemma BalancedIffNothingLost(capacity: map<string, NodeStatus>, s: State, gone: seq<Commitment>)
    requires Balanced(capacity, s, gone) && |gone| < TWO_64
    ensures Balanced(capacity, s, []) <==> gone == []
  {
    if gone != [] {
      var n := gone[0].nodeId;
      TasksOf(gone, n);
      WrapLost(Sum(s.commitments, TaskAt(n)), SumOver(gone, TaskAt(n)));
      assert !NodeBalanced(capacity[n], n, s, []);
    }
  }

  /** Every stored commitment is named after its node and its millisecond. */
  ghost predicate Derived(h: HexHash, r: Run) {
    && r.made.Keys == r.state.commitments.Keys
    && forall id :: id in r.state.commitments ==>
      id == CommitmentId(h, Origin(r.state.commitments[id].nodeId, r.made[id]))
  }

  /** A commitment for this node made in this millisecond is still stored. */
  ghost predicate Outstanding(r: Run, o: Origin) {
    exists id :: id in r.state.commitments && id in r.made
      && r.state.commitments[id].nodeId == o.nodeId && r.made[id] == o.millis
  }

  /** Everything named in the state is among the origins. */
  ghost predicate OriginsWithin(r: Run, origins: set<Origin>) {
    forall id :: id in r.state.commitments && id in r.made ==>
      Origin(r.state.commitments[id].nodeId, r.made[id]) in origins
  }

  lemma IdInUseIff(h: HexHash, r: Run, o: Origin, origins: set<Origin>)
    requires Derived(h, r) && OriginsWithin(r, origins) && o in origins && CollisionFree(IdOf(h), origins)
    ensures CommitmentId(h, o) in r.state.commitments <==> Outstanding(r, o)
  {
    var id := CommitmentId(h, o);
    if id in r.state.commitments {
      var o' := Origin(r.state.commitments[id].nodeId, r.made[id]);
      assert o' in origins && CommitmentId(h, o') == CommitmentId(h, o);
    }
  }

  /** An allocation keeps the balance exactly when no commitment is outstanding under its node and millisecond. */
  lemma BalanceKeptIffIdIsNew(
    capacity: map<string, NodeStatus>, h: HexHash, r: Run, task: ComputeTask, o: Origin, origins: set<Origin>)
    requires Balanced(capacity, r.state, []) && Available(r.state, task, o.nodeId)
    requires Derived(h, r) && OriginsWithin(r, origins) && o in origins && CollisionFree(IdOf(h), origins)
    ensures Balanced(capacity, AllocateStep(h, r, task, o).state, []) <==> !Outstanding(r, o)
  {
    var id := CommitmentId(h, o);
    IdInUseIff(h, r, o, origins);
    AllocateKeepsBalance(capacity, r.state, [], task, o.nodeId, id);
    BalancedIffNothingLost(capacity, Allocate(r.state, task, o.nodeId, id), Gone(r.state.commitments, [], id));
  }

  /** No allocation granted in the run meets an outstanding commitment of its node and millisecond. */
  ghost predicate NoneOutstanding(h: HexHash, r: Run, events: seq<Event>)
    decreases |events|
  {
    events != [] ==>
      && (events[0].AllocateEvent? && Available(r.state, events[0].task, events[0].nodeId) ==>
            !Outstanding(r, Origin(events[0].nodeId, events[0].millis)))
      && NoneOutstanding(h, Next(h, r, events[0]), events[1..])
  }

  predicate EventWithin(e: Event, origins: set<Origin>) {
    e.AllocateEvent? ==> Origin(e.nodeId, e.millis) in origins
  }

  lemma StepKeepsDerived(h: HexHash, r: Run, e: Event, origins: set<Origin>)
    requires Derived(h, r) && OriginsWithin(r, origins) && EventWithin(e, origins)
    ensures Derived(h, Next(h, r, e)) && OriginsWithin(Next(h, r, e), origins)
  {}

  lemma {:induction false} LostGrows(h: HexHash, r: Run, events: seq<Event>)
    ensures |r.gone| <= |After(h, r, events).gone|
    decreases |events|
  {
    if events != [] {
      LostGrows(h, Next(h, r, events[0]), events[1..]);
    }
  }

  lemma NothingLostStep(h: HexHash, r: Run, e: Event, origins: set<Origin>)
    requires Derived(h, r) && OriginsWithin(r, origins) && EventWithin(e, origins)
    requires CollisionFree(IdOf(h), origins) && r.gone == []
    ensures Next(h, r, e).gone == [] <==>
      (e.AllocateEvent? && Available(r.state, e.task, e.nodeId) ==> !Outstanding(r, Origin(e.nodeId, e.millis)))
  {
    if e.AllocateEvent? {
      IdInUseIff(h, r, Origin(e.nodeId, e.millis), origins);
    }
  }

  lemma {:induction false} NothingLostIff(h: HexHash, r: Run, events: seq<Event>, origins: set<Origin>)
    requires Derived(h, r) && OriginsWithin(r, origins) && r.gone == [] && CollisionFree(IdOf(h), origins)
    requires forall i :: 0 <= i < |events| ==> EventWithin(events[i], origins)
    ensures After(h, r, events).gone == [] <==> NoneOutstanding(h, r, events)
    decreases |events|
  {
    if events != [] {
      var r' := Next(h, r, events[0]);
      assert EventWithin(events[0], origins);
      NothingLostStep(h, r, events[0], origins);
      if r'.gone == [] {
        StepKeepsDerived(h, r, events[0], origins);
        NothingLostIff(h, r', events[1..], origins);
      } else {
        LostGrows(h, r', events[1..]);
      }
    }
  }

  /**
   * After any run from idle nodes the stored commitments alone account for what is not free exactly when no
   * granted allocation met an outstanding commitment of its node and millisecond.
   */
  lemma ConservedIff(h: HexHash, nodes: map<string, NodeStatus>, events: seq<Event>, origins: set<Origin>)
    requires Idle(nodes) && CollisionFree(IdOf(h), origins)
    requires forall i :: 0 <= i < |events| ==> EventWithin(events[i], origins)
    requires |After(h, Start(nodes), events).gone| < TWO_64
    ensures Balanced(nodes, After(h, Start(nodes), events).state, []) <==> NoneOutstanding(h, Start(nodes), events)
  {
    var r := After(h, Start(nodes), events);
    ConservedInEveryState(h, nodes, events);
    BalancedIffNothingLost(nodes, r.state, r.gone);
    NothingLostIff(h, Start(nodes), events, origins);
  }

  // ----- Releasing everything -----

  function ReleaseAll(s: State, order: seq<string>): State
    decreases |order|
  {
    if order == [] then s else ReleaseAll(Release(s, order[0]), order[1..])
  }

  lemma {:induction false} ReleaseAllKeepsBalance(
    capacity: map<string, NodeStatus>, s: State, gone: seq<Commitment>, order: seq<string>)
    requires Balanced(capacity, s, gone)
    ensures Balanced(capacity, ReleaseAll(s, order), gone)
    ensures forall id :: id in ReleaseAll(s, order).commitments <==> id in s.commitments && id !in order
    decreases |order|
  {
    if order != [] {
      ReleaseKeepsBalance(capacity, s, gone, order[0]);
      ReleaseAllKeepsBalance(capacity, Release(s, order[0]), gone, order[1..]);
      assert order == [order[0]] + order[1..];
    }
  }

  /**
   * Whatever happened, releasing every id, in any order and with any repetition, restores the idle nodes
   * exactly when no commitment was lost.
   */
  lemma ReleasingAllRestoresIff(h: HexHash, nodes: map<string, NodeStatus>, events: seq<Event>, order: seq<string>)
    requires Idle(nodes) && |After(h, Start(nodes), events).gone| < TWO_64
    requires forall id :: id in After(h, Start(nodes), events).state.commitments ==> id in order
    ensures var r := After(h, Start(nodes), events);
      ReleaseAll(r.state, order) == State(map[], nodes) <==> r.gone == []
  {
    ConservedInEveryState(h, nodes, events);
    var r := After(h, Start(nodes), events);
    ReleaseAllKeepsBalance(nodes, r.state, r.gone, order);
    EmptyIsIdleIff(nodes, ReleaseAll(r.state, order), r.gone);
  }

  lemma EmptyIsIdleIff(nodes: map<string, NodeStatus>, s: State, gone: seq<Commitment>)
    requires Idle(nodes) && Balanced(nodes, s, gone) && |gone| < TWO_64
    requires forall id :: id !in s.commitments
    ensures s == State(map[], nodes) <==> gone == []
  {
    assert s.commitments == map[];
    if gone == [] {
      forall n | n in nodes ensures s.nodes[n] == nodes[n] {
        assert NodeBalanced(nodes[n], n, s, []);
        assert 0 as real / 8.0 == 0.0;
      }
    } else {
      var n := gone[0].nodeId;
      TasksOf(gone, n);
      assert NodeBalanced(nodes[n], n, s, gone);
      WrapSmall(SumOver(gone, TaskAt(n)));
    }
  }

  // ----- A run that loses a commitment -----

  const INITIAL_NODES: map<string, NodeStatus> := map["node_001" := NodeStatus("node_001", 8, 16384, true, 0, 0.0)]
  const NO_WORK: ComputeTask := ComputeTask(0, 0, "")

  /** A commitment is lost when a second one is granted under the same node and millisecond. */
  lemma RepeatLoses(h: HexHash, r: Run, task: ComputeTask, o: Origin)
    requires r.gone == [] && CommitmentId(h, o) !in r.state.commitments
    requires Available(r.state, task, o.nodeId) && Available(AllocateStep(h, r, task, o).state, task, o.nodeId)
    ensures |AllocateStep(h, AllocateStep(h, r, task, o), task, o).gone| == 1
  {}

  lemma NoWorkIsAvailable(h: HexHash, millis: nat)
    ensures var r, o := Start(INITIAL_NODES), Origin("node_001", millis);
      Available(r.state, NO_WORK, "node_001") && Available(AllocateStep(h, r, NO_WORK, o).state, NO_WORK, "node_001")
  {}

  lemma TwoEvents(h: HexHash, r: Run, e: Event)
    ensures After(h, r, [e, e]) == Next(h, Next(h, r, e), e)
  {
    assert [e, e][1..] == [e] && [e][1..] == [];
    assert After(h, Next(h, r, e), [e]) == Next(h, Next(h, r, e), e);
  }

  /** Two tasks on the initial node within one millisecond: the first commitment is lost, whatever the hash. */
  lemma SameMillisecondUnbalances(h: HexHash, millis: nat)
    ensures var e := AllocateEvent(NO_WORK, "node_001", millis); var r := After(h, Start(INITIAL_NODES), [e, e]);
      |r.gone| == 1 && !Balanced(INITIAL_NODES, r.state, [])
  {
    var e := AllocateEvent(NO_WORK, "node_001", millis);
    var r := After(h, Start(INITIAL_NODES), [e, e]);
    NoWorkIsAvailable(h, millis);
    RepeatLoses(h, Start(INITIAL_NODES), NO_WORK, Origin("node_001", millis));
    TwoEvents(h, Start(INITIAL_NODES), e);
    ConservedInEveryState(h, INITIAL_NODES, [e, e]);
    BalancedIffNothingLost(INITIAL_NODES, r.state, r.gone);
  }

  // ----- The program -----

  class ComputeResourceAllocator {
    const hexHash: HexHash
    var commitments: map<string, Commitment>
    var nodeStatuses: map<string, NodeStatus>

    function View(): State
      reads this
    {
      State(commitments, nodeStatuses)
    }

    constructor (h: HexHash)
      ensures hexHash == h && View() == Start(INITIAL_NODES).state && Idle(nodeStatuses)
    {
      hexHash, commitments := h, map[];
      nodeStatuses := map["node_001" := NodeStatus("node_001", 8, 16384, true, 0, 0.0)];
    }

    method CheckAvailability(task: ComputeTask, nodeId: string) returns (ok: bool)
      ensures ok <==> Available(View(), task, nodeId)
      ensures ok <==>
        && nodeId in nodeStatuses
        && task.requiredComputeUnits < 1000 * (nodeStatuses[nodeId].cpuCores + 1)
        && task.requiredComputeUnits < 10 * (nodeStatuses[nodeId].memoryMb + 1)
        && (task.circuitIdentifier == "" ==> nodeStatuses[nodeId].gpuAvailable)
    {
      if nodeId !in nodeStatuses {
        return false;
      }
      var status := nodeStatuses[nodeId];
      var requiredCpu := task.requiredComputeUnits / 1000;
      var requiredMemory := task.requiredComputeUnits / 10;
      ok := status.cpuCores >= requiredCpu && status.memoryMb >= requiredMemory
            && (task.circuitIdentifier != "" || status.gpuAvailable);
    }

    /**
     * The clock reading, in milliseconds, is an input. None is the program's commitment named "unavailable",
     * which is not stored.
     */
    method AllocateResources(task: ComputeTask, nodeId: string, millis: nat) returns (commitment: Option<Commitment>)
      modifies this
      ensures var id := CommitmentId(hexHash, Origin(nodeId, millis));
        && View() == old(Allocate(View(), task, nodeId, id))
        && commitment == if old(Available(View(), task, nodeId)) then Some(commitments[id]) else None
      ensures commitment.Some? <==>
        && nodeId in old(nodeStatuses)
        && task.requiredComputeUnits < 1000 * (old(nodeStatuses)[nodeId].cpuCores + 1)
        && task.requiredComputeUnits < 10 * (old(nodeStatuses)[nodeId].memoryMb + 1)
        && (task.circuitIdentifier == "" ==> old(nodeStatuses)[nodeId].gpuAvailable)
      ensures commitment.None? ==> nodeStatuses == old(nodeStatuses) && commitments == old(commitments)
      ensures commitment.Some? ==>
        var c, status, id := commitment.value, old(nodeStatuses)[nodeId], hexHash(nodeId + Print(millis))[..32];
        && c == Commitment(id, nodeId, task.requiredComputeUnits / 1000, task.requiredComputeUnits / 10,
                           status.gpuAvailable, task.timeoutSeconds)
        && commitments == old(commitments)[id := c]
        && c.cpuCores <= status.cpuCores && c.memoryMb <= status.memoryMb
        && var tasks := Wrap(status.activeTasks + 1);
        nodeStatuses == old(nodeStatuses)[nodeId := NodeStatus(
          status.nodeId, status.cpuCores - c.cpuCores, status.memoryMb - c.memoryMb, status.gpuAvailable,
          tasks, tasks as real / 8.0)]
    {
      AllocationIs(View(), task, nodeId, CommitmentId(hexHash, Origin(nodeId, millis)));
      var ok := CheckAvailability(task, nodeId);
      if !ok {
        return None;
      }
      var id := hexHash(nodeId + Print(millis))[..ID_SIZE];
      var status := nodeStatuses[nodeId];
      var cpu := Min(task.requiredComputeUnits / 1000, status.cpuCores);
      var memory := Min(task.requiredComputeUnits / 10, status.memoryMb);
      var c := Commitment(id, nodeId, cpu, memory, status.gpuAvailable, task.timeoutSeconds);
      commitments := commitments[id := c];
      status := status.(cpuCores := Wrap(status.cpuCores - cpu));
      status := status.(memoryMb := Wrap(status.memoryMb - memory));
      status := status.(activeTasks := Wrap(status.activeTasks + 1));
      status := status.(utilization := status.activeTasks as real / 8.0);
      nodeStatuses := nodeStatuses[nodeId := status];
      return Some(c);
    }

    method ReleaseResources(id: string)
      modifies this
      ensures View() == old(Release(View(), id))
      ensures commitments == old(commitments) - {id}
      ensures id !in old(commitments) ==> nodeStatuses == old(nodeStatuses)
      ensures id in old(commitments) && old(commitments)[id].nodeId in old(nodeStatuses) ==>
        var c := old(commitments)[id];
        var status := old(nodeStatuses)[c.nodeId];
        var tasks := Wrap(status.activeTasks - 1);
        nodeStatuses == old(nodeStatuses)[c.nodeId := NodeStatus(
          status.nodeId, Wrap(status.cpuCores + c.cpuCores), Wrap(status.memoryMb + c.memoryMb), status.gpuAvailable,
          tasks, tasks as real / 8.0)]
    {
      if id !in commitments {
        return;
      }
      var c := commitments[id];
      var status := if c.nodeId in nodeStatuses then nodeStatuses[c.nodeId] else NO_STATUS;
      status := status.(cpuCores := Wrap(status.cpuCores + c.cpuCores));
      status := status.(memoryMb := Wrap(status.memoryMb + c.memoryMb));
      status := status.(activeTasks := Wrap(status.activeTasks - 1));
      status := status.(utilization := status.activeTasks as real / 8.0);
      nodeStatuses := nodeStatuses[c.nodeId := status];
      commitments := commitments - {id};
    }
  }
}
