/** Submissions, tries and removals interleaved at the queue's own critical sections: a try
    peeks, then attempts, then dequeues, and anything may happen in between. */
module SchedulerRuns {
  import opened Sequences
  import opened JobQueues
  import opened Scheduling

  /** `entering`: found busy, not yet appended. `peeked`/`attempted`: jobs held by tries that
      have not attempted, or not dequeued, yet. `enqueued` and `left` are logs. */
  datatype World = World(
    submitted: seq<JobId>, queue: seq<JobId>, entering: multiset<JobId>,
    peeked: multiset<JobId>, attempted: multiset<JobId>,
    started: seq<JobId>, rejected: seq<JobId>, discarded: seq<JobId>, removed: seq<JobId>,
    enqueued: seq<JobId>, left: seq<JobId>)

  const EMPTY := World([], [], multiset{}, multiset{}, multiset{}, [], [], [], [], [], [])

  datatype Step =
    | Submit(id: JobId, outcome: Outcome)
    | Append(id: JobId)
    | PeekHead
    | AttemptPeeked(id: JobId, outcome: Outcome)
    | DequeueAfter(id: JobId)
    | RemoveQueued(i: nat)
    | ClearQueue

  /** Any interleaving, overlapping tries included. Ids are submitted once. */
  ghost predicate Next(s: World, step: Step, s': World) {
    match step
    case Submit(id, outcome) =>
      && id !in s.submitted
      && var t := s.(submitted := s.submitted + [id]);
      s' == (match outcome
             case Placed => t.(started := s.started + [id])
             case AllBusy => t.(entering := s.entering + multiset{id})
             case _ => t.(rejected := s.rejected + [id]))
    case Append(id) =>
      id in s.entering &&
      s' == s.(entering := s.entering - multiset{id}, queue := s.queue + [id], enqueued := s.enqueued + [id])
    case PeekHead =>
      s.queue != [] && s' == s.(peeked := s.peeked + multiset{s.queue[0]})
    case AttemptPeeked(id, outcome) =>
      && id in s.peeked
      && var t := s.(peeked := s.peeked - multiset{id});
      s' == (match outcome
             case Placed => t.(started := s.started + [id], attempted := s.attempted + multiset{id})
             case AllBusy => t
             case _ => t.(discarded := s.discarded + [id], attempted := s.attempted + multiset{id}))
    case DequeueAfter(id) =>
      && id in s.attempted
      && var t := s.(attempted := s.attempted - multiset{id});
      s' == if s.queue == [] then t else t.(queue := s.queue[1..], left := s.left + [s.queue[0]])
    case RemoveQueued(i) =>
      i < |s.queue| && s' == s.(queue := RemoveAt(s.queue, i), removed := s.removed + [s.queue[i]])
    case ClearQueue =>
      s' == s.(queue := [], removed := s.removed + s.queue)
  }

  /** No try is between its peek and its dequeue. */
  predicate NoTryInProgress(s: World) { s.peeked == multiset{} && s.attempted == multiset{} }

  /** Tries overlap neither each other nor removals; submissions may fall anywhere. */
  ghost predicate SingleFlight(s: World, step: Step) {
    step.PeekHead? || step.RemoveQueued? || step.ClearQueue? ==> NoTryInProgress(s)
  }

  ghost predicate Run(states: seq<World>, steps: seq<Step>) {
    && |states| == |steps| + 1 && states[0] == EMPTY
    && forall k :: 0 <= k < |steps| ==> Next(states[k], steps[k], states[k + 1])
  }

  ghost predicate SingleFlightRun(states: seq<World>, steps: seq<Step>) {
    Run(states, steps) && forall k :: 0 <= k < |steps| ==> SingleFlight(states[k], steps[k])
  }

  // ---------- Conservation ----------

  function Count(s: seq<JobId>, id: JobId): nat { multiset(s)[id] }

  lemma CountConcat(a: seq<JobId>, b: seq<JobId>, id: JobId)
    ensures Count(a + b, id) == Count(a, id) + Count(b, id)
  {
  }

  lemma CountRemove(s: seq<JobId>, i: nat, id: JobId)
    requires i < |s|
    ensures Count(s, id) == Count(RemoveAt(s, i), id) + if s[i] == id then 1 else 0
  {
    assert s == (s[..i] + [s[i]]) + s[i + 1..];
    CountConcat(s[..i] + [s[i]], s[i + 1..], id);
    CountConcat(s[..i], s[i + 1..], id);
  }

  lemma CountFirst(s: seq<JobId>, id: JobId)
    requires s != []
    ensures Count(s, id) == Count(s[1..], id) + if s[0] == id then 1 else 0
  {
    CountRemove(s, 0, id);
    assert RemoveAt(s, 0) == s[1..];
  }

  /** How often a job is found among started, rejected, discarded, removed, queued or entering. */
  function Places(s: World, id: JobId): nat {
    Count(s.started, id) + Count(s.rejected, id) + Count(s.discarded, id) + Count(s.removed, id) + Count(s.queue, id) +
      s.entering[id]
  }

  /** A submitted job has one place, and one more while the try that attempted it has not
      dequeued it yet. */
  function Surplus(s: World, id: JobId): int {
    Places(s, id) - Count(s.submitted, id) - s.attempted[id]
  }

  ghost predicate Conserved(s: World) {
    forall id :: Surplus(s, id) == 0
  }

  lemma AttemptKeepsSurplus(s: World, held: JobId, outcome: Outcome, s': World, id: JobId)
    requires Next(s, AttemptPeeked(held, outcome), s')
    ensures Surplus(s', id) == Surplus(s, id)
  {
    CountConcat(s.started, [held], id);
    CountConcat(s.discarded, [held], id);
  }

  lemma SubmitKeepsSurplus(s: World, added: JobId, outcome: Outcome, s': World, id: JobId)
    requires Next(s, Submit(added, outcome), s')
    ensures Surplus(s', id) == Surplus(s, id)
  {
    CountConcat(s.submitted, [added], id);
    CountConcat(s.started, [added], id);
    CountConcat(s.rejected, [added], id);
  }

  lemma RemoveKeepsSurplus(s: World, i: nat, s': World, id: JobId)
    requires Next(s, RemoveQueued(i), s')
    ensures Surplus(s', id) == Surplus(s, id)
  {
    CountRemove(s.queue, i, id);
    CountConcat(s.removed, [s.queue[i]], id);
  }

  lemma DequeueChangesSurplus(s: World, held: JobId, s': World, id: JobId)
    requires Next(s, DequeueAfter(held), s')
    ensures Surplus(s', id) == Surplus(s, id)
      + (if id == held then 1 else 0) - (if s.queue != [] && s.queue[0] == id then 1 else 0)
  {
    assert s'.attempted[id] == s.attempted[id] - if id == held then 1 else 0;
    if s.queue != [] {
      CountFirst(s.queue, id);
    }
  }

  /** Only a dequeue can upset the books, by what it takes against what its try attempted. */
  lemma StepChangesSurplus(s: World, step: Step, s': World, id: JobId)
    requires Next(s, step, s')
    ensures Surplus(s', id) == Surplus(s, id) + if !step.DequeueAfter? then 0
      else (if id == step.id then 1 else 0) - (if s.queue != [] && s.queue[0] == id then 1 else 0)
  {
    match step
    case Submit(added, outcome) => SubmitKeepsSurplus(s, added, outcome, s', id);
    case Append(added) => CountConcat(s.queue, [added], id);
    case PeekHead =>
    case AttemptPeeked(held, outcome) => AttemptKeepsSurplus(s, held, outcome, s', id);
    case DequeueAfter(held) => DequeueChangesSurplus(s, held, s', id);
    case RemoveQueued(i) => RemoveKeepsSurplus(s, i, s', id);
    case ClearQueue => CountConcat(s.removed, s.queue, id);
  }

  /** A dequeue keeps the books exactly when the head still is the job the try attempted;
      every other step keeps them under any interleaving. */
  lemma StepConserves(s: World, step: Step, s': World)
    requires Conserved(s) && Next(s, step, s')
    ensures Conserved(s') <==> (step.DequeueAfter? ==> s.queue != [] && s.queue[0] == step.id)
  {
    forall id ensures Surplus(s, id) == 0 && Surplus(s', id) == if !step.DequeueAfter? then 0
      else (if id == step.id then 1 else 0) - (if s.queue != [] && s.queue[0] == id then 1 else 0)
    {
      StepChangesSurplus(s, step, s', id);
    }
    if step.DequeueAfter? {
      assert Surplus(s', step.id) == 0 <==> s.queue != [] && s.queue[0] == step.id;
    }
  }

  // ---------- Order ----------

  /** The elements of s outside `out`, in order. */
  function Keep(s: seq<JobId>, out: set<JobId>): seq<JobId> {
    if s == [] then []
    else Keep(s[..|s| - 1], out) + if s[|s| - 1] in out then [] else [s[|s| - 1]]
  }

  function Elements(s: seq<JobId>): set<JobId> { set x | x in s }

  lemma KeepSnoc(s: seq<JobId>, x: JobId, out: set<JobId>)
    ensures Keep(s + [x], out) == Keep(s, out) + if x in out then [] else [x]
  {
    assert (s + [x])[..|s + [x]| - 1] == s;
  }

  lemma {:induction false} KeepConcat(a: seq<JobId>, b: seq<JobId>, out: set<JobId>)
    ensures Keep(a + b, out) == Keep(a, out) + Keep(b, out)
  {
    if b == [] {
      assert a + b == a;
    } else {
      assert (a + b)[..|a + b| - 1] == a + b[..|b| - 1];
      KeepConcat(a, b[..|b| - 1], out);
    }
  }

  lemma {:induction false} KeepTwice(s: seq<JobId>, out: set<JobId>, more: set<JobId>)
    ensures Keep(s, out + more) == Keep(Keep(s, out), more)
  {
    if s != [] {
      var front, last := s[..|s| - 1], s[|s| - 1];
      KeepTwice(front, out, more);
      KeepSnoc(Keep(front, out), last, more);
      assert Keep(front, out) + [] == Keep(front, out);
    }
  }

  lemma {:induction false} KeepAll(s: seq<JobId>, out: set<JobId>)
    requires forall x :: x in s ==> x !in out
    ensures Keep(s, out) == s
  {
    if s != [] {
      assert s == s[..|s| - 1] + [s[|s| - 1]];
      KeepAll(s[..|s| - 1], out);
    }
  }

  lemma {:induction false} KeepNone(s: seq<JobId>, out: set<JobId>)
    requires forall x :: x in s ==> x in out
    ensures Keep(s, out) == []
  {
    if s != [] {
      KeepNone(s[..|s| - 1], out);
    }
  }

  /** Jobs that left the head, followed by those still queued, are the jobs in the order they
      were enqueued, minus the removed ones. */
  ghost predicate InOrder(s: World) {
    s.left + s.queue == Keep(s.enqueued, Elements(s.removed))
  }

  /** The job a try holds is still the head: only the try itself takes from the queue. */
  ghost predicate HeadHeld(s: World) {
    && |s.peeked| + |s.attempted| <= 1
    && (forall id :: id in s.peeked + s.attempted ==> s.queue != [] && s.queue[0] == id)
  }

  ghost predicate Good(s: World) {
    && Conserved(s) && HeadHeld(s) && InOrder(s)
    && DuplicateFree(s.submitted)
    && (forall id :: Count(s.enqueued, id) + s.entering[id] <= Count(s.submitted, id))
    && (forall id :: id in s.removed ==> id in s.enqueued)
    && DuplicateFree(s.left + s.queue)
  }

  lemma {:induction false} CountAtMostOne(s: seq<JobId>, x: JobId)
    requires DuplicateFree(s)
    ensures Count(s, x) <= 1
  {
    if s != [] {
      var front, last := s[..|s| - 1], s[|s| - 1];
      assert s == front + [last];
      CountAtMostOne(front, x);
      CountConcat(front, [last], x);
      assert last !in front;
      assert last !in multiset(front);
    }
  }

  /** A job still on its way into the queue has not been enqueued or removed before. */
  lemma EnteringIsNew(s: World, id: JobId)
    requires Good(s) && id in s.entering
    ensures id !in s.enqueued && id !in s.removed && id !in s.left + s.queue
  {
    CountAtMostOne(s.submitted, id);
    assert Count(s.enqueued, id) == 0;
    assert id !in multiset(s.enqueued);
    KeepMembers(s.enqueued, Elements(s.removed));
  }

  lemma {:induction false} KeepMembers(s: seq<JobId>, out: set<JobId>)
    ensures forall x :: x in Keep(s, out) ==> x in s && x !in out
  {
    if s != [] {
      KeepMembers(s[..|s| - 1], out);
    }
  }

  lemma AppendKeepsOrder(s: World, id: JobId, s': World)
    requires InOrder(s) && DuplicateFree(s.left + s.queue) && Next(s, Append(id), s')
    requires id !in s.removed && id !in s.left + s.queue
    ensures InOrder(s') && DuplicateFree(s'.left + s'.queue)
  {
    KeepSnoc(s.enqueued, id, Elements(s.removed));
    assert s'.left + s'.queue == (s.left + s.queue) + [id];
  }

  lemma AppendKeepsGood(s: World, id: JobId, s': World)
    requires Good(s) && Next(s, Append(id), s')
    ensures Good(s')
  {
    EnteringIsNew(s, id);
    StepConserves(s, Append(id), s');
    AppendKeepsOrder(s, id, s');
    forall x ensures Count(s'.enqueued, x) + s'.entering[x] == Count(s.enqueued, x) + s.entering[x]
    {
      CountConcat(s.enqueued, [id], x);
    }
  }

  lemma WithoutOne(s: seq<JobId>, k: nat)
    requires k < |s| && DuplicateFree(s)
    ensures s[k] !in s[..k] && s[k] !in s[k + 1..]
    ensures DuplicateFree(RemoveAt(s, k))
  {
  }

  lemma KeepRemovesOne(a: seq<JobId>, x: JobId, b: seq<JobId>)
    requires x !in a && x !in b
    ensures Keep(a + [x] + b, {x}) == a + b
  {
    KeepConcat(a + [x], b, {x});
    KeepSnoc(a, x, {x});
    KeepAll(a, {x});
    KeepAll(b, {x});
    assert a + [] == a;
  }

  lemma KeepRemovesQueued(left: seq<JobId>, queue: seq<JobId>, i: nat)
    requires i < |queue| && DuplicateFree(left + queue)
    ensures Keep(left + queue, {queue[i]}) == left + RemoveAt(queue, i)
    ensures DuplicateFree(left + RemoveAt(queue, i))
    ensures queue[i] in left + queue
  {
    var all, k := left + queue, |left| + i;
    var a, b := all[..k], all[k + 1..];
    assert all[k] == queue[i];
    WithoutOne(all, k);
    KeepRemovesOne(a, all[k], b);
    assert all == a + [all[k]] + b;
    assert a + b == left + RemoveAt(queue, i);
  }

  lemma RemovalKeepsOrder(s: World, i: nat, s': World)
    requires Good(s) && Next(s, RemoveQueued(i), s')
    ensures InOrder(s') && DuplicateFree(s'.left + s'.queue)
    ensures s.queue[i] in s.enqueued
  {
    KeepRemovesQueued(s.left, s.queue, i);
    KeepTwice(s.enqueued, Elements(s.removed), {s.queue[i]});
    assert Elements(s'.removed) == Elements(s.removed) + {s.queue[i]};
    KeepMembers(s.enqueued, Elements(s.removed));
  }

  lemma RemoveKeepsGood(s: World, i: nat, s': World)
    requires Good(s) && Next(s, RemoveQueued(i), s') && NoTryInProgress(s)
    ensures Good(s')
  {
    StepConserves(s, RemoveQueued(i), s');
    RemovalKeepsOrder(s, i, s');
  }

  lemma KeepDropsTail(a: seq<JobId>, b: seq<JobId>)
    requires DuplicateFree(a + b)
    ensures Keep(a + b, Elements(b)) == a && DuplicateFree(a)
  {
    assert forall i :: 0 <= i < |a| ==> (a + b)[i] == a[i];
    forall i, j | 0 <= i < |a| && 0 <= j < |b| ensures a[i] != b[j]
    {
      assert (a + b)[|a| + j] == b[j];
    }
    KeepConcat(a, b, Elements(b));
    KeepNone(b, Elements(b));
    KeepAll(a, Elements(b));
  }

  lemma ClearKeepsGood(s: World, s': World)
    requires Good(s) && Next(s, ClearQueue, s') && NoTryInProgress(s)
    ensures Good(s')
  {
    StepConserves(s, ClearQueue, s');
    KeepTwice(s.enqueued, Elements(s.removed), Elements(s.queue));
    assert Elements(s'.removed) == Elements(s.removed) + Elements(s.queue);
    KeepDropsTail(s.left, s.queue);
    KeepMembers(s.enqueued, Elements(s.removed));
    forall id | id in s'.removed ensures id in s'.enqueued
    {
      assert id in s.queue ==> id in s.left + s.queue;
    }
    assert s'.left + s'.queue == s.left;
  }

  lemma OnlyOneHeld(m: multiset<JobId>, id: JobId)
    requires |m| <= 1 && id in m
    ensures m == multiset{id}
  {
    assert m == (m - multiset{id}) + multiset{id};
  }

  lemma DequeueKeepsGood(s: World, id: JobId, s': World)
    requires Good(s) && Next(s, DequeueAfter(id), s')
    ensures Good(s')
  {
    OnlyOneHeld(s.attempted, id);
    assert id in s.peeked + s.attempted;
    StepConserves(s, DequeueAfter(id), s');
    assert s'.left + s'.queue == s.left + s.queue;
  }

  lemma AttemptKeepsGood(s: World, id: JobId, outcome: Outcome, s': World)
    requires Good(s) && Next(s, AttemptPeeked(id, outcome), s')
    ensures Good(s')
  {
    OnlyOneHeld(s.peeked, id);
    assert id in s.peeked + s.attempted;
    StepConserves(s, AttemptPeeked(id, outcome), s');
  }

  lemma SubmitKeepsGood(s: World, id: JobId, outcome: Outcome, s': World)
    requires Good(s) && Next(s, Submit(id, outcome), s')
    ensures Good(s')
  {
    StepConserves(s, Submit(id, outcome), s');
    assert DuplicateFree(s'.submitted);
    forall x ensures Count(s'.enqueued, x) + s'.entering[x] <= Count(s'.submitted, x)
    {
      CountConcat(s.submitted, [id], x);
    }
  }

  lemma GoodNext(s: World, step: Step, s': World)
    requires Good(s) && Next(s, step, s') && SingleFlight(s, step)
    ensures Good(s')
  {
    match step
    case Submit(id, outcome) => SubmitKeepsGood(s, id, outcome, s');
    case Append(id) => AppendKeepsGood(s, id, s');
    case PeekHead => StepConserves(s, step, s');
    case AttemptPeeked(id, outcome) => AttemptKeepsGood(s, id, outcome, s');
    case DequeueAfter(id) => DequeueKeepsGood(s, id, s');
    case RemoveQueued(i) => RemoveKeepsGood(s, i, s');
    case ClearQueue => ClearKeepsGood(s, s');
  }

  lemma {:induction false} SingleFlightKeepsGood(states: seq<World>, steps: seq<Step>, k: nat)
    requires SingleFlightRun(states, steps) && k < |states|
    ensures Good(states[k])
  {
    if k > 0 {
      SingleFlightKeepsGood(states, steps, k - 1);
      GoodNext(states[k - 1], steps[k - 1], states[k]);
    }
  }

  /** In every single-flight run, whenever no try is between attempt and dequeue, each
      submitted job is in exactly one of started, rejected, discarded, removed, queued or
      about to be appended; and jobs leave the head in the order they were enqueued. */
  lemma SchedulerConservesJobs(states: seq<World>, steps: seq<Step>, k: nat, id: JobId)
    requires SingleFlightRun(states, steps) && k < |states|
    ensures InOrder(states[k])
    ensures states[k].attempted == multiset{} ==> Places(states[k], id) == if id in states[k].submitted then 1 else 0
  {
    SingleFlightKeepsGood(states, steps, k);
    CountAtMostOne(states[k].submitted, id);
    assert Surplus(states[k], id) == 0;
    assert id in states[k].submitted <==> id in multiset(states[k].submitted);
  }

  // ---------- What overlapping tries do ----------

  /** Starting a twice and dropping a and b from the queue takes one place away from b. */
  lemma PairTaken(s: World, a: JobId, b: JobId)
    requires |s.queue| >= 2 && s.queue[0] == a && s.queue[1] == b && a != b
    ensures Count(s.queue, b) == Count(s.queue[2..], b) + 1
    ensures Count(s.started + [a, a], b) == Count(s.started, b)
  {
    assert s.queue == [a, b] + s.queue[2..];
    CountConcat([a, b], s.queue[2..], b);
    CountConcat(s.started, [a, a], b);
    assert Count([a, b], b) == 1 && Count([a, a], b) == 0;
  }

  /** Two overlapping tries peek the same head of any queue holding two jobs: the first job is
      started twice, and the second leaves the queue into no place at all. */
  lemma OverlappingTriesLoseJob(s: World, a: JobId, b: JobId) returns (path: seq<World>, steps: seq<Step>)
    requires NoTryInProgress(s) && |s.queue| >= 2 && s.queue[0] == a && s.queue[1] == b && a != b
    ensures |path| == |steps| + 1 && path[0] == s
    ensures forall k :: 0 <= k < |steps| ==> Next(path[k], steps[k], path[k + 1])
    ensures var s' := path[|steps|];
      && NoTryInProgress(s') && s'.queue == s.queue[2..] && s'.submitted == s.submitted
      && s'.started == s.started + [a, a]
      && Places(s', b) == Places(s, b) - 1
  {
    var two := multiset{a, a};
    assert multiset{a} + multiset{a} == two && two - multiset{a} == multiset{a};
    var s1 := s.(peeked := multiset{a});
    var s2 := s.(peeked := two);
    var s3 := s.(peeked := multiset{a}, attempted := multiset{a}, started := s.started + [a]);
    var s4 := s.(attempted := two, started := s.started + [a, a]);
    assert s3.started + [a] == s4.started;
    var s5 := s4.(attempted := multiset{a}, queue := s.queue[1..], left := s.left + [a]);
    var s6 := s5.(attempted := multiset{}, queue := s.queue[2..], left := s.left + [a] + [b]);
    assert s5.queue[1..] == s.queue[2..] && s5.queue[0] == b;
    path := [s, s1, s2, s3, s4, s5, s6];
    steps := [PeekHead, PeekHead, AttemptPeeked(a, Placed), AttemptPeeked(a, Placed), DequeueAfter(a), DequeueAfter(a)];
    PairTaken(s, a, b);
  }

  /** Such a queue is reached from the start by two submissions that find the runtimes busy. */
  lemma TwoJobsGetQueued(a: JobId, b: JobId) returns (states: seq<World>, steps: seq<Step>)
    requires a != b
    ensures SingleFlightRun(states, steps)
    ensures var s := states[|steps|]; NoTryInProgress(s) && s.queue == [a, b]
  {
    var s1 := EMPTY.(submitted := [a], entering := multiset{a});
    var s2 := EMPTY.(submitted := [a], queue := [a], enqueued := [a]);
    var s3 := s2.(submitted := [a, b], entering := multiset{b});
    var s4 := s3.(entering := multiset{}, queue := [a, b], enqueued := [a, b]);
    states := [EMPTY, s1, s2, s3, s4];
    steps := [Submit(a, AllBusy), Append(a), Submit(b, AllBusy), Append(b)];
  }

  // ---------- The class method is one uninterrupted try ----------

  /** A TryScheduleNext call on the queue of `s` with no step in between is the path peek,
      attempt and, unless busy, dequeue. */
  lemma TryIsPeekAttemptDequeue(h: Heuristic, before: State, s: World) returns (path: seq<World>, steps: seq<Step>)
    requires Ids(before.queue) == s.queue && before.started == s.started && NoTryInProgress(s)
    ensures |path| == |steps| + 1 && path[0] == s
    ensures forall k :: 0 <= k < |steps| ==> Next(path[k], steps[k], path[k + 1])
    ensures var after := Try(h, before).0;
      && NoTryInProgress(path[|steps|])
      && path[|steps|].queue == Ids(after.queue) && path[|steps|].started == after.started
  {
    if s.queue == [] {
      return [s], [];
    }
    var id := s.queue[0];
    var outcome := h(before.attempts, id, |s.queue| - 1);
    var peeked := s.(peeked := multiset{id});
    if outcome.AllBusy? {
      return [s, peeked, s], [PeekHead, AttemptPeeked(id, outcome)];
    }
    var attempted := s.(attempted := multiset{id},
                        started := s.started + if outcome.Placed? then [id] else [],
                        discarded := s.discarded + if outcome.Placed? then [] else [id]);
    var dequeued := attempted.(attempted := multiset{}, queue := s.queue[1..], left := s.left + [id]);
    path, steps := [s, peeked, attempted, dequeued], [PeekHead, AttemptPeeked(id, outcome), DequeueAfter(id)];
  }

  /** An EnqueueJob call for a new job with no step in between is a submission and, if every
      runtime is busy, the append. */
  lemma EnqueueIsSubmitAppend(before: State, s: World, id: JobId, outcome: Outcome, after: State)
      returns (path: seq<World>, steps: seq<Step>)
    requires Ids(before.queue) == s.queue && before.started == s.started && id !in s.submitted
    requires after.started == Attempt(before, id, outcome).started
    requires Ids(after.queue) == Ids(before.queue) + if outcome.AllBusy? then [id] else []
    ensures |path| == |steps| + 1 && path[0] == s
    ensures forall k :: 0 <= k < |steps| ==> Next(path[k], steps[k], path[k + 1])
    ensures var s' := path[|steps|];
      && s'.queue == Ids(after.queue) && s'.started == after.started && s'.entering == s.entering
      && s'.submitted == s.submitted + [id]
      && s'.rejected == s.rejected + if outcome.NoCompatible? || outcome.Failed? then [id] else []
  {
    var s1 := s.(submitted := s.submitted + [id]);
    match outcome {
      case Placed => return [s, s1.(started := s.started + [id])], [Submit(id, outcome)];
      case AllBusy =>
        var found := s1.(entering := s.entering + multiset{id});
        var queued := s1.(queue := s.queue + [id], enqueued := s.enqueued + [id]);
        assert found.entering - multiset{id} == s.entering;
        return [s, found, queued], [Submit(id, outcome), Append(id)];
      case _ => return [s, s1.(rejected := s.rejected + [id])], [Submit(id, outcome)];
    }
  }
}
