/** The lock-free queue as a step system: any number of producers and one consumer. */
module LockFreeQueue {
  import opened Options

  // Atomic accesses to head, tail and the next pointers are sequentially consistent.

  type Node = nat

  /** Where a producer is inside push. position is where its exchange put the old tail in the order of exchanges. */
  datatype Producer = Allocated(node: Node) | Exchanged(oldTail: Node, node: Node, position: int)

  /** Where the consumer is inside try_pop, or inside empty (Peeking). */
  datatype Consumer =
    | Rest
    | Loaded(oldHead: Node)
    | FoundNext(oldHead: Node, next: Node)
    | Swung(oldHead: Node, next: Node)
    | Taken(oldHead: Node)
    | Peeking(oldHead: Node)

  /** order, done and popped record the history: the nodes in the order of the tail exchanges
      (the dummy first), the place of head in it, and the values handed out. */
  datatype Queue<T> = Queue(
    head: Node,
    tail: Node,
    next: map<Node, Option<Node>>,
    value: map<Node, T>,
    producers: map<nat, Producer>,
    consumer: Consumer,
    freed: set<Node>,
    order: seq<Node>,
    done: nat,
    popped: seq<T>)

  datatype Step<T> =
    | Allocate(p: nat, node: Node, v: T)
    | ExchangeTail(p: nat)
    | Link(p: nat)
    | LoadHead
    | LoadNext
    | SwingHead(spuriousFailure: bool)
    | TakeValue
    | DeleteHead
    | PeekHead
    | PeekNext

  function Init<T>(dummy: Node): Queue<T> {
    Queue(dummy, dummy, map[dummy := None], map[], map[], Rest, {}, [dummy], 0, [])
  }

  predicate Enabled<T>(s: Queue<T>, step: Step<T>) {
    match step
    case Allocate(p, node, _) => p !in s.producers && node !in s.next
    case ExchangeTail(p) => p in s.producers && s.producers[p].Allocated?
    case Link(p) => p in s.producers && s.producers[p].Exchanged?
    case LoadHead => s.consumer.Rest?
    case LoadNext => s.consumer.Loaded? && s.consumer.oldHead in s.next
    case SwingHead(_) => s.consumer.FoundNext?
    case TakeValue => s.consumer.Swung? && s.consumer.next in s.value
    case DeleteHead => s.consumer.Taken?
    case PeekHead => s.consumer.Rest?
    case PeekNext => s.consumer.Peeking? && s.consumer.oldHead in s.next
  }

  /** The nodes a step reads from or writes to through a pointer. */
  function Touches<T>(s: Queue<T>, step: Step<T>): set<Node>
    requires Enabled(s, step)
  {
    match step
    case Link(p) => {s.producers[p].oldTail}
    case LoadNext => {s.consumer.oldHead}
    case TakeValue => {s.consumer.next}
    case DeleteHead => {s.consumer.oldHead}
    case PeekNext => {s.consumer.oldHead}
    case _ => {}
  }

  function Apply<T>(s: Queue<T>, step: Step<T>): Queue<T>
    requires Enabled(s, step)
  {
    match step
    case Allocate(p, node, v) =>
      s.(next := s.next[node := None], value := s.value[node := v], producers := s.producers[p := Allocated(node)])
    case ExchangeTail(p) =>
      var node := s.producers[p].node;
      s.(tail := node, producers := s.producers[p := Exchanged(s.tail, node, |s.order| - 1)], order := s.order + [node])
    case Link(p) =>
      var pr := s.producers[p];
      s.(next := s.next[pr.oldTail := Some(pr.node)], producers := s.producers - {p})
    case LoadHead => s.(consumer := Loaded(s.head))
    case LoadNext =>
      (match s.next[s.consumer.oldHead]
       case None => s.(consumer := Rest)
       case Some(n) => s.(consumer := FoundNext(s.consumer.oldHead, n)))
    case SwingHead(spuriousFailure) =>
      if s.head != s.consumer.oldHead || spuriousFailure then s.(consumer := Loaded(s.head))
      else s.(head := s.consumer.next, done := s.done + 1, consumer := Swung(s.consumer.oldHead, s.consumer.next))
    case TakeValue =>
      s.(popped := s.popped + [s.value[s.consumer.next]], consumer := Taken(s.consumer.oldHead))
    case DeleteHead =>
      s.(freed := s.freed + {s.consumer.oldHead}, consumer := Rest)
    case PeekHead => s.(consumer := Peeking(s.head))
    case PeekNext => s.(consumer := Rest)
  }

  /** The answer of empty, read at its second step. */
  predicate AnswersEmpty<T>(s: Queue<T>)
    requires Enabled(s, PeekNext)
  {
    s.next[s.consumer.oldHead] == None
  }

  /** A schedule: a step whose turn comes when it is not enabled does nothing. */
  function Execute<T>(s: Queue<T>, steps: seq<Step<T>>): Queue<T> {
    if steps == [] then s
    else
      var before := Execute(s, steps[..|steps| - 1]);
      var last := steps[|steps| - 1];
      if Enabled(before, last) then Apply(before, last) else before
  }

  /** The values in the order in which their pushes exchanged the tail, read off the schedule. */
  function PushedBy<T>(s: Queue<T>, steps: seq<Step<T>>): seq<T> {
    if steps == [] then []
    else
      var before := Execute(s, steps[..|steps| - 1]);
      var last := steps[|steps| - 1];
      var earlier := PushedBy(s, steps[..|steps| - 1]);
      if last.ExchangeTail? && Enabled(before, last) && before.producers[last.p].node in before.value
      then earlier + [before.value[before.producers[last.p].node]]
      else earlier
  }

  // ----- The invariant

  /** How many nodes at the front of the order are freed, and how many pushes have been handed out. */
  function FreedCount<T>(s: Queue<T>): int {
    if s.consumer.Swung? || s.consumer.Taken? then s.done - 1 else s.done
  }

  function PoppedCount<T>(s: Queue<T>): int {
    if s.consumer.Swung? then s.done - 1 else s.done
  }

  ghost predicate OrderInv<T>(s: Queue<T>) {
    && s.done < |s.order|
    && s.head == s.order[s.done] && s.tail == s.order[|s.order| - 1]
    && (forall i, j :: 0 <= i < j < |s.order| ==> s.order[i] != s.order[j])
    && (forall i :: 0 <= i < |s.order| ==> s.order[i] in s.next)
    && (forall i :: 1 <= i < |s.order| ==> s.order[i] in s.value)
  }

  /** Node i of the order is linked to node i + 1, or some producer is about to link it. */
  ghost predicate LinkedOrPending<T>(s: Queue<T>, i: nat)
    requires OrderInv(s) && i + 1 < |s.order|
  {
    || s.next[s.order[i]] == Some(s.order[i + 1])
    || (s.next[s.order[i]] == None && exists p :: p in s.producers && PendingAt(s, p, i))
  }

  ghost predicate PendingAt<T>(s: Queue<T>, p: nat, i: nat)
    requires p in s.producers
  {
    s.producers[p].Exchanged? && s.producers[p].position == i
  }

  ghost predicate ProducerInv<T>(s: Queue<T>, p: nat)
    requires OrderInv(s) && p in s.producers
  {
    match s.producers[p]
    case Allocated(node) =>
      node in s.next && s.next[node] == None && node in s.value && node !in s.order
    case Exchanged(oldTail, node, i) =>
      s.done <= i && i + 1 < |s.order| && oldTail == s.order[i] && node == s.order[i + 1] && s.next[oldTail] == None
  }

  ghost predicate ConsumerInv<T>(s: Queue<T>)
    requires OrderInv(s)
  {
    match s.consumer
    case Rest => true
    case Loaded(h) => h == s.head
    case Peeking(h) => h == s.head
    case FoundNext(h, n) => h == s.head && s.done + 1 < |s.order| && s.next[h] == Some(n) && n == s.order[s.done + 1]
    case Swung(h, n) => s.done >= 1 && h == s.order[s.done - 1] && n == s.head
    case Taken(h) => s.done >= 1 && h == s.order[s.done - 1]
  }

  ghost predicate LinkInv<T>(s: Queue<T>)
    requires OrderInv(s)
  {
    && (forall i: nat :: i < |s.order| - 1 ==> LinkedOrPending(s, i))
    && (forall i :: 0 <= i < s.done ==> s.next[s.order[i]] == Some(s.order[i + 1]))
    && s.next[s.tail] == None
  }

  ghost predicate ProducersInv<T>(s: Queue<T>)
    requires OrderInv(s)
  {
    && (forall p :: p in s.producers ==> ProducerInv(s, p))
    && (forall p, q :: p in s.producers && q in s.producers && p != q ==> s.producers[p].node != s.producers[q].node)
  }

  ghost predicate FreedInv<T>(s: Queue<T>)
    requires OrderInv(s) && ConsumerInv(s)
  {
    forall x :: x in s.freed <==> x in s.order[..FreedCount(s)]
  }

  ghost predicate PoppedInv<T>(s: Queue<T>)
    requires OrderInv(s) && ConsumerInv(s)
  {
    |s.popped| == PoppedCount(s) && forall i :: 0 <= i < |s.popped| ==> s.popped[i] == s.value[s.order[i + 1]]
  }

  ghost predicate Inv<T>(s: Queue<T>) {
    OrderInv(s) && LinkInv(s) && ProducersInv(s) && ConsumerInv(s) && FreedInv(s) && PoppedInv(s)
  }

  lemma InitInv<T>(dummy: Node)
    ensures Inv(Init<T>(dummy))
  {
  }

  lemma StepInv<T>(s: Queue<T>, step: Step<T>)
    requires Inv(s) && Enabled(s, step)
    ensures Inv(Apply(s, step))
  {
    match step
    case Allocate(p, node, v) => AllocateInv(s, step);
    case ExchangeTail(p) => ExchangeInv(s, step);
    case Link(p) => LinkStepInv(s, step);
    case _ => ConsumerStepInv(s, step);
  }

  lemma AllocateInv<T>(s: Queue<T>, step: Step<T>)
    requires Inv(s) && Enabled(s, step) && step.Allocate?
    ensures Inv(Apply(s, step))
  {
    AllocateKeepsOrder(s, step);
    AllocateKeepsLinks(s, step);
    AllocateKeepsProducers(s, step);
    AllocateKeepsFreed(s, step);
    hide *;
    InvAll(Apply(s, step));
  }

  lemma InvAll<T>(s: Queue<T>)
    requires OrderInv(s) && LinkInv(s) && ProducersInv(s) && ConsumerInv(s) && FreedInv(s) && PoppedInv(s)
    ensures Inv(s)
  {
  }

  lemma AllocateKeepsOrder<T>(s: Queue<T>, step: Step<T>)
    requires Inv(s) && Enabled(s, step) && step.Allocate?
    ensures OrderInv(Apply(s, step)) && ConsumerInv(Apply(s, step))
  {
    hide LinkInv, ProducersInv, FreedInv, PoppedInv;
  }

  lemma AllocateKeepsLinks<T>(s: Queue<T>, step: Step<T>)
    requires Inv(s) && Enabled(s, step) && step.Allocate? && OrderInv(Apply(s, step))
    ensures LinkInv(Apply(s, step))
  {
    hide FreedInv, PoppedInv, ConsumerInv, ProducersInv;
    var s' := Apply(s, step);
    forall i: nat | i < |s'.order| - 1 ensures LinkedOrPending(s', i) {
      StillLinkedOrPending(s, s', i);
    }
  }

  lemma AllocateKeepsProducers<T>(s: Queue<T>, step: Step<T>)
    requires Inv(s) && Enabled(s, step) && step.Allocate? && OrderInv(Apply(s, step))
    ensures ProducersInv(Apply(s, step))
  {
    hide FreedInv, PoppedInv, ConsumerInv, LinkInv;
    var s' := Apply(s, step);
    forall p | p in s'.producers ensures ProducerInv(s', p) {
      assert p in s.producers ==> ProducerInv(s, p);
    }
  }

  lemma AllocateKeepsFreed<T>(s: Queue<T>, step: Step<T>)
    requires Inv(s) && Enabled(s, step) && step.Allocate?
    requires OrderInv(Apply(s, step)) && ConsumerInv(Apply(s, step))
    ensures FreedInv(Apply(s, step)) && PoppedInv(Apply(s, step))
  {
    hide LinkInv, ProducersInv;
  }

  /** A node whose next pointer did not change stays linked or pending while its producer does. */
  lemma StillLinkedOrPending<T>(s: Queue<T>, s': Queue<T>, i: nat)
    requires OrderInv(s) && OrderInv(s') && s.order <= s'.order && i + 1 < |s.order|
    requires LinkedOrPending(s, i) && s'.next[s.order[i]] == s.next[s.order[i]]
    requires forall p :: p in s.producers && PendingAt(s, p, i) ==> p in s'.producers && PendingAt(s', p, i)
    ensures LinkedOrPending(s', i)
  {
    if s.next[s.order[i]] == None {
      var p :| p in s.producers && PendingAt(s, p, i);
      assert PendingAt(s', p, i);
    }
  }

  lemma ExchangeKeepsOrder<T>(s: Queue<T>, step: Step<T>)
    requires Inv(s) && Enabled(s, step) && step.ExchangeTail?
    ensures OrderInv(Apply(s, step)) && ConsumerInv(Apply(s, step))
  {
    assert ProducerInv(s, step.p);
  }

  lemma ExchangeKeepsLinks<T>(s: Queue<T>, step: Step<T>)
    requires Inv(s) && Enabled(s, step) && step.ExchangeTail? && OrderInv(Apply(s, step))
    ensures LinkInv(Apply(s, step))
  {
    var s' := Apply(s, step);
    assert ProducerInv(s, step.p);
    forall i: nat | i < |s'.order| - 1 ensures LinkedOrPending(s', i) {
      if i < |s.order| - 1 {
        StillLinkedOrPending(s, s', i);
      } else {
        assert PendingAt(s', step.p, i);
      }
    }
  }

  lemma ExchangeKeepsProducers<T>(s: Queue<T>, step: Step<T>)
    requires Inv(s) && Enabled(s, step) && step.ExchangeTail? && OrderInv(Apply(s, step))
    ensures ProducersInv(Apply(s, step))
  {
    hide ConsumerInv, FreedInv, PoppedInv, LinkedOrPending, ProducerInv;
    var s' := Apply(s, step);
    forall p | p in s'.producers ensures ProducerInv(s', p) {
      ExchangeKeepsProducer(s, step, p);
    }
  }

  lemma ExchangeKeepsProducer<T>(s: Queue<T>, step: Step<T>, p: nat)
    requires Inv(s) && Enabled(s, step) && step.ExchangeTail? && OrderInv(Apply(s, step))
    requires p in Apply(s, step).producers
    ensures ProducerInv(Apply(s, step), p)
  {
    hide ConsumerInv, FreedInv, PoppedInv, LinkedOrPending;
    assert ProducerInv(s, p) && ProducerInv(s, step.p);
    assert p != step.p ==> s.producers[p].node != s.producers[step.p].node;
  }

  lemma ExchangeInv<T>(s: Queue<T>, step: Step<T>)
    requires Inv(s) && Enabled(s, step) && step.ExchangeTail?
    ensures Inv(Apply(s, step))
  {
    var s' := Apply(s, step);
    ExchangeKeepsOrder(s, step);
    ExchangeKeepsLinks(s, step);
    ExchangeKeepsProducers(s, step);
    assert s'.order[..FreedCount(s')] == s.order[..FreedCount(s)];
    assert FreedInv(s') && PoppedInv(s') by {
      hide LinkInv, ProducersInv;
    }
  }

  lemma LinkStepInv<T>(s: Queue<T>, step: Step<T>)
    requires Inv(s) && Enabled(s, step) && step.Link?
    ensures Inv(Apply(s, step))
  {
    LinkKeepsOrder(s, step);
    LinkKeepsLinks(s, step);
    LinkKeepsProducers(s, step);
    LinkKeepsFreed(s, step);
    hide *;
    InvAll(Apply(s, step));
  }

  lemma LinkKeepsOrder<T>(s: Queue<T>, step: Step<T>)
    requires Inv(s) && Enabled(s, step) && step.Link?
    ensures OrderInv(Apply(s, step)) && ConsumerInv(Apply(s, step))
  {
    hide LinkInv, FreedInv, PoppedInv;
    assert ProducerInv(s, step.p);
  }

  lemma LinkKeepsLinks<T>(s: Queue<T>, step: Step<T>)
    requires Inv(s) && Enabled(s, step) && step.Link? && OrderInv(Apply(s, step))
    ensures LinkInv(Apply(s, step))
  {
    hide ConsumerInv, FreedInv, PoppedInv;
    var s' := Apply(s, step);
    assert ProducerInv(s, step.p);
    forall i: nat | i < |s'.order| - 1 ensures LinkedOrPending(s', i) {
      if i != s.producers[step.p].position {
        StillLinkedOrPending(s, s', i);
      }
    }
  }

  lemma LinkKeepsProducers<T>(s: Queue<T>, step: Step<T>)
    requires Inv(s) && Enabled(s, step) && step.Link? && OrderInv(Apply(s, step))
    ensures ProducersInv(Apply(s, step))
  {
    var s' := Apply(s, step);
    hide LinkInv, ConsumerInv, FreedInv, PoppedInv, ProducerInv;
    forall p | p in s'.producers ensures ProducerInv(s', p) {
      OtherProducerKept(s, step, p);
    }
  }

  lemma LinkKeepsFreed<T>(s: Queue<T>, step: Step<T>)
    requires Inv(s) && Enabled(s, step) && step.Link?
    requires OrderInv(Apply(s, step)) && ConsumerInv(Apply(s, step))
    ensures FreedInv(Apply(s, step)) && PoppedInv(Apply(s, step))
  {
    hide LinkInv, ProducersInv;
  }

  lemma OtherProducerKept<T>(s: Queue<T>, step: Step<T>, p: nat)
    requires Inv(s) && Enabled(s, step) && step.Link? && p in s.producers && p != step.p
    requires OrderInv(Apply(s, step))
    ensures ProducerInv(Apply(s, step), p)
  {
    hide LinkInv, ConsumerInv, FreedInv, PoppedInv;
    assert ProducerInv(s, p) && ProducerInv(s, step.p);
    assert s.producers[p].node != s.producers[step.p].node;
  }

  /** The consumer's steps leave the list, the producers and the order alone. */
  lemma ConsumerStepInv<T>(s: Queue<T>, step: Step<T>)
    requires Inv(s) && Enabled(s, step) && !step.Allocate? && !step.ExchangeTail? && !step.Link?
    ensures Inv(Apply(s, step))
  {
    hide LinkInv, ProducersInv, FreedInv, PoppedInv;
    ConsumerKeepsOrder(s, step);
    ConsumerKeepsLinks(s, step);
    ConsumerKeepsFreed(s, step);
    ConsumerKeepsPopped(s, step);
  }

  lemma ConsumerKeepsLinks<T>(s: Queue<T>, step: Step<T>)
    requires Inv(s) && Enabled(s, step) && !step.Allocate? && !step.ExchangeTail? && !step.Link?
    requires OrderInv(Apply(s, step)) && ConsumerInv(Apply(s, step))
    requires forall p :: p in s.producers && s.producers[p].Exchanged? ==>
      Apply(s, step).done <= s.producers[p].position
    ensures LinkInv(Apply(s, step)) && ProducersInv(Apply(s, step))
  {
    var s' := Apply(s, step);
    ConsumerFrame(s, step);
    hide *;
    InvParts(s);
    FramedLinks(s, s');
  }

  lemma InvParts<T>(s: Queue<T>)
    requires Inv(s)
    ensures OrderInv(s) && LinkInv(s) && ProducersInv(s)
  {
  }

  /** The consumer leaves the list and the producers alone, except that it may advance by one node. */
  lemma ConsumerFrame<T>(s: Queue<T>, step: Step<T>)
    requires Inv(s) && Enabled(s, step) && !step.Allocate? && !step.ExchangeTail? && !step.Link?
    ensures var s' := Apply(s, step);
      && s'.next == s.next && s'.order == s.order && s'.producers == s.producers && s'.value == s.value
      && s'.tail == s.tail && s.done <= s'.done <= s.done + 1
      && (s'.done == s.done + 1 ==> s.done + 1 < |s.order| && s.next[s.head] == Some(s.order[s.done + 1]))
  {
    if step.SwingHead? {
      SwingFacts(s);
    }
    hide OrderInv, ConsumerInv, LinkInv, ProducersInv, FreedInv, PoppedInv;
  }

  lemma SwingFacts<T>(s: Queue<T>)
    requires Inv(s) && s.consumer.FoundNext?
    ensures s.done + 1 < |s.order| && s.head in s.next && s.next[s.head] == Some(s.order[s.done + 1])
  {
    hide LinkInv, ProducersInv, FreedInv, PoppedInv;
  }

  lemma FramedLinks<T>(s: Queue<T>, s': Queue<T>)
    requires OrderInv(s) && OrderInv(s') && LinkInv(s) && ProducersInv(s)
    requires s'.next == s.next && s'.order == s.order && s'.producers == s.producers && s'.value == s.value
    requires s'.tail == s.tail && s.done <= s'.done <= s.done + 1
    requires s'.done == s.done + 1 ==> s.next[s.head] == Some(s.order[s.done + 1])
    requires forall p :: p in s.producers && s.producers[p].Exchanged? ==> s'.done <= s.producers[p].position
    ensures LinkInv(s') && ProducersInv(s')
  {
    forall i: nat | i < |s'.order| - 1 ensures LinkedOrPending(s', i) {
      StillLinkedOrPending(s, s', i);
    }
    forall p | p in s'.producers ensures ProducerInv(s', p) {
      assert ProducerInv(s, p);
    }
  }

  lemma ConsumerKeepsOrder<T>(s: Queue<T>, step: Step<T>)
    requires Inv(s) && Enabled(s, step) && !step.Allocate? && !step.ExchangeTail? && !step.Link?
    ensures OrderInv(Apply(s, step)) && ConsumerInv(Apply(s, step))
    ensures forall p :: p in s.producers && s.producers[p].Exchanged? ==> Apply(s, step).done <= s.producers[p].position
  {
    match step
    case LoadNext => LoadNextKeepsOrder(s, step);
    case SwingHead(_) => SwingKeepsOrder(s, step);
    case _ => OtherKeepsOrder(s, step);
    PendingBehindHead(s, step);
  }

  lemma LoadNextKeepsOrder<T>(s: Queue<T>, step: Step<T>)
    requires Inv(s) && Enabled(s, step) && step.LoadNext?
    ensures OrderInv(Apply(s, step)) && ConsumerInv(Apply(s, step))
  {
    hide FreedInv, PoppedInv, ProducersInv;
    if s.done + 1 < |s.order| {
      assert LinkedOrPending(s, s.done);
    }
  }

  lemma SwingKeepsOrder<T>(s: Queue<T>, step: Step<T>)
    requires Inv(s) && Enabled(s, step) && step.SwingHead?
    ensures OrderInv(Apply(s, step)) && ConsumerInv(Apply(s, step))
  {
    hide LinkInv, FreedInv, PoppedInv, ProducersInv;
  }

  lemma OtherKeepsOrder<T>(s: Queue<T>, step: Step<T>)
    requires Inv(s) && Enabled(s, step) && !step.Allocate? && !step.ExchangeTail? && !step.Link?
      && !step.LoadNext? && !step.SwingHead?
    ensures OrderInv(Apply(s, step)) && ConsumerInv(Apply(s, step))
  {
    hide LinkInv, FreedInv, PoppedInv, ProducersInv;
  }

  /** head never moves past a node whose successor is not yet linked. */
  lemma PendingBehindHead<T>(s: Queue<T>, step: Step<T>)
    requires Inv(s) && Enabled(s, step) && !step.Allocate? && !step.ExchangeTail? && !step.Link?
    ensures forall p :: p in s.producers && s.producers[p].Exchanged? ==> Apply(s, step).done <= s.producers[p].position
  {
    ConsumerFrame(s, step);
    hide LinkInv, FreedInv, PoppedInv, Apply, Enabled;
    forall p | p in s.producers && s.producers[p].Exchanged? ensures Apply(s, step).done <= s.producers[p].position {
      assert ProducerInv(s, p);
    }
  }

  lemma ConsumerKeepsFreed<T>(s: Queue<T>, step: Step<T>)
    requires Inv(s) && Enabled(s, step) && !step.Allocate? && !step.ExchangeTail? && !step.Link?
    requires OrderInv(Apply(s, step)) && ConsumerInv(Apply(s, step))
    ensures FreedInv(Apply(s, step))
  {
    hide LinkInv, ProducersInv, PoppedInv;
    if step.DeleteHead? {
      DeleteKeepsFreed(s, step);
    } else {
      assert FreedCount(Apply(s, step)) == FreedCount(s);
    }
  }

  lemma DeleteKeepsFreed<T>(s: Queue<T>, step: Step<T>)
    requires Inv(s) && Enabled(s, step) && step.DeleteHead?
    requires OrderInv(Apply(s, step)) && ConsumerInv(Apply(s, step))
    ensures FreedInv(Apply(s, step))
  {
    hide LinkInv, ProducersInv, PoppedInv;
    assert s.order[..s.done] == s.order[..s.done - 1] + [s.consumer.oldHead];
  }

  lemma ConsumerKeepsPopped<T>(s: Queue<T>, step: Step<T>)
    requires Inv(s) && Enabled(s, step) && !step.Allocate? && !step.ExchangeTail? && !step.Link?
    requires OrderInv(Apply(s, step)) && ConsumerInv(Apply(s, step))
    ensures PoppedInv(Apply(s, step))
  {
    hide LinkInv, ProducersInv, FreedInv;
    if step.TakeValue? {
      assert s.consumer.next == s.order[s.done];
    }
  }

  lemma {:induction false} ReachableInv<T>(dummy: Node, steps: seq<Step<T>>)
    ensures Inv(Execute(Init<T>(dummy), steps))
  {
    if steps == [] {
      InitInv<T>(dummy);
    } else {
      ReachableInv(dummy, steps[..|steps| - 1]);
      var before := Execute(Init<T>(dummy), steps[..|steps| - 1]);
      if Enabled(before, steps[|steps| - 1]) {
        StepInv(before, steps[|steps| - 1]);
      }
    }
  }

  // ----- First in, first out

  /** The values of the exchanged nodes, the dummy left out. */
  function Contents<T>(s: Queue<T>): seq<T>
    requires forall i :: 1 <= i < |s.order| ==> s.order[i] in s.value
  {
    seq(if |s.order| == 0 then 0 else |s.order| - 1, i requires 0 <= i < |s.order| - 1 => s.value[s.order[i + 1]])
  }

  lemma {:induction false} ContentsArePushed<T>(dummy: Node, steps: seq<Step<T>>)
    ensures var s := Execute(Init<T>(dummy), steps); Inv(s) && Contents(s) == PushedBy(Init<T>(dummy), steps)
  {
    ReachableInv(dummy, steps);
    if steps != [] {
      var init := Init<T>(dummy);
      var before, last := Execute(init, steps[..|steps| - 1]), steps[|steps| - 1];
      ContentsArePushed(dummy, steps[..|steps| - 1]);
      if Enabled(before, last) {
        ContentsGrow(before, last);
      }
    }
  }

  lemma ContentsGrow<T>(s: Queue<T>, step: Step<T>)
    requires Inv(s) && Enabled(s, step) && Inv(Apply(s, step))
    ensures step.ExchangeTail? ==> s.producers[step.p].node in s.value
    ensures Contents(Apply(s, step)) ==
      if step.ExchangeTail? then Contents(s) + [s.value[s.producers[step.p].node]] else Contents(s)
  {
    hide LinkInv, FreedInv, PoppedInv;
    var s' := Apply(s, step);
    if step.ExchangeTail? {
      assert ProducerInv(s, step.p);
      assert Contents(s') == Contents(s) + [s.value[s.producers[step.p].node]];
    } else {
      assert Contents(s') == Contents(s);
    }
  }

  /** In every schedule the values handed out are a prefix of the values in tail-exchange order:
      none lost, duplicated or reordered. */
  lemma PopsAreAPrefixOfPushes<T>(dummy: Node, steps: seq<Step<T>>)
    ensures var s := Execute(Init<T>(dummy), steps);
      s.popped <= PushedBy(Init<T>(dummy), steps)
  {
    ContentsArePushed(dummy, steps);
    PoppedIsPrefix(Execute(Init<T>(dummy), steps));
  }

  lemma PoppedIsPrefix<T>(s: Queue<T>)
    requires Inv(s)
    ensures s.popped <= Contents(s)
  {
    hide LinkInv, ProducersInv, FreedInv;
    assert s.popped == Contents(s)[..|s.popped|];
  }

  ghost predicate NoPushInFlight<T>(s: Queue<T>) {
    forall p :: p in s.producers ==> s.producers[p].Allocated?
  }

  /** When try_pop is about to read a null next pointer, it reports empty; this is wrong about
      some pushed value exactly when the push behind head is between its exchange and its link. */
  lemma ReportsEmpty<T>(dummy: Node, steps: seq<Step<T>>)
    ensures var s := Execute(Init<T>(dummy), steps);
      s.consumer.Loaded? || s.consumer.Peeking? ==>
        && s.consumer.oldHead in s.next
        && (s.next[s.consumer.oldHead] == None <==>
             s.popped == PushedBy(Init<T>(dummy), steps) || exists p :: p in s.producers && PendingAt(s, p, s.done))
        && (NoPushInFlight(s) ==>
             (s.next[s.consumer.oldHead] == None <==> s.popped == PushedBy(Init<T>(dummy), steps)))
  {
    ContentsArePushed(dummy, steps);
    hide Execute, PushedBy, FreedInv;
    var s := Execute(Init<T>(dummy), steps);
    if s.consumer.Loaded? || s.consumer.Peeking? {
      assert |Contents(s)| == |s.order| - 1;
      forall p | p in s.producers && PendingAt(s, p, s.done) ensures s.next[s.head] == None {
        assert ProducerInv(s, p);
      }
      if s.done + 1 < |s.order| {
        assert LinkedOrPending(s, s.done);
      } else {
        assert s.popped == Contents(s);
      }
    }
  }

  /** empty says yes exactly when everything pushed was popped or the push behind head is between its
      exchange and its link; when it says no, a value is there to be popped. */
  lemma EmptyAnswers<T>(dummy: Node, steps: seq<Step<T>>)
    ensures var s := Execute(Init<T>(dummy), steps);
      s.consumer.Peeking? ==>
        && Enabled(s, PeekNext)
        && (AnswersEmpty(s) <==>
             s.popped == PushedBy(Init<T>(dummy), steps) || exists p :: p in s.producers && PendingAt(s, p, s.done))
        && (NoPushInFlight(s) ==> (AnswersEmpty(s) <==> s.popped == PushedBy(Init<T>(dummy), steps)))
        && (!AnswersEmpty(s) ==> |s.popped| < |PushedBy(Init<T>(dummy), steps)|)
  {
    ReportsEmpty(dummy, steps);
    PopsAreAPrefixOfPushes(dummy, steps);
    hide Execute, PushedBy;
  }

  // ----- Memory safety

  /** No step of any schedule dereferences a deleted node, nothing is deleted twice, and no live
      pointer (head, tail, a pending old tail, a new node) refers to a deleted node. */
  lemma NeverTouchesFreed<T>(dummy: Node, steps: seq<Step<T>>, step: Step<T>)
    ensures var s := Execute(Init<T>(dummy), steps);
      && (Enabled(s, step) ==> Touches(s, step) !! s.freed)
      && s.head !in s.freed && s.tail !in s.freed
      && (forall p :: p in s.producers ==> s.producers[p].node !in s.freed)
      && (forall p :: p in s.producers && s.producers[p].Exchanged? ==> s.producers[p].oldTail !in s.freed)
      && (!s.consumer.Rest? ==> s.consumer.oldHead !in s.freed)
      && (s.consumer.FoundNext? || s.consumer.Swung? ==> s.consumer.next !in s.freed)
  {
    ReachableInv(dummy, steps);
    var s := Execute(Init<T>(dummy), steps);
    forall i | FreedCount(s) <= i < |s.order| ensures s.order[i] !in s.freed {
      LaterNotFreed(s, i);
    }
    forall p | p in s.producers
      ensures s.producers[p].node !in s.freed
      ensures s.producers[p].Exchanged? ==> s.producers[p].oldTail !in s.freed
    {
      assert ProducerInv(s, p);
    }
  }

  lemma LaterNotFreed<T>(s: Queue<T>, i: nat)
    requires Inv(s) && FreedCount(s) <= i < |s.order|
    ensures s.order[i] !in s.freed
  {
  }

  // ----- Draining and destruction

  /** One uncontended try_pop: with nothing in flight it hands out the next value, if there is one. */
  lemma PopDelivers<T>(s: Queue<T>) returns (s': Queue<T>)
    requires Inv(s) && s.consumer.Rest? && NoPushInFlight(s) && s.done + 1 < |s.order|
    ensures s' == Execute(s, [LoadHead, LoadNext, SwingHead(false), TakeValue, DeleteHead])
    ensures Inv(s') && s'.consumer.Rest? && NoPushInFlight(s') && s'.order == s.order && s'.done == s.done + 1
    ensures s'.value == s.value && s'.popped == s.popped + [s.value[s.order[s.done + 1]]]
  {
    assert LinkedOrPending(s, s.done);
    var a := LoadsNext(s);
    var b := SwingsHead(a);
    s' := TakesAndDeletes(b);
    var load: seq<Step<T>>, swing: seq<Step<T>>, take: seq<Step<T>> :=
      [LoadHead, LoadNext], [SwingHead(false)], [TakeValue, DeleteHead];
    RunsCompose(s, load, swing);
    RunsCompose(s, load + swing, take);
    assert load + swing + take == [LoadHead, LoadNext, SwingHead(false), TakeValue, DeleteHead];
  }

  lemma {:induction false} RunsCompose<T>(s: Queue<T>, a: seq<Step<T>>, b: seq<Step<T>>)
    ensures Execute(s, a + b) == Execute(Execute(s, a), b)
  {
    hide Apply, Enabled;
    if b == [] {
      assert a + b == a;
    } else {
      RunsCompose(s, a, b[..|b| - 1]);
      assert (a + b)[..|a + b| - 1] == a + b[..|b| - 1];
    }
  }

  lemma ExecuteOne<T>(s: Queue<T>, step: Step<T>)
    requires Inv(s) && Enabled(s, step)
    ensures Execute(s, [step]) == Apply(s, step) && Inv(Apply(s, step))
  {
    StepInv(s, step);
    assert Execute(s, []) == s;
  }

  lemma ExecuteTwo<T>(s: Queue<T>, one: Step<T>, two: Step<T>)
    requires Inv(s) && Enabled(s, one) && Enabled(Apply(s, one), two)
    ensures Execute(s, [one, two]) == Apply(Apply(s, one), two) && Inv(Apply(Apply(s, one), two))
  {
    ExecuteOne(s, one);
    ExecuteOne(Apply(s, one), two);
    RunsCompose(s, [one], [two]);
    assert [one] + [two] == [one, two];
  }

  lemma LoadsNext<T>(s: Queue<T>) returns (t: Queue<T>)
    requires Inv(s) && s.consumer.Rest? && s.done + 1 < |s.order|
    requires s.next[s.head] == Some(s.order[s.done + 1])
    ensures t == Execute(s, [LoadHead, LoadNext]) && Inv(t)
    ensures t == s.(consumer := FoundNext(s.head, s.order[s.done + 1]))
  {
    t := s.(consumer := FoundNext(s.head, s.order[s.done + 1]));
    assert Apply(s, LoadHead) == s.(consumer := Loaded(s.head));
    ExecuteTwo(s, LoadHead, LoadNext);
  }

  lemma SwingsHead<T>(s: Queue<T>) returns (t: Queue<T>)
    requires Inv(s) && s.consumer.FoundNext?
    ensures t == Execute(s, [SwingHead(false)]) && Inv(t)
    ensures t == s.(head := s.consumer.next, done := s.done + 1, consumer := Swung(s.consumer.oldHead, s.consumer.next))
  {
    ExecuteOne(s, SwingHead(false));
    t := Apply(s, SwingHead(false));
  }

  lemma TakesAndDeletes<T>(s: Queue<T>) returns (t: Queue<T>)
    requires Inv(s) && s.consumer.Swung?
    ensures t == Execute(s, [TakeValue, DeleteHead]) && Inv(t)
    ensures t.consumer == Rest && t.order == s.order && t.done == s.done && t.value == s.value
    ensures t.producers == s.producers && t.popped == s.popped + [s.value[s.order[s.done]]]
  {
    ExecuteTwo(s, TakeValue, DeleteHead);
    t := Apply(Apply(s, TakeValue), DeleteHead);
  }

  /** A pop deletes the node that was head before it. So a thread that loaded head before the pop must
      not read its next pointer after it: empty is for the consumer alone. */
  lemma HeadFreedByPop<T>(s: Queue<T>)
    requires Inv(s) && s.consumer.Rest? && NoPushInFlight(s) && s.done + 1 < |s.order|
    ensures s.head in Execute(s, [LoadHead, LoadNext, SwingHead(false), TakeValue, DeleteHead]).freed
  {
    var s' := PopDelivers(s);
    FreedInFront(s');
    HeadPlace(s);
    hide *;
    assert s'.order[..s'.done][s.done] == s.head;
  }

  lemma HeadPlace<T>(s: Queue<T>)
    requires Inv(s)
    ensures s.done < |s.order| && s.head == s.order[s.done]
  {
  }

  /** Once every push has finished, enough pops hand out everything that was pushed. */
  lemma {:induction false} DrainDeliversAll<T>(s: Queue<T>) returns (s': Queue<T>)
    requires Inv(s) && s.consumer.Rest? && NoPushInFlight(s)
    ensures Inv(s') && s'.order == s.order && s'.value == s.value && s'.popped == Contents(s)
    decreases |s.order| - s.done
  {
    if s.done + 1 < |s.order| {
      var t := PopDelivers(s);
      s' := DrainDeliversAll(t);
      assert Contents(t) == Contents(s);
    } else {
      s' := s;
    }
  }

  /** Every node ever allocated has been exchanged in or still belongs to its producer. */
  ghost predicate NoneLeaked<T>(s: Queue<T>) {
    forall x :: x in s.next ==> x in s.order || exists p :: p in s.producers && s.producers[p] == Allocated(x)
  }

  lemma {:induction false} ReachableNoneLeaked<T>(dummy: Node, steps: seq<Step<T>>)
    ensures NoneLeaked(Execute(Init<T>(dummy), steps))
  {
    if steps != [] {
      var before, last := Execute(Init<T>(dummy), steps[..|steps| - 1]), steps[|steps| - 1];
      ReachableNoneLeaked(dummy, steps[..|steps| - 1]);
      ReachableInv(dummy, steps[..|steps| - 1]);
      if Enabled(before, last) {
        StepLeaksNothing(before, last);
      }
    }
  }

  lemma StepLeaksNothing<T>(s: Queue<T>, step: Step<T>)
    requires Inv(s) && NoneLeaked(s) && Enabled(s, step)
    ensures NoneLeaked(Apply(s, step))
  {
    var s' := Apply(s, step);
    forall x | x in s'.next
      ensures x in s'.order || exists p :: p in s'.producers && s'.producers[p] == Allocated(x)
    {
      NodeNotLeaked(s, step, x);
    }
  }

  lemma NodeNotLeaked<T>(s: Queue<T>, step: Step<T>, x: Node)
    requires Inv(s) && NoneLeaked(s) && Enabled(s, step) && x in Apply(s, step).next
    ensures var s' := Apply(s, step);
      x in s'.order || exists p :: p in s'.producers && s'.producers[p] == Allocated(x)
  {
    var s' := Apply(s, step);
    hide Inv, OrderInv, LinkInv, ProducersInv, FreedInv, PoppedInv, ConsumerInv;
    if !step.Allocate? && !step.ExchangeTail? && !step.Link? {
      ConsumerFrame(s, step);
      hide Apply, Enabled;
    } else if step.Allocate? && x == step.node {
      assert s'.producers[step.p] == Allocated(x);
    } else if x !in s.order {
      var p :| p in s.producers && s.producers[p] == Allocated(x);
      if step.ExchangeTail? && step.p == p {
        assert s'.order[|s.order|] == x;
      } else {
        assert p in s'.producers && s'.producers[p] == Allocated(x);
      }
    }
  }

  lemma NothingLeftOver<T>(s: Queue<T>, deleted: seq<Node>)
    requires Inv(s) && NoneLeaked(s)
    requires s.consumer.Rest? && s.producers == map[] && s.done < |s.order| && deleted == s.order[s.done..]
    ensures forall x :: x in s.next <==> x in s.freed || x in deleted
  {
    FreedInFront(s);
    LeftOverNodes(s);
    hide *;
    SplitMembers(s.order, s.done);
  }

  lemma SplitMembers(order: seq<Node>, k: nat)
    requires k <= |order|
    ensures forall x :: x in order <==> x in order[..k] || x in order[k..]
  {
    assert order == order[..k] + order[k..];
  }

  lemma FreedInFront<T>(s: Queue<T>)
    requires Inv(s) && s.consumer.Rest?
    ensures s.done < |s.order|
    ensures forall x :: x in s.freed <==> x in s.order[..s.done]
  {
    hide LinkInv, ProducersInv, PoppedInv;
  }

  lemma LeftOverNodes<T>(s: Queue<T>)
    requires Inv(s) && NoneLeaked(s) && s.producers == map[]
    ensures forall x :: x in s.next <==> x in s.order
  {
    hide LinkInv, ProducersInv, PoppedInv, ConsumerInv, FreedInv;
  }

  /** After the last push has returned, destruction leaves no node that was ever allocated unfreed. */
  lemma DestructionFreesAll<T>(dummy: Node, steps: seq<Step<T>>, deleted: seq<Node>)
    requires var s := Execute(Init<T>(dummy), steps);
      s.consumer.Rest? && s.producers == map[] && s.done < |s.order| && deleted == s.order[s.done..]
    ensures var s := Execute(Init<T>(dummy), steps);
      forall x :: x in s.next <==> x in s.freed || x in deleted
  {
    hide *;
    ReachableInv(dummy, steps);
    ReachableNoneLeaked(dummy, steps);
    NothingLeftOver(Execute(Init<T>(dummy), steps), deleted);
  }

  /** The destructor: walks the list from head, deleting each node once. With no operation in
      flight the deleted nodes are exactly those exchanged in and not yet freed. */
  method Destroy<T>(s: Queue<T>) returns (deleted: seq<Node>)
    requires Inv(s) && s.consumer.Rest? && NoPushInFlight(s)
    ensures deleted == s.order[s.done..]
    ensures forall x :: x in deleted ==> x !in s.freed
    ensures forall x :: x in s.order <==> x in s.freed || x in deleted
    ensures forall i, j :: 0 <= i < j < |deleted| ==> deleted[i] != deleted[j]
  {
    hide *;
    NextNode(s, s.done);
    RestOfList(s);
    deleted := [];
    var head := Some(s.head);
    ghost var i := s.done;
    while head != None
      invariant s.done <= i <= |s.order| && deleted == s.order[s.done..i]
      invariant head == if i < |s.order| then Some(s.order[i]) else None
      decreases |s.order| - i
    {
      LongerSlice(s.order, s.done, i);
      NextNode(s, i);
      var oldHead := head.value;
      head := s.next[oldHead];
      deleted := deleted + [oldHead];
      i := i + 1;
    }
    assert deleted == s.order[s.done..];
  }

  lemma NextNode<T>(s: Queue<T>, i: nat)
    requires Inv(s) && s.consumer.Rest? && NoPushInFlight(s) && s.done <= i
    ensures s.done < |s.order| && s.head == s.order[s.done]
    ensures i < |s.order| ==>
      && s.order[i] in s.next
      && s.next[s.order[i]] == if i + 1 < |s.order| then Some(s.order[i + 1]) else None
  {
    NextInOrder(s);
  }

  lemma LongerSlice(order: seq<Node>, lo: nat, hi: nat)
    requires lo <= hi < |order|
    ensures order[lo..hi] + [order[hi]] == order[lo..hi + 1]
  {
  }

  /** What the nodes from head on are. */
  lemma RestOfList<T>(s: Queue<T>)
    requires Inv(s) && s.consumer.Rest? && NoPushInFlight(s)
    ensures s.done < |s.order|
    ensures var rest := s.order[s.done..];
      && (forall x :: x in rest ==> x !in s.freed)
      && (forall x :: x in s.order <==> x in s.freed || x in rest)
      && (forall i, j :: 0 <= i < j < |rest| ==> rest[i] != rest[j])
  {
    FreedInFront(s);
    NextInOrder(s);
    hide *;
    SplitOrder(s.order, s.done);
  }

  lemma SplitOrder(order: seq<Node>, done: nat)
    requires done <= |order| && forall i, j :: 0 <= i < j < |order| ==> order[i] != order[j]
    ensures forall x :: x in order <==> x in order[..done] || x in order[done..]
    ensures forall x :: x in order[done..] ==> x !in order[..done]
    ensures forall i, j :: 0 <= i < j < |order| - done ==> order[done..][i] != order[done..][j]
  {
    assert order == order[..done] + order[done..];
  }

  /** With no push in flight every node from head on is linked to its successor; none is freed. */
  lemma NextInOrder<T>(s: Queue<T>)
    requires Inv(s) && s.consumer.Rest? && NoPushInFlight(s)
    ensures s.done < |s.order| && s.head == s.order[s.done]
    ensures forall i :: s.done <= i < |s.order| ==>
      && s.order[i] in s.next
      && s.next[s.order[i]] == if i + 1 < |s.order| then Some(s.order[i + 1]) else None
    ensures forall i :: s.done <= i < |s.order| ==> s.order[i] !in s.freed
    ensures forall i, j :: 0 <= i < j < |s.order| ==> s.order[i] != s.order[j]
  {
    hide PoppedInv, ProducersInv;
    forall i | s.done <= i < |s.order|
      ensures s.order[i] !in s.freed
      ensures s.next[s.order[i]] == if i + 1 < |s.order| then Some(s.order[i + 1]) else None
    {
      LaterNotFreed(s, i);
      assert i + 1 < |s.order| ==> LinkedOrPending(s, i);
    }
  }
}
