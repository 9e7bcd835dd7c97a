/** What is pushed is delivered: the queue never holds a value back for good. */
module QueueDelivery {
  import opened Options
  import opened LockFreeQueue

  // ----- One push, from start to end

  function Push<T>(p: nat, node: Node, v: T): seq<Step<T>> {
    [Allocate(p, node, v), ExchangeTail(p), Link(p)]
  }

  /** A push that nobody interrupts appends its value and leaves nothing in flight. */
  lemma PushAppends<T>(s: Queue<T>, p: nat, node: Node, v: T) returns (t: Queue<T>)
    requires Inv(s) && p !in s.producers && node !in s.next
    ensures t == Execute(s, Push(p, node, v)) && Inv(t)
    ensures t.order == s.order + [node] && t.value == s.value[node := v] && t.next.Keys == s.next.Keys + {node}
    ensures t.producers == s.producers && t.consumer == s.consumer && t.done == s.done
  {
    hide Inv, Execute;
    var a: Step<T>, b: Step<T> := Allocate(p, node, v), ExchangeTail(p);
    ExecuteTwo(s, a, b);
    var u := Apply(Apply(s, a), b);
    ExecuteOne(u, Link(p));
    RunsCompose(s, [a, b], [Link(p)]);
    assert [a, b] + [Link(p)] == Push(p, node, v);
    t := Apply(u, Link(p));
    TailInList(s);
  }

  lemma TailInList<T>(s: Queue<T>)
    requires Inv(s)
    ensures s.tail in s.next
  {
  }

  /** Pushes one after the other. */
  function Pushes<T>(ps: seq<nat>, nodes: seq<Node>, vs: seq<T>): seq<Step<T>>
    requires |ps| == |nodes| == |vs|
  {
    if vs == [] then []
    else
      var k := |vs| - 1;
      Pushes(ps[..k], nodes[..k], vs[..k]) + Push(ps[k], nodes[k], vs[k])
  }

  lemma NothingPushed<T>(dummy: Node)
    ensures Execute(Init<T>(dummy), []) == Init<T>(dummy) && Contents(Init<T>(dummy)) == []
  {
  }

  lemma OneMoreContent<T>(s: Queue<T>, t: Queue<T>, node: Node, v: T)
    requires Inv(s) && Inv(t) && t.order == s.order + [node] && t.value == s.value[node := v]
    ensures Contents(t) == Contents(s) + [v]
  {
    hide LinkInv, ProducersInv, FreedInv, PoppedInv, ConsumerInv;
    var k := |t.order| - 1;
    assert t.order[k] == node;
    forall i | 0 <= i < k ensures s.order[i] != node {
      assert t.order[i] == s.order[i] && t.order[i] != t.order[k];
    }
    assert Contents(t) == Contents(s) + [v];
  }

  lemma SameContents<T>(s: Queue<T>, t: Queue<T>)
    requires Inv(s) && Inv(t) && t.order == s.order && t.value == s.value
    ensures Contents(t) == Contents(s)
  {
  }

  lemma LastApart<X>(xs: seq<X>)
    requires xs != []
    ensures xs == xs[..|xs| - 1] + [xs[|xs| - 1]]
  {
  }

  /** The state after uninterrupted pushes of vs into these nodes. */
  ghost predicate Filled<T>(s: Queue<T>, dummy: Node, nodes: seq<Node>, vs: seq<T>) {
    && Inv(s) && s.order == [dummy] + nodes && s.next.Keys == {dummy} + (set x | x in nodes)
    && s.producers == map[] && s.consumer.Rest? && s.done == 0 && Contents(s) == vs
  }

  lemma FilledOneMore<T>(s: Queue<T>, dummy: Node, nodes: seq<Node>, vs: seq<T>, p: nat, node: Node, v: T)
    requires Filled(s, dummy, nodes, vs) && node != dummy && node !in nodes
    ensures Filled(Execute(s, Push(p, node, v)), dummy, nodes + [node], vs + [v])
  {
    hide Inv, Execute, Push, Contents;
    var t := PushAppends(s, p, node, v);
    OneMoreContent(s, t, node, v);
    assert [dummy] + nodes + [node] == [dummy] + (nodes + [node]);
  }

  lemma FilledNone<T>(dummy: Node)
    ensures Filled(Init<T>(dummy), dummy, [], [])
  {
    InitInv<T>(dummy);
    NothingPushed<T>(dummy);
  }

  lemma {:induction false} PushesFill<T>(dummy: Node, ps: seq<nat>, nodes: seq<Node>, vs: seq<T>)
    requires |ps| == |nodes| == |vs| && dummy !in nodes
    requires forall i, j :: 0 <= i < j < |nodes| ==> nodes[i] != nodes[j]
    ensures Filled(Execute(Init<T>(dummy), Pushes(ps, nodes, vs)), dummy, nodes, vs)
  {
    hide Filled, Push, Enabled, Apply;
    if vs == [] {
      FilledNone<T>(dummy);
    } else {
      var k := |vs| - 1;
      PushesFill(dummy, ps[..k], nodes[..k], vs[..k]);
      var s := Execute(Init<T>(dummy), Pushes(ps[..k], nodes[..k], vs[..k]));
      assert nodes[k] in nodes && nodes[k] !in nodes[..k];
      FilledOneMore(s, dummy, nodes[..k], vs[..k], ps[k], nodes[k], vs[k]);
      RunsCompose(Init<T>(dummy), Pushes(ps[..k], nodes[..k], vs[..k]), Push(ps[k], nodes[k], vs[k]));
      LastApart(nodes);
      LastApart(vs);
    }
  }

  // ----- Pops

  function Pop<T>(): seq<Step<T>> {
    [LoadHead, LoadNext, SwingHead(false), TakeValue, DeleteHead]
  }

  function Pops<T>(count: nat): seq<Step<T>> {
    if count == 0 then [] else Pops(count - 1) + Pop()
  }

  lemma {:induction false} PopsDeliver<T>(s: Queue<T>, count: nat)
    requires Inv(s) && s.consumer.Rest? && NoPushInFlight(s) && s.done + count < |s.order|
    ensures var t := Execute(s, Pops(count));
      && Inv(t) && t.consumer.Rest? && NoPushInFlight(t) && t.order == s.order && t.value == s.value
      && t.done == s.done + count
    decreases count
  {
    hide Inv, NoPushInFlight;
    if count > 0 {
      PopsDeliver(s, count - 1);
      var t := PopDelivers(Execute(s, Pops(count - 1)));
      RunsCompose(s, Pops(count - 1), Pop());
    }
  }

  lemma AllPopped<T>(s: Queue<T>)
    requires Inv(s) && s.consumer.Rest? && s.done + 1 == |s.order|
    ensures s.popped == Contents(s)
  {
    hide LinkInv, ProducersInv, FreedInv;
  }

  /** Values pushed one after the other, into any nodes and by any producers, come out of as many
      pops in the order in which they went in. */
  lemma PushedThenPopped<T>(dummy: Node, ps: seq<nat>, nodes: seq<Node>, vs: seq<T>)
    requires |ps| == |nodes| == |vs| && dummy !in nodes
    requires forall i, j :: 0 <= i < j < |nodes| ==> nodes[i] != nodes[j]
    ensures Execute(Init<T>(dummy), Pushes(ps, nodes, vs) + Pops(|vs|)).popped == vs
  {
    var s := Execute(Init<T>(dummy), Pushes(ps, nodes, vs));
    PushesFill(dummy, ps, nodes, vs);
    PopsDeliver(s, |vs|);
    RunsCompose(Init<T>(dummy), Pushes(ps, nodes, vs), Pops(|vs|));
    var t := Execute(s, Pops(|vs|));
    AllPopped(t);
    SameContents(s, t);
  }

  /** With no push in flight, empty answers yes exactly when nothing is left to pop. */
  lemma EmptyWhenIdle<T>(s: Queue<T>)
    requires Inv(s) && s.consumer.Rest? && NoPushInFlight(s)
    ensures var t := Execute(s, [PeekHead]);
      Enabled(t, PeekNext) && (AnswersEmpty(t) <==> s.popped == Contents(s))
  {
    ExecuteOne(s, PeekHead);
    NextNode(s, s.done);
    if s.done + 1 == |s.order| {
      AllPopped(s);
    }
    hide LinkInv, ProducersInv, FreedInv;
  }

  /** A compare-and-swap that fails for no reason sends the consumer back to the head and changes
      nothing else; one that does not fail advances the head by one node. */
  lemma SwingOrRetry<T>(s: Queue<T>)
    requires Inv(s) && s.consumer.FoundNext?
    ensures Apply(s, SwingHead(true)) == s.(consumer := Loaded(s.head))
    ensures var t := Apply(s, SwingHead(false));
      t.done == s.done + 1 && s.done + 1 < |s.order| && t.head == s.order[s.done + 1] && t.consumer.Swung?
  {
    hide LinkInv, ProducersInv, FreedInv, PoppedInv;
  }

  // ----- From any point of any schedule

  ghost predicate OnlyLinks<T>(steps: seq<Step<T>>) {
    forall i :: 0 <= i < |steps| ==> steps[i].Link?
  }

  /** The producers that have exchanged the tail can all link, and then nothing is in flight. */
  lemma {:induction false} LinksFinish<T>(s: Queue<T>) returns (links: seq<Step<T>>, t: Queue<T>)
    requires Inv(s)
    ensures OnlyLinks(links) && t == Execute(s, links) && Inv(t) && NoPushInFlight(t)
    ensures t.order == s.order && t.value == s.value && t.consumer == s.consumer && t.popped == s.popped
    decreases |s.producers|
  {
    hide Inv, Execute, Apply, Enabled, PendingAt;
    links, t := [], s;
    NothingRun(s);
    if p :| p in s.producers && s.producers[p].Exchanged? {
      var u := LinkOne(s, p);
      var rest: seq<Step<T>>;
      rest, t := LinksFinish(u);
      links := [Link(p)] + rest;
      RunsCompose(s, [Link(p)], rest);
    }
  }

  lemma NothingRun<T>(s: Queue<T>)
    ensures Execute(s, []) == s
  {
  }

  lemma LinkOne<T>(s: Queue<T>, p: nat) returns (u: Queue<T>)
    requires Inv(s) && p in s.producers && s.producers[p].Exchanged?
    ensures u == Execute(s, [Link(p)]) && Inv(u) && |u.producers| < |s.producers|
    ensures u.order == s.order && u.value == s.value && u.consumer == s.consumer && u.popped == s.popped
  {
    hide Inv, Execute;
    u := Apply(s, Link(p));
    ExecuteOne(s, Link(p));
    FewerProducers(s, p, u);
  }

  lemma FewerProducers<T>(s: Queue<T>, p: nat, u: Queue<T>)
    requires p in s.producers && u.producers == s.producers - {p}
    ensures |u.producers| < |s.producers|
  {
    assert u.producers.Keys == s.producers.Keys - {p};
    assert |u.producers.Keys| == |s.producers.Keys| - 1;
  }

  function StepsLeft(c: Consumer): nat {
    match c
    case Rest => 0
    case Peeking(_) => 1
    case Taken(_) => 1
    case Swung(_, _) => 2
    case FoundNext(_, _) => 3
    case Loaded(_) => 4
  }

  predicate OfConsumer<T>(step: Step<T>) {
    !step.Allocate? && !step.ExchangeTail? && !step.Link?
  }

  /** What the consumer does next, if nothing interferes with its compare-and-swap. */
  lemma NextOfConsumer<T>(s: Queue<T>) returns (step: Step<T>)
    requires Inv(s) && !s.consumer.Rest?
    ensures OfConsumer(step) && Enabled(s, step) && StepsLeft(Apply(s, step).consumer) < StepsLeft(s.consumer)
  {
    hide LinkInv, ProducersInv, FreedInv, PoppedInv;
    step := match s.consumer
      case Loaded(_) => LoadNext
      case FoundNext(_, _) => SwingHead(false)
      case Swung(_, _) => TakeValue
      case Taken(_) => DeleteHead
      case _ => PeekNext;
  }

  /** The consumer can finish what it is doing. */
  lemma {:induction false} ConsumerFinishes<T>(s: Queue<T>) returns (steps: seq<Step<T>>, t: Queue<T>)
    requires Inv(s)
    ensures (forall i :: 0 <= i < |steps| ==> OfConsumer(steps[i])) && t == Execute(s, steps)
    ensures Inv(t) && t.consumer.Rest? && t.order == s.order && t.value == s.value && t.producers == s.producers
    decreases StepsLeft(s.consumer)
  {
    steps, t := [], s;
    if !s.consumer.Rest? {
      var step := NextOfConsumer(s);
      var u := Apply(s, step);
      ExecuteOne(s, step);
      ConsumerFrame(s, step);
      hide Apply, Inv, Enabled;
      var rest: seq<Step<T>>;
      rest, t := ConsumerFinishes(u);
      steps := [step] + rest;
      RunsCompose(s, [step], rest);
    }
  }

  /** From every state of every schedule some run without a new push hands out everything that was
      pushed: first the pending links, then the consumer. */
  lemma EverythingDelivered<T>(dummy: Node, steps: seq<Step<T>>) returns (more: seq<Step<T>>)
    ensures forall i :: 0 <= i < |more| ==> !more[i].Allocate? && !more[i].ExchangeTail?
    ensures Execute(Init<T>(dummy), steps + more).popped == PushedBy(Init<T>(dummy), steps)
  {
    ContentsArePushed(dummy, steps);
    var s := Execute(Init<T>(dummy), steps);
    hide Execute, PushedBy, Inv;
    var links, a := LinksFinish(s);
    var own, b := ConsumerFinishes(a);
    HeadPlace(b);
    var left := |b.order| - 1 - b.done;
    PopsDeliver(b, left);
    var t := Execute(b, Pops(left));
    AllPopped(t);
    more := links + own + Pops(left);
    PopsAreConsumers<T>(left);
    RunsCompose(s, links, own);
    RunsCompose(s, links + own, Pops(left));
    RunsCompose(Init<T>(dummy), steps, more);
    SameContents(s, t);
  }

  lemma {:induction false} PopsAreConsumers<T>(count: nat)
    ensures forall i :: 0 <= i < |Pops<T>(count)| ==> OfConsumer(Pops<T>(count)[i])
  {
    if count > 0 {
      PopsAreConsumers<T>(count - 1);
    }
  }
}
