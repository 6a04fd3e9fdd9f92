// The audit pipeline of market-maker-service/internal/execution/async_audit.go: producers push
// envelopes on the left of a Redis list, the consumer of each process pops them on the right and
// hands them to the persist step, and a producer whose push fails does so on the spot. A failed
// push has pushed nothing. The persist step inserts into the database; a failed insert is logged
// and dropped.
module AuditQueue {
  // queue is the Redis list, left end first; hands are the envelopes popped and not yet persisted,
  // one for each busy consumer, in the order they were popped.
  // tried lists what reached the persist step, in order: what of it was stored and what failed to
  // insert; lost lists what never got there: popped without reaching the consumer, or undecodable.
  // handed lists what producers gave to enqueue.
  datatype State<T> = State(queue: seq<T>, hands: seq<T>, tried: seq<T>, stored: seq<T>, failed: seq<T>,
                            lost: seq<T>, handed: seq<T>)

  datatype Event<T> =
    | Enqueue(envelope: T, pushed: bool, inserts: bool)
    | Pop(arrives: bool)
    | Persist(i: nat, decodes: bool, inserts: bool)

  function Persisted<T>(s: State<T>, x: T, inserts: bool): State<T> {
    s.(tried := s.tried + [x],
       stored := if inserts then s.stored + [x] else s.stored,
       failed := if inserts then s.failed else s.failed + [x])
  }

  function Step<T>(s: State<T>, e: Event<T>): State<T> {
    match e
    case Enqueue(x, pushed, inserts) =>
      var h := s.(handed := s.handed + [x]);
      if pushed then h.(queue := [x] + h.queue) else Persisted(h, x, inserts)
    case Pop(arrives) =>
      if s.queue == [] then s else
        var x, rest := s.queue[|s.queue| - 1], s.queue[..|s.queue| - 1];
        if arrives then s.(queue := rest, hands := s.hands + [x]) else s.(queue := rest, lost := s.lost + [x])
    case Persist(i, decodes, inserts) =>
      if i >= |s.hands| then s else
        var x, rest := s.hands[i], Without(s.hands, i);
        if decodes then Persisted(s.(hands := rest), x, inserts) else s.(hands := rest, lost := s.lost + [x])
  }

  function Without<T>(xs: seq<T>, i: nat): seq<T>
    requires i < |xs|
  {
    xs[..i] + xs[i + 1..]
  }

  class Pipeline<T> {
    var queue: seq<T>
    var hands: seq<T>
    var stored: seq<T>
    ghost var tried: seq<T>
    ghost var failed: seq<T>
    ghost var lost: seq<T>
    ghost var handed: seq<T>

    constructor ()
      ensures Now() == Empty()
    {
      queue, hands, stored := [], [], [];
      tried, failed, lost, handed := [], [], [], [];
    }

    ghost function Now(): State<T>
      reads this
    {
      State(queue, hands, tried, stored, failed, lost, handed)
    }

    // persistSync or persistDecisionSync.
    method PersistSync(x: T, inserts: bool)
      modifies this
      ensures Now() == Persisted(old(Now()), x, inserts)
    {
      tried := tried + [x];
      if inserts {
        stored := stored + [x];
      } else {
        failed := failed + [x];
      }
    }

    // enqueueResult or enqueueDecision with Redis on.
    method Enqueue(x: T, pushed: bool, inserts: bool)
      modifies this
      ensures Now() == Step(old(Now()), Event.Enqueue(x, pushed, inserts))
    {
      handed := handed + [x];
      if pushed {
        queue := [x] + queue;
      } else {
        PersistSync(x, inserts);
      }
    }

    // BRPop in a consumer loop; on an empty list it times out, and its reply may get lost.
    method TakeNext(arrives: bool)
      modifies this
      ensures Now() == Step(old(Now()), Event.Pop(arrives))
    {
      if |queue| > 0 {
        var x := queue[|queue| - 1];
        queue := queue[..|queue| - 1];
        if arrives {
          hands := hands + [x];
        } else {
          lost := lost + [x];
        }
      }
    }

    // The consumer that holds envelope i decodes it and hands it on.
    method PersistHand(i: nat, decodes: bool, inserts: bool)
      modifies this
      ensures Now() == Step(old(Now()), Event.Persist(i, decodes, inserts))
    {
      if i < |hands| {
        var x := hands[i];
        hands := Without(hands, i);
        if decodes {
          PersistSync(x, inserts);
        } else {
          lost := lost + [x];
        }
      }
    }
  }

  function Empty<T>(): State<T> { State([], [], [], [], [], [], []) }

  function Run<T>(events: seq<Event<T>>): State<T> {
    if events == [] then Empty() else Step(Run(events[..|events| - 1]), events[|events| - 1])
  }

  function Reversed<T>(q: seq<T>): seq<T> { if q == [] then [] else Reversed(q[1..]) + [q[0]] }

  // Every envelope handed over is in exactly one place: the queue, a consumer's hand, the
  // database, dropped by a failed insert, or lost on the way.
  ghost predicate Accounted<T>(s: State<T>) {
    && multiset(s.handed) == multiset(s.queue) + multiset(s.hands) + multiset(s.tried) + multiset(s.lost)
    && multiset(s.tried) == multiset(s.stored) + multiset(s.failed)
  }

  lemma {:induction false} EveryEnvelopeAccounted<T>(events: seq<Event<T>>)
    ensures Accounted(Run(events))
  {
    if events != [] {
      EveryEnvelopeAccounted(events[..|events| - 1]);
      StepKeepsAccount(Run(events[..|events| - 1]), events[|events| - 1]);
    }
  }

  lemma StepKeepsAccount<T>(s: State<T>, e: Event<T>)
    requires Accounted(s)
    ensures Accounted(Step(s, e))
  {
    match e
    case Enqueue(x, pushed, inserts) => EnqueueKeepsAccount(s, x, pushed, inserts);
    case Pop(arrives) => PopKeepsAccount(s, arrives);
    case Persist(i, decodes, inserts) => PersistKeepsAccount(s, i, decodes, inserts);
  }

  lemma Appended<T>(q: seq<T>, x: T)
    ensures multiset(q + [x]) == multiset(q) + multiset{x} && multiset([x] + q) == multiset(q) + multiset{x}
  {
  }

  lemma EnqueueKeepsAccount<T>(s: State<T>, x: T, pushed: bool, inserts: bool)
    requires Accounted(s)
    ensures Accounted(Step(s, Enqueue(x, pushed, inserts)))
  {
    Appended(s.handed, x);
    if pushed {
      Appended(s.queue, x);
    } else {
      PersistedIsTried(s, x, inserts);
    }
  }

  lemma PersistedIsTried<T>(s: State<T>, x: T, inserts: bool)
    ensures var t := Persisted(s, x, inserts);
      multiset(t.tried) == multiset(s.tried) + multiset{x}
      && multiset(t.stored) + multiset(t.failed) == multiset(s.stored) + multiset(s.failed) + multiset{x}
  {
    Appended(s.tried, x);
    Appended(s.stored, x);
    Appended(s.failed, x);
  }

  lemma PopKeepsAccount<T>(s: State<T>, arrives: bool)
    requires Accounted(s)
    ensures Accounted(Step(s, Pop(arrives)))
  {
    if s.queue != [] {
      var x, rest := s.queue[|s.queue| - 1], s.queue[..|s.queue| - 1];
      assert s.queue == rest + [x];
      Appended(rest, x);
      Appended(s.hands, x);
      Appended(s.lost, x);
    }
  }

  lemma PersistKeepsAccount<T>(s: State<T>, i: nat, decodes: bool, inserts: bool)
    requires Accounted(s)
    ensures Accounted(Step(s, Persist(i, decodes, inserts)))
  {
    if i < |s.hands| {
      var x := s.hands[i];
      PersistedIsTried(s.(hands := Without(s.hands, i)), x, inserts);
      Appended(s.lost, x);
      Removed(s.hands, i);
    }
  }

  lemma Removed<T>(xs: seq<T>, i: nat)
    requires i < |xs|
    ensures multiset(xs) == multiset(Without(xs, i)) + multiset{xs[i]}
  {
    assert xs == xs[..i] + [xs[i]] + xs[i + 1..];
  }

  // The event drops an envelope: an insert fails, a reply is lost, a payload does not decode.
  predicate Drops<T>(s: State<T>, e: Event<T>) {
    match e
    case Enqueue(_, pushed, inserts) => !pushed && !inserts
    case Pop(arrives) => s.queue != [] && !arrives
    case Persist(i, decodes, inserts) => i < |s.hands| && !(decodes && inserts)
  }

  lemma DropsExactlyWhen<T>(s: State<T>, e: Event<T>)
    ensures NothingDropped(Step(s, e)) <==> NothingDropped(s) && !Drops(s, e)
  {
  }

  ghost predicate NothingDropped<T>(s: State<T>) { s.failed == [] && s.lost == [] }

  ghost predicate NeverDrops<T>(events: seq<Event<T>>, n: nat)
    requires n <= |events|
  {
    forall k :: 0 <= k < n ==> !DropsAt(events, k)
  }

  ghost predicate DropsAt<T>(events: seq<Event<T>>, k: nat)
    requires k < |events|
  {
    Drops(Run(events[..k]), events[k])
  }

  lemma DropOneMore<T>(events: seq<Event<T>>, n: nat)
    requires 0 < n <= |events|
    ensures NothingDropped(Run(events[..n])) <==> NothingDropped(Run(events[..n - 1])) && !DropsAt(events, n - 1)
  {
    assert events[..n][..n - 1] == events[..n - 1];
    DropsExactlyWhen(Run(events[..n - 1]), events[n - 1]);
  }

  lemma NeverDropsOneMore<T>(events: seq<Event<T>>, n: nat)
    requires 0 < n <= |events|
    ensures NeverDrops(events, n) <==> NeverDrops(events, n - 1) && !DropsAt(events, n - 1)
  {
  }

  // Nothing is missing from the database but what is still on its way, exactly if no event of the
  // run drops an envelope.
  lemma {:induction false} NothingDroppedExactlyWhen<T>(events: seq<Event<T>>, n: nat)
    requires n <= |events|
    ensures NothingDropped(Run(events[..n])) <==> NeverDrops(events, n)
  {
    if n > 0 {
      NothingDroppedExactlyWhen(events, n - 1);
      DropOneMore(events, n);
      NeverDropsOneMore(events, n);
    } else {
      assert events[..0] == [];
    }
  }

  lemma {:induction false} ReversedPop<T>(q: seq<T>)
    requires q != []
    ensures Reversed(q) == [q[|q| - 1]] + Reversed(q[..|q| - 1])
  {
    if |q| > 1 {
      ReversedPop(q[1..]);
      assert q[1..][..|q| - 2] == q[..|q| - 1][1..];
    }
  }

  // The envelopes on their way, in the order they were handed over.
  function Ahead<T>(s: State<T>): seq<T> { s.hands + Reversed(s.queue) }

  ghost predicate Lined<T>(s: State<T>) {
    s.handed == s.tried + Ahead(s)
  }

  // What reaches the persist step in this event is the first envelope on its way, or one like it.
  ghost predicate TakesFirst<T>(s: State<T>, e: Event<T>) {
    match e
    case Enqueue(x, pushed, _) => pushed || Ahead(s) == [] || Ahead(s)[0] == x
    case Pop(_) => true
    case Persist(i, decodes, _) => i < |s.hands| && decodes ==> s.hands[i] == s.hands[0]
  }

  // From a state in order, what was tried stays a prefix of what was handed over exactly then.
  lemma OrderKeptExactlyWhen<T>(s: State<T>, e: Event<T>)
    requires Lined(s)
    ensures Step(s, e).tried <= Step(s, e).handed <==> TakesFirst(s, e)
  {
    var n := |s.tried|;
    match e
    case Enqueue(x, pushed, inserts) =>
      if !pushed {
        assert Step(s, e).handed == s.tried + (Ahead(s) + [x]);
        assert Step(s, e).handed[n] == (Ahead(s) + [x])[0];
        assert Step(s, e).handed[..n] == s.tried;
      }
    case Pop(arrives) =>
    case Persist(i, decodes, inserts) =>
      if i < |s.hands| {
        assert s.handed[n] == Ahead(s)[0] == s.hands[0];
        assert s.handed[..n] == s.tried;
      }
  }

  // No event lets an envelope overtake or vanish: pushes succeed, replies arrive, payloads decode,
  // and the envelope popped first is persisted first.
  ghost predicate InOrder<T>(s: State<T>, e: Event<T>) {
    match e
    case Enqueue(_, pushed, _) => pushed
    case Pop(arrives) => arrives
    case Persist(i, decodes, _) => decodes && (i == 0 || i >= |s.hands|)
  }

  lemma StepKeepsLine<T>(s: State<T>, e: Event<T>)
    requires Lined(s) && InOrder(s, e)
    ensures Lined(Step(s, e))
  {
    match e
    case Enqueue(x, pushed, inserts) => PushKeepsLine(s.tried, s.hands, s.queue, x);
    case Pop(arrives) => if s.queue != [] { ReversedPop(s.queue); }
    case Persist(i, decodes, inserts) => if i < |s.hands| { FirstMovesOn(s.tried, s.hands, Reversed(s.queue)); }
  }

  lemma PushKeepsLine<T>(tried: seq<T>, hands: seq<T>, queue: seq<T>, x: T)
    ensures tried + (hands + Reversed(queue)) + [x] == tried + (hands + Reversed([x] + queue))
  {
    assert ([x] + queue)[1..] == queue;
  }

  lemma FirstMovesOn<T>(tried: seq<T>, hands: seq<T>, rest: seq<T>)
    requires hands != []
    ensures tried + (hands + rest) == tried + [hands[0]] + (Without(hands, 0) + rest)
  {
    assert hands == [hands[0]] + Without(hands, 0);
  }

  // Then envelopes reach the persist step in the order they were handed over: those tried, then
  // those in hand, then the queue from its right end.
  lemma {:induction false} PersistOrderIsEnqueueOrder<T>(events: seq<Event<T>>)
    requires forall k :: 0 <= k < |events| ==> InOrder(Run(events[..k]), events[k])
    ensures Lined(Run(events)) && Run(events).tried <= Run(events).handed
  {
    if events != [] {
      var n := |events| - 1;
      assert forall k :: 0 <= k < n ==> events[..n][..k] == events[..k];
      PersistOrderIsEnqueueOrder(events[..n]);
      assert InOrder(Run(events[..n]), events[n]);
      StepKeepsLine(Run(events[..n]), events[n]);
    }
  }

  // A single consumer pops only with empty hands, and so takes the envelopes in order by itself.
  ghost predicate OneConsumer<T>(s: State<T>, e: Event<T>) {
    match e
    case Enqueue(_, pushed, _) => pushed
    case Pop(arrives) => arrives && s.hands == []
    case Persist(_, decodes, _) => decodes
  }

  lemma {:induction false} OneConsumerKeepsOrder<T>(events: seq<Event<T>>)
    requires forall k :: 0 <= k < |events| ==> OneConsumer(Run(events[..k]), events[k])
    ensures |Run(events).hands| <= 1 && Lined(Run(events)) && Run(events).tried <= Run(events).handed
  {
    if events != [] {
      var n := |events| - 1;
      assert forall k :: 0 <= k < n ==> events[..n][..k] == events[..k];
      OneConsumerKeepsOrder(events[..n]);
      OneConsumerStep(Run(events[..n]), events[n]);
    }
  }

  lemma OneConsumerStep<T>(s: State<T>, e: Event<T>)
    requires Lined(s) && |s.hands| <= 1 && OneConsumer(s, e)
    ensures Lined(Step(s, e)) && |Step(s, e).hands| <= 1
  {
    StepKeepsLine(s, e);
  }

  // Two consumers can turn two envelopes round.
  lemma TwoConsumersReorder<T>(a: T, b: T)
    requires a != b
    ensures var s := State([], [a, b], [], [], [], [], [a, b]);
      Lined(s) && !(Step(s, Persist(1, true, true)).tried <= Step(s, Persist(1, true, true)).handed)
  {
    var s := State([], [a, b], [], [], [], [], [a, b]);
    assert Ahead(s) == [a, b];
    OrderKeptExactlyWhen(s, Persist(1, true, true));
  }
}
