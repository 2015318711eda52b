/**
 The master and its workers as a state machine over the messages they exchange.  Whatever the
 interleaving, exactly the requested number of runs is executed, nobody waits in vain, and the
 master stops only when every worker has been told to stop, once.
 */
module RunProtocol {
  import opened Assignments
  import opened Counting

  datatype Answer = NewResult | NoResult

  /** A worker: before it receives an order, in a run, about to send the result it has announced, or gone. */
  datatype Phase = Waiting | Running | Announcing(result: int) | Gone

  /** A worker with the messages in flight to it, and from it on the two channels. */
  datatype Link = Link(phase: Phase, orders: seq<Order>, answers: seq<Answer>, data: seq<int>)

  /** The master: giving the first orders, waiting for an answer, waiting for a result, or done. */
  datatype Master = Starting(next: nat) | Polling | Fetching(from: nat) | Done

  datatype State = State(
    runs: nat,
    links: seq<Link>,
    master: Master,
    ledger: Ledger,
    confirmed: nat,
    best: int,
    executed: nat,
    told: seq<nat>,
    reported: seq<(nat, int)>)

  datatype Action =
    | Begin
    | Receive(w: nat)
    | FinishWorse(w: nat)
    | FinishBetter(w: nat, result: int)
    | Deliver(w: nat)
    | Poll(w: nat)
    | Fetch

  predicate Formed(s: State) {
    && |s.told| == |s.links| && (s.ledger.Static? ==> |s.ledger.shares| == |s.links|)
    && (s.master.Starting? ==> s.master.next < |s.links|)
    && (s.master.Fetching? ==> s.master.from < |s.links|)
  }

  predicate Enabled(s: State, a: Action) {
    Formed(s) &&
    match a
    case Begin => s.master.Starting?
    case Receive(w) => w < |s.links| && s.links[w].phase == Waiting && s.links[w].orders != []
    case FinishWorse(w) => w < |s.links| && s.links[w].phase == Running
    case FinishBetter(w, _) => w < |s.links| && s.links[w].phase == Running
    case Deliver(w) => w < |s.links| && s.links[w].phase.Announcing?
    case Poll(w) => w < |s.links| && s.master == Polling && s.links[w].answers != []
    case Fetch => s.master.Fetching? && s.links[s.master.from].data != []
  }

  /** The master tells worker `w` what to do. */
  function Tell(s: State, w: nat): State
    requires w < |s.links| && |s.told| == |s.links| && (s.ledger.Static? ==> |s.ledger.shares| == |s.links|)
  {
    var l, order := s.links[w], Assigned(s.ledger, s.runs, w).0;
    s.(ledger := Assigned(s.ledger, s.runs, w).1, links := s.links[w := l.(orders := l.orders + [order])],
       told := s.told[w := s.told[w] + if order == NoMore then 1 else 0])
  }

  /** A run of worker `w` is over: the master counts it, and tells the worker what to do. */
  function Settle(s: State, w: nat): State
    requires w < |s.links| && |s.told| == |s.links| && (s.ledger.Static? ==> |s.ledger.shares| == |s.links|)
  {
    var t := Tell(s.(confirmed := s.confirmed + 1, ledger := Confirmed(s.ledger, w)), w);
    t.(master := if t.confirmed == t.runs then Done else Polling)
  }

  function Step(s: State, a: Action): State
    requires Enabled(s, a)
  {
    match a
    case Begin =>
      var i := s.master.next;
      Tell(s, i).(master := if i + 1 < |s.links| then Starting(i + 1) else Polling)
    case Receive(w) =>
      var l := s.links[w];
      s.(links := s.links[w := l.(phase := if l.orders[0] == Continue then Running else Gone, orders := l.orders[1..])])
    case FinishWorse(w) =>
      var l := s.links[w];
      s.(links := s.links[w := l.(phase := Waiting, answers := l.answers + [NoResult])], executed := s.executed + 1)
    case FinishBetter(w, x) =>
      var l := s.links[w];
      s.(links := s.links[w := l.(phase := Announcing(x), answers := l.answers + [NewResult])],
         executed := s.executed + 1, reported := s.reported + [(w, x)])
    case Deliver(w) =>
      var l := s.links[w];
      s.(links := s.links[w := l.(phase := Waiting, data := l.data + [l.phase.result])])
    case Poll(w) =>
      var l := s.links[w];
      var t := s.(links := s.links[w := l.(answers := l.answers[1..])]);
      if l.answers[0] == NoResult then Settle(t, w) else t.(master := Fetching(w))
    case Fetch =>
      var w := s.master.from;
      var l := s.links[w];
      var x := l.data[0];
      Settle(s.(links := s.links[w := l.(data := l.data[1..])], best := if x > s.best then x else s.best), w)
  }

  // ----- where each worker is

  datatype Stage = Fresh | Ordered | Busy | Announced | Answered | Delivered | Fetched | Ready | Dismissed | Stopped | Broken

  function StageOf(l: Link): Stage {
    match l
    case Link(Waiting, orders, answers, data) =>
      if answers == [] && data == [] then
        if orders == [] then Fresh
        else if orders == [Continue] then Ordered
        else if orders == [NoMore] then Dismissed
        else Broken
      else if orders == [] && answers == [NoResult] && data == [] then Answered
      else if orders == [] && answers == [NewResult] && |data| == 1 then Delivered
      else if orders == [] && answers == [] && |data| == 1 then Ready
      else Broken
    case Link(Running, orders, answers, data) =>
      if orders == [] && answers == [] && data == [] then Busy else Broken
    case Link(Announcing(_), orders, answers, data) =>
      if orders == [] && data == [] && answers == [NewResult] then Announced
      else if orders == [] && data == [] && answers == [] then Fetched
      else Broken
    case Link(Gone, orders, answers, data) =>
      if orders == [] && answers == [] && data == [] then Stopped else Broken
  }

  /** A run has been handed out and not confirmed. */
  function Outstanding(g: Stage): int {
    if g in {Ordered, Busy, Announced, Answered, Delivered, Fetched, Ready} then 1 else 0
  }

  /** A run has been executed and not confirmed. */
  function Unconfirmed(g: Stage): int {
    if g in {Announced, Answered, Delivered, Fetched, Ready} then 1 else 0
  }

  /** How many steps a worker has before it at most, without a new order. */
  function Weight(g: Stage): int {
    match g
    case Fresh => 7
    case Ordered => 6
    case Busy => 5
    case Announced => 4
    case Answered => 3
    case Delivered => 3
    case Fetched => 3
    case Ready => 2
    case Dismissed => 1
    case Stopped => 0
    case Broken => 0
  }

  ghost function Values(ls: seq<Link>, f: Stage -> int): (r: seq<int>)
    ensures |r| == |ls| && forall w :: 0 <= w < |ls| ==> r[w] == f(StageOf(ls[w]))
  {
    seq(|ls|, w requires 0 <= w < |ls| => f(StageOf(ls[w])))
  }

  ghost function Tally(ls: seq<Link>, f: Stage -> int): int {
    Sum(Values(ls, f))
  }

  lemma TallyUpdate(ls: seq<Link>, w: nat, l: Link, f: Stage -> int)
    requires w < |ls|
    ensures Tally(ls[w := l], f) == Tally(ls, f) - f(StageOf(ls[w])) + f(StageOf(l))
  {
    assert Values(ls[w := l], f) == Values(ls, f)[w := f(StageOf(l))];
    SumUpdate(Values(ls, f), w, f(StageOf(l)));
  }

  /** A result that has not reached the master. */
  predicate Carries(l: Link, x: int) {
    l.phase == Announcing(x) || l.data == [x]
  }

  // ----- the invariant

  ghost predicate Shaped(s: State) {
    && Formed(s) && 0 < |s.links| && 0 < s.runs && s.confirmed <= s.runs
    && (s.master.Done? <==> s.confirmed == s.runs)
    && (s.master.Starting? ==> s.confirmed == 0)
  }

  /** The part of the invariant that is about one worker. */
  ghost predicate Placed(s: State, w: nat)
    requires w < |s.links| == |s.told| && (s.ledger.Static? ==> |s.ledger.shares| == |s.links|)
  {
    var g := StageOf(s.links[w]);
    && g != Broken
    && (g == Fresh <==> s.master.Starting? && w >= s.master.next)
    && (g in {Fetched, Ready} <==> s.master == Fetching(w))
    && s.told[w] == (if g in {Dismissed, Stopped} then 1 else 0)
    && match s.ledger
       case Static(shares) =>
         && shares[w] >= 0
         && (g != Fresh ==> (Outstanding(g) == 1 <==> shares[w] > 0))
       case Dynamic(n) => g in {Dismissed, Stopped} ==> n == s.runs
  }

  ghost predicate Counted(s: State) {
    && s.executed == s.confirmed + Tally(s.links, Unconfirmed)
    && match s.ledger
       case Static(shares) => Sum(shares) + s.confirmed == s.runs
       case Dynamic(n) => n == s.confirmed + Tally(s.links, Outstanding) && n <= s.runs
  }

  /** The best result is the best of those that have reached the master. */
  ghost predicate BestKept(s: State, initial: int) {
    && (s.best == initial || exists k :: 0 <= k < |s.reported| && s.reported[k].1 == s.best) && s.best >= initial
    && (forall k :: 0 <= k < |s.reported| ==> s.reported[k].0 < |s.links|)
    && (forall k :: 0 <= k < |s.reported| ==>
          s.best >= s.reported[k].1 || Carries(s.links[s.reported[k].0], s.reported[k].1))
    && (forall w, x :: 0 <= w < |s.links| && Carries(s.links[w], x) ==>
          exists k :: 0 <= k < |s.reported| && s.reported[k].1 == x)
  }

  ghost predicate Inv(s: State) {
    Shaped(s) && Counted(s) && forall w :: 0 <= w < |s.links| ==> Placed(s, w)
  }

  function Begun(runs: nat, workers: nat, ledger: Ledger, best: int): State {
    State(runs, seq(workers, _ => Link(Waiting, [], [], [])), Starting(0), ledger, 0, best, 0, seq(workers, _ => 0), [])
  }

  lemma ZeroTally(ls: seq<Link>, f: Stage -> int)
    requires forall w :: 0 <= w < |ls| ==> f(StageOf(ls[w])) == 0
    ensures Tally(ls, f) == 0
  {
    SumOfEqual(Values(ls, f), 0);
  }

  /** Both assignments start with the invariant. */
  lemma BegunKeeps(runs: nat, workers: nat, ledger: Ledger, best: int)
    requires 0 < runs && 0 < workers
    requires ledger == Dynamic(0) || (ledger.Static? && |ledger.shares| == workers && FairShares(ledger.shares, runs))
    ensures Inv(Begun(runs, workers, ledger, best)) && BestKept(Begun(runs, workers, ledger, best), best)
  {
    var s := Begun(runs, workers, ledger, best);
    ZeroTally(s.links, Unconfirmed);
    ZeroTally(s.links, Outstanding);
  }

  // ----- every step keeps the invariant

  /** A step of worker `w` alone: it stays where the ledger wants it. */
  lemma WorkerStepKeeps(s: State, w: nat, l: Link, more: nat, reported: seq<(nat, int)>)
    requires Inv(s) && w < |s.links|
    requires var g, h := StageOf(s.links[w]), StageOf(l);
             && g != Fresh && h != Broken && h != Fresh && Outstanding(h) == Outstanding(g)
             && (h in {Fetched, Ready} <==> g in {Fetched, Ready}) && (h in {Dismissed, Stopped} <==> g in {Dismissed, Stopped})
             && Unconfirmed(h) == Unconfirmed(g) + more
    ensures Inv(s.(links := s.links[w := l], executed := s.executed + more, reported := reported))
  {
    var t := s.(links := s.links[w := l], executed := s.executed + more, reported := reported);
    TallyUpdate(s.links, w, l, Unconfirmed);
    TallyUpdate(s.links, w, l, Outstanding);
    assert Placed(s, w);
    forall v | 0 <= v < |t.links| ensures Placed(t, v) {
      assert Placed(s, v);
    }
  }

  /** How a worker moves when it acts alone. */
  lemma WorkerMoves(s: State, a: Action)
    requires Shaped(s) && Enabled(s, a) && (a.Receive? || a.FinishWorse? || a.FinishBetter? || a.Deliver?)
    requires Placed(s, a.w)
    ensures var t := Step(s, a);
            && |t.links| == |s.links|
            && t == s.(links := s.links[a.w := t.links[a.w]], executed := t.executed, reported := t.reported)
    ensures var g, h := StageOf(s.links[a.w]), StageOf(Step(s, a).links[a.w]);
            && g != Fresh && h != Broken && h != Fresh && Outstanding(h) == Outstanding(g)
            && (h in {Fetched, Ready} <==> g in {Fetched, Ready}) && (h in {Dismissed, Stopped} <==> g in {Dismissed, Stopped})
            && 0 <= Step(s, a).executed - s.executed == Unconfirmed(h) - Unconfirmed(g)
  {
  }

  lemma WorkersKeep(s: State, a: Action)
    requires Inv(s) && Enabled(s, a) && (a.Receive? || a.FinishWorse? || a.FinishBetter? || a.Deliver?)
    ensures Inv(Step(s, a))
  {
    var w, t := a.w, Step(s, a);
    WorkerMoves(s, a);
    WorkerStepKeeps(s, w, t.links[w], t.executed - s.executed, t.reported);
  }

  lemma PollKeeps(s: State, w: nat)
    requires Inv(s) && Enabled(s, Poll(w)) && s.links[w].answers[0] == NewResult
    ensures Inv(Step(s, Poll(w)))
  {
    var t := Step(s, Poll(w));
    assert Placed(s, w);
    TallyUpdate(s.links, w, t.links[w], Unconfirmed);
    TallyUpdate(s.links, w, t.links[w], Outstanding);
    forall v | 0 <= v < |t.links| ensures Placed(t, v) {
      assert Placed(s, v);
    }
  }

  lemma TallyNonNegative(ls: seq<Link>, f: Stage -> int)
    requires forall g :: f(g) >= 0
    ensures Tally(ls, f) >= 0
  {
    SumNonNegative(Values(ls, f));
  }

  /** The answer of worker `w` has been taken in, and any result with it. */
  function Heard(s: State, w: nat, best: int): State
    requires w < |s.links|
  {
    s.(links := s.links[w := Link(Waiting, [], [], [])], best := best)
  }

  /** After an order, a worker has it before it and nothing else. */
  lemma SettledLink(s: State, w: nat, best: int)
    requires Inv(s) && w < |s.links|
    ensures var r := Settle(Heard(s, w, best), w); var order := Assigned(Confirmed(s.ledger, w), s.runs, w).0;
            && r.links == s.links[w := Link(Waiting, [order], [], [])]
            && StageOf(r.links[w]) == (if order == Continue then Ordered else Dismissed)
  {
    assert [] + [Assigned(Confirmed(s.ledger, w), s.runs, w).0] == [Assigned(Confirmed(s.ledger, w), s.runs, w).0];
  }

  lemma SettleCountsStatic(s: State, w: nat, best: int)
    requires Inv(s) && w < |s.links| && StageOf(s.links[w]) in {Answered, Ready} && s.ledger.Static?
    ensures var r := Settle(Heard(s, w, best), w); Counted(r) && r.confirmed <= r.runs
  {
    var r, shares := Settle(Heard(s, w, best), w), s.ledger.shares;
    assert Placed(s, w);
    SettledLink(s, w, best);
    TallyUpdate(s.links, w, r.links[w], Unconfirmed);
    SumUpdate(shares, w, shares[w] - 1);
    SumNonNegativeShares(s, shares[w := shares[w] - 1]);
  }

  lemma SettleCountsDynamic(s: State, w: nat, best: int)
    requires Inv(s) && w < |s.links| && StageOf(s.links[w]) in {Answered, Ready} && s.ledger.Dynamic?
    ensures var r := Settle(Heard(s, w, best), w); Counted(r) && r.confirmed <= r.runs
  {
    var r := Settle(Heard(s, w, best), w);
    SettledLink(s, w, best);
    TallyUpdate(s.links, w, r.links[w], Unconfirmed);
    TallyUpdate(s.links, w, r.links[w], Outstanding);
    TallyNonNegative(r.links, Outstanding);
  }

  lemma SumNonNegativeShares(s: State, shares: seq<int>)
    requires Inv(s) && s.ledger.Static? && |shares| == |s.links|
    requires forall w :: 0 <= w < |shares| ==> shares[w] == s.ledger.shares[w] || shares[w] >= 0
    ensures Sum(shares) >= 0
  {
    forall w | 0 <= w < |shares| ensures shares[w] >= 0 {
      assert Placed(s, w);
    }
    SumNonNegative(shares);
  }

  lemma SettlePlaces(s: State, w: nat, best: int, v: nat)
    requires Inv(s) && w < |s.links| && StageOf(s.links[w]) in {Answered, Ready} && v < |s.links|
    requires s.master == if StageOf(s.links[w]) == Ready then Fetching(w) else Polling
    ensures Placed(Settle(Heard(s, w, best), w), v)
  {
    SettledLink(s, w, best);
    assert Placed(s, w) && Placed(s, v);
  }

  lemma SettleKeeps(s: State, w: nat, best: int)
    requires Inv(s) && w < |s.links| && StageOf(s.links[w]) in {Answered, Ready}
    requires s.master == if StageOf(s.links[w]) == Ready then Fetching(w) else Polling
    ensures Inv(Settle(Heard(s, w, best), w))
  {
    if s.ledger.Static? {
      SettleCountsStatic(s, w, best);
    } else {
      SettleCountsDynamic(s, w, best);
    }
    forall v | 0 <= v < |s.links| ensures Placed(Settle(Heard(s, w, best), w), v) {
      SettlePlaces(s, w, best, v);
    }
  }

  lemma BegunLink(s: State)
    requires Inv(s) && s.master.Starting?
    ensures var i := s.master.next; var order := Assigned(s.ledger, s.runs, i).0; var t := Step(s, Begin);
            && StageOf(s.links[i]) == Fresh
            && t.links == s.links[i := Link(Waiting, [order], [], [])]
            && StageOf(t.links[i]) == (if order == Continue then Ordered else Dismissed)
  {
    var i := s.master.next;
    assert Placed(s, i);
    assert [] + [Assigned(s.ledger, s.runs, i).0] == [Assigned(s.ledger, s.runs, i).0];
  }

  lemma BeginCounts(s: State)
    requires Inv(s) && s.master.Starting?
    ensures Counted(Step(s, Begin))
  {
    var i, t := s.master.next, Step(s, Begin);
    BegunLink(s);
    TallyUpdate(s.links, i, t.links[i], Unconfirmed);
    TallyUpdate(s.links, i, t.links[i], Outstanding);
  }

  lemma BeginPlaces(s: State, v: nat)
    requires Inv(s) && s.master.Starting? && v < |s.links|
    ensures Placed(Step(s, Begin), v)
  {
    BegunLink(s);
    assert Placed(s, s.master.next) && Placed(s, v);
  }

  lemma BeginKeeps(s: State)
    requires Inv(s) && s.master.Starting?
    ensures Inv(Step(s, Begin))
  {
    BeginCounts(s);
    forall v | 0 <= v < |s.links| ensures Placed(Step(s, Begin), v) {
      BeginPlaces(s, v);
    }
  }

  /** An answer without a result settles the run. */
  lemma PollSettles(s: State, w: nat)
    requires Inv(s) && Enabled(s, Poll(w)) && s.links[w].answers[0] == NoResult
    ensures StageOf(s.links[w]) == Answered && Step(s, Poll(w)) == Settle(Heard(s, w, s.best), w)
  {
    assert Placed(s, w);
    assert s.links[w].(answers := s.links[w].answers[1..]) == Link(Waiting, [], [], []);
  }

  /** So does a result that has been received. */
  lemma FetchSettles(s: State)
    requires Inv(s) && Enabled(s, Fetch)
    ensures var w := s.master.from; var x := s.links[w].data[0];
            && StageOf(s.links[w]) == Ready && s.links[w].data == [x]
            && Step(s, Fetch) == Settle(Heard(s, w, if x > s.best then x else s.best), w)
  {
    var w := s.master.from;
    assert Placed(s, w);
    assert s.links[w].(data := s.links[w].data[1..]) == Link(Waiting, [], [], []);
  }

  /** Every step of every interleaving keeps the invariant. */
  lemma StepKeeps(s: State, a: Action)
    requires Inv(s) && Enabled(s, a)
    ensures Inv(Step(s, a))
  {
    match a
    case Begin =>
      BeginKeeps(s);
    case Poll(w) =>
      if s.links[w].answers[0] == NewResult {
        PollKeeps(s, w);
      } else {
        PollSettles(s, w);
        SettleKeeps(s, w, s.best);
      }
    case Fetch =>
      FetchSettles(s);
      var x := s.links[s.master.from].data[0];
      SettleKeeps(s, s.master.from, if x > s.best then x else s.best);
    case Receive(_) => WorkersKeep(s, a);
    case FinishWorse(_) => WorkersKeep(s, a);
    case FinishBetter(_, _) => WorkersKeep(s, a);
    case Deliver(_) => WorkersKeep(s, a);
  }

  // ----- what the invariant says at the end

  lemma TallyZero(ls: seq<Link>, f: Stage -> int)
    requires (forall g :: f(g) >= 0) && Tally(ls, f) == 0
    ensures forall w :: 0 <= w < |ls| ==> f(StageOf(ls[w])) == 0
  {
    SumZero(Values(ls, f));
    assert forall w :: 0 <= w < |ls| ==> Values(ls, f)[w] == f(StageOf(ls[w]));
  }

  /** When all runs are confirmed, every worker has been dismissed. */
  lemma AllDismissed(s: State)
    requires Inv(s) && !s.master.Starting? && s.confirmed == s.runs
    ensures forall w :: 0 <= w < |s.links| ==> StageOf(s.links[w]) in {Dismissed, Stopped}
  {
    if s.ledger.Static? {
      forall w | 0 <= w < |s.links| ensures s.ledger.shares[w] >= 0 {
        assert Placed(s, w);
      }
      SumZero(s.ledger.shares);
    } else {
      TallyNonNegative(s.links, Outstanding);
      TallyZero(s.links, Outstanding);
    }
    forall w | 0 <= w < |s.links| ensures StageOf(s.links[w]) in {Dismissed, Stopped} {
      assert Placed(s, w);
      assert Outstanding(StageOf(s.links[w])) == 0;
    }
  }

  /** And the other way round: no run is ever forgotten. */
  lemma NoneOutstanding(s: State)
    requires Inv(s) && !s.master.Starting? && forall w :: 0 <= w < |s.links| ==> StageOf(s.links[w]) in {Dismissed, Stopped}
    ensures s.confirmed == s.runs
  {
    assert Placed(s, 0);
    if s.ledger.Static? {
      forall w | 0 <= w < |s.links| ensures s.ledger.shares[w] == 0 {
        assert Placed(s, w);
      }
      SumOfEqual(s.ledger.shares, 0);
    } else {
      ZeroTally(s.links, Outstanding);
    }
  }

  /** The master has stopped: exactly the requested runs were executed, and every worker was told to stop once. */
  lemma MasterStops(s: State)
    requires Inv(s) && s.master.Done?
    ensures s.executed == s.runs && forall w :: 0 <= w < |s.links| ==> s.told[w] == 1
  {
    AllDismissed(s);
    forall w | 0 <= w < |s.links| ensures s.told[w] == 1 {
      assert Placed(s, w);
    }
    ZeroTally(s.links, Unconfirmed);
  }

  ghost predicate Finished(s: State) {
    s.master.Done? && forall w :: 0 <= w < |s.links| ==> s.links[w].phase == Gone
  }

  /** Until all is over somebody can take a step. */
  lemma NeverStuck(s: State) returns (a: Action)
    requires Inv(s) && !Finished(s)
    ensures Enabled(s, a)
  {
    match s.master
    case Starting(_) =>
      a := Begin;
    case Fetching(w) =>
      assert Placed(s, w);
      a := if StageOf(s.links[w]) == Fetched then Deliver(w) else Fetch;
    case Polling =>
      if forall w :: 0 <= w < |s.links| ==> StageOf(s.links[w]) in {Dismissed, Stopped} {
        NoneOutstanding(s);
      }
      var w :| 0 <= w < |s.links| && StageOf(s.links[w]) !in {Dismissed, Stopped};
      assert Placed(s, w);
      a := if StageOf(s.links[w]) == Ordered then Receive(w) else if StageOf(s.links[w]) == Busy then FinishWorse(w) else Poll(w);
    case Done =>
      AllDismissed(s);
      var w :| 0 <= w < |s.links| && s.links[w].phase != Gone;
      a := Receive(w);
  }

  // ----- termination

  ghost function Measure(s: State): int {
    Tally(s.links, Weight) + 8 * (s.runs - s.confirmed)
  }

  lemma SettleFalls(s: State, w: nat, best: int)
    requires Inv(s) && w < |s.links| && StageOf(s.links[w]) in {Answered, Ready}
    ensures Measure(Settle(Heard(s, w, best), w)) < Measure(s)
  {
    SettledLink(s, w, best);
    TallyUpdate(s.links, w, Settle(Heard(s, w, best), w).links[w], Weight);
  }

  lemma MasterFalls(s: State, a: Action)
    requires Inv(s) && Enabled(s, a) && (a.Begin? || (a.Poll? && s.links[a.w].answers[0] == NewResult))
    ensures Measure(Step(s, a)) < Measure(s)
  {
    if a.Begin? {
      BegunLink(s);
      TallyUpdate(s.links, s.master.next, Step(s, a).links[s.master.next], Weight);
    } else {
      assert Placed(s, a.w);
      TallyUpdate(s.links, a.w, Step(s, a).links[a.w], Weight);
    }
  }

  /** No run of the protocol goes on for ever. */
  lemma MeasureFalls(s: State, a: Action)
    requires Inv(s) && Enabled(s, a)
    ensures Measure(Step(s, a)) < Measure(s)
  {
    if a.Poll? && s.links[a.w].answers[0] == NoResult {
      PollSettles(s, a.w);
      SettleFalls(s, a.w, s.best);
    } else if a.Fetch? {
      FetchSettles(s);
      SettleFalls(s, s.master.from, Step(s, a).best);
    } else if a.Begin? || a.Poll? {
      MasterFalls(s, a);
    } else {
      WorkersFall(s, a);
    }
  }

  lemma WorkersFall(s: State, a: Action)
    requires Inv(s) && Enabled(s, a) && (a.Receive? || a.FinishWorse? || a.FinishBetter? || a.Deliver?)
    ensures Measure(Step(s, a)) < Measure(s)
  {
    assert Placed(s, a.w);
    TallyUpdate(s.links, a.w, Step(s, a).links[a.w], Weight);
  }

  // ----- the best result

  lemma BestSame(s: State, t: State, initial: int)
    requires BestKept(s, initial) && t.best == s.best && t.reported == s.reported && |t.links| == |s.links|
    requires forall w, x :: 0 <= w < |s.links| ==> (Carries(t.links[w], x) <==> Carries(s.links[w], x))
    ensures BestKept(t, initial)
  {
  }

  lemma StepKeepsBest(s: State, a: Action, initial: int)
    requires Inv(s) && BestKept(s, initial) && Enabled(s, a)
    ensures BestKept(Step(s, a), initial)
  {
    var t := Step(s, a);
    match a
    case Begin => BestSame(s, t, initial);
    case Receive(w) => BestSame(s, t, initial);
    case FinishWorse(w) =>
      assert Placed(s, w);
      BestSame(s, t, initial);
    case FinishBetter(w, x) =>
      assert Placed(s, w);
      BestReported(s, w, x, initial);
    case Deliver(w) =>
      assert Placed(s, w);
      assert t.links[w].data == [s.links[w].phase.result];
      BestSame(s, t, initial);
    case Poll(w) => BestSame(s, t, initial);
    case Fetch =>
      FetchSettles(s);
      BestReceived(s, initial);
  }

  lemma BestReported(s: State, w: nat, x: int, initial: int)
    requires Inv(s) && BestKept(s, initial) && Enabled(s, FinishBetter(w, x)) && StageOf(s.links[w]) == Busy
    ensures BestKept(Step(s, FinishBetter(w, x)), initial)
  {
    var t := Step(s, FinishBetter(w, x));
    assert t.reported[|s.reported|] == (w, x);
    if s.best != initial {
      var k :| 0 <= k < |s.reported| && s.reported[k].1 == s.best;
      assert t.reported[k].1 == s.best;
    }
    forall v, y | 0 <= v < |t.links| && Carries(t.links[v], y)
      ensures exists k :: 0 <= k < |t.reported| && t.reported[k].1 == y
    {
      if v != w {
        var k :| 0 <= k < |s.reported| && s.reported[k].1 == y;
        assert t.reported[k].1 == y;
      }
    }
  }

  lemma BestReceived(s: State, initial: int)
    requires Inv(s) && BestKept(s, initial) && Enabled(s, Fetch) && StageOf(s.links[s.master.from]) == Ready
    ensures BestKept(Step(s, Fetch), initial)
  {
    var w, t := s.master.from, Step(s, Fetch);
    var x := s.links[w].data[0];
    FetchSettles(s);
    SettledLink(s, w, t.best);
    assert Carries(s.links[w], x);
    assert forall y :: !Carries(t.links[w], y);
    forall k | 0 <= k < |t.reported|
      ensures t.best >= t.reported[k].1 || Carries(t.links[t.reported[k].0], t.reported[k].1)
    {
      assert t.reported[k] == s.reported[k];
    }
  }

  // ----- whole runs

  /** The states that a sequence of steps goes through. */
  ghost predicate IsRun(ss: seq<State>, acts: seq<Action>) {
    && |ss| == |acts| + 1
    && forall k, l :: 0 <= k < |acts| && l == k + 1 ==> Enabled(ss[k], acts[k]) && ss[l] == Step(ss[k], acts[k])
  }

  lemma StepTaken(ss: seq<State>, acts: seq<Action>, k: nat)
    requires IsRun(ss, acts) && k < |acts|
    ensures Enabled(ss[k], acts[k]) && ss[k + 1] == Step(ss[k], acts[k])
  {
    var l := k + 1;
    var s := ss[l];
    assert Enabled(ss[k], acts[k]);
    assert s == Step(ss[k], acts[k]);
  }

  lemma {:induction false} RunKeeps(ss: seq<State>, acts: seq<Action>, initial: int, k: nat)
    requires IsRun(ss, acts) && Inv(ss[0]) && BestKept(ss[0], initial) && k < |ss|
    ensures Inv(ss[k]) && BestKept(ss[k], initial) && Measure(ss[k]) + k <= Measure(ss[0])
    ensures ss[k].runs == ss[0].runs && |ss[k].links| == |ss[0].links|
  {
    if k > 0 {
      RunKeeps(ss, acts, initial, k - 1);
      StepTaken(ss, acts, k - 1);
      StepKeeps(ss[k - 1], acts[k - 1]);
      StepKeepsBest(ss[k - 1], acts[k - 1], initial);
      MeasureFalls(ss[k - 1], acts[k - 1]);
    }
  }

  lemma FreshMeasure(ls: seq<Link>)
    requires forall w :: 0 <= w < |ls| ==> StageOf(ls[w]) == Fresh
    ensures Tally(ls, Weight) == 7 * |ls|
  {
    SumOfEqual(Values(ls, Weight), 7);
  }

  /**
   The protocol, in any interleaving and with either assignment.  It takes a bounded number of
   steps.  The master stops only when it has dismissed every worker, once, and exactly the
   requested runs have been executed.  The only states in which nobody can go on are those in
   which all have stopped; the master then holds the best result of all.
   */
  lemma Protocol(runs: nat, workers: nat, ledger: Ledger, initial: int, ss: seq<State>, acts: seq<Action>)
    requires 0 < runs && 0 < workers
    requires ledger == Dynamic(0) || (ledger.Static? && |ledger.shares| == workers && FairShares(ledger.shares, runs))
    requires IsRun(ss, acts) && ss[0] == Begun(runs, workers, ledger, initial)
    ensures |acts| <= 7 * workers + 8 * runs
    ensures var s := ss[|acts|];
            && s.executed <= runs && |s.links| == |s.told| == workers
            && (s.master.Done? ==> s.executed == runs && forall w :: 0 <= w < |s.links| ==> s.told[w] == 1)
            && ((forall a :: !Enabled(s, a)) ==>
                  && s.master.Done? && (forall w :: 0 <= w < |s.links| ==> s.links[w].phase == Gone)
                  && (s.best == initial || exists k :: 0 <= k < |s.reported| && s.reported[k].1 == s.best)
                  && s.best >= initial && forall k :: 0 <= k < |s.reported| ==> s.reported[k].1 <= s.best)
  {
    BegunKeeps(runs, workers, ledger, initial);
    FreshMeasure(ss[0].links);
    RunKeeps(ss, acts, initial, |acts|);
    var s := ss[|acts|];
    TallyNonNegative(s.links, Weight);
    ExecutedBounded(s);
    if s.master.Done? {
      MasterStops(s);
    }
    if forall a :: !Enabled(s, a) {
      if !Finished(s) {
        var a := NeverStuck(s);
      }
      forall w, x | 0 <= w < |s.links| ensures !Carries(s.links[w], x) {
        assert Placed(s, w);
      }
    }
  }

  /** Never more than the requested runs are executed. */
  lemma ExecutedBounded(s: State)
    requires Inv(s)
    ensures s.executed <= s.runs
  {
    TallyBelow(s.links);
    if s.ledger.Static? {
      SharesCover(s);
    }
  }

  lemma {:induction false} SumBelow(s: seq<int>, t: seq<int>)
    requires |s| == |t| && forall i :: 0 <= i < |s| ==> s[i] <= t[i]
    ensures Sum(s) <= Sum(t)
  {
    if s != [] {
      SumBelow(s[1..], t[1..]);
    }
  }

  lemma TallyBelow(ls: seq<Link>)
    ensures Tally(ls, Unconfirmed) <= Tally(ls, Outstanding)
  {
    SumBelow(Values(ls, Unconfirmed), Values(ls, Outstanding));
  }

  lemma SharesCover(s: State)
    requires Inv(s) && s.ledger.Static?
    ensures Tally(s.links, Outstanding) <= Sum(s.ledger.shares)
  {
    forall w | 0 <= w < |s.links| ensures Outstanding(StageOf(s.links[w])) <= s.ledger.shares[w] {
      assert Placed(s, w);
    }
    SumBelow(Values(s.links, Outstanding), s.ledger.shares);
  }
}
