/** The WMM transmit scheduler of rsi/rsi_91x_core.c, in the build without CONFIG_STA_PLUS_AP:
  * four data queues that contend with back-off weights, and two queues of strict priority. */
module Scheduler {
  import opened Wrappers

  const NUM_EDCA_QUEUES := 4
  const BE_Q := 1
  const VI_Q := 2
  const VO_Q := 3
  const MGMT_SOFT_Q := 4
  const MGMT_BEACON_Q := 5
  const NUM_SOFT_QUEUES := 6
  const INVALID_QUEUE := 0xff
  const WMM_SHORT_SLOT_TIME := 9
  const SIFS_DURATION := 16

  datatype Skb = Skb(priority: nat, id: nat)
  datatype EdcaParams = EdcaParams(acm: bool, txop: nat, aifs: nat, cwMin: nat)

  /** The scheduler's part of `struct rsi_common`, as a value. */
  datatype State = State(
    queue: seq<seq<Skb>>,
    weight: seq<int>,
    contended: seq<bool>,
    wme: seq<int>,
    edca: seq<EdcaParams>,
    minWeight: int,
    pktCnt: nat,
    selected: nat,
    blocked: bool)

  /** Six queues, four of them weighted; weights lie between 0 and the queue's contention value. */
  predicate Shaped(s: State) {
    && |s.queue| == NUM_SOFT_QUEUES
    && |s.weight| == |s.contended| == |s.wme| == |s.edca| == NUM_EDCA_QUEUES
    && 0 <= s.minWeight < 256
    && (forall i :: 0 <= i < NUM_EDCA_QUEUES ==> 0 <= s.weight[i] <= s.wme[i])
  }

  /** What every step keeps: the burst credit never exceeds the length of the queue it is for. */
  predicate Inv(s: State) {
    && Shaped(s)
    && (s.pktCnt > 0 ==> s.selected < NUM_EDCA_QUEUES && s.pktCnt <= |s.queue[s.selected]|)
  }

  // ---------------------------------------------------------------- selection, as a specification

  predicate Ready(s: State, i: int)
    requires Shaped(s)
  {
    0 <= i < NUM_EDCA_QUEUES && s.contended[i] && s.queue[i] != []
  }

  predicate NothingReady(s: State)
    requires Shaped(s)
  {
    forall i :: 0 <= i < NUM_EDCA_QUEUES ==> !Ready(s, i)
  }

  predicate DataEmpty(s: State)
    requires Shaped(s)
  {
    forall i :: 0 <= i < NUM_EDCA_QUEUES ==> s.queue[i] == []
  }

  /** The lowest ready queue, or NUM_EDCA_QUEUES. */
  function FirstReady(s: State): (f: nat)
    requires Shaped(s)
    ensures f < NUM_EDCA_QUEUES ==> Ready(s, f)
    ensures f == NUM_EDCA_QUEUES <==> NothingReady(s)
    ensures f <= NUM_EDCA_QUEUES && forall j :: 0 <= j < f ==> !Ready(s, j)
  {
    if Ready(s, 0) then 0 else if Ready(s, 1) then 1 else if Ready(s, 2) then 2
    else if Ready(s, 3) then 3 else 4
  }

  /** The value a ready queue competes with. The first ready queue's weight passes through the
    * 8-bit field `min_weight`, so it competes with its low byte; the others with their weight. */
  function Key(s: State, i: nat): int
    requires Shaped(s) && i < NUM_EDCA_QUEUES
  {
    if i == FirstReady(s) then s.weight[i] % 256 else s.weight[i]
  }

  predicate Beats(s: State, q: nat, j: nat)
    requires Shaped(s) && q < NUM_EDCA_QUEUES && j < NUM_EDCA_QUEUES
  {
    Key(s, q) < Key(s, j) || (Key(s, q) == Key(s, j) && q <= j)
  }

  /** `q` is the lowest ready queue of least key. */
  predicate Chosen(s: State, q: nat)
    requires Shaped(s)
  {
    Ready(s, q) && forall j :: 0 <= j < NUM_EDCA_QUEUES && Ready(s, j) ==> Beats(s, q, j)
  }

  ghost function Choice(s: State): (q: nat)
    requires Shaped(s) && !NothingReady(s)
    ensures Chosen(s, q) && 0 <= Key(s, q) < 256
  {
    ChosenExists(s);
    var q :| Chosen(s, q);
    assert Beats(s, q, FirstReady(s));
    q
  }

  lemma ChosenExists(s: State)
    requires Shaped(s) && !NothingReady(s)
    ensures exists q :: Chosen(s, q)
  {
    var q := FirstReady(s);
    for i := 0 to NUM_EDCA_QUEUES
      invariant q < NUM_EDCA_QUEUES && Ready(s, q)
      invariant forall j :: 0 <= j < i && Ready(s, j) ==> Beats(s, q, j)
    {
      if Ready(s, i) && !Beats(s, q, i) {
        q := i;
      }
    }
    assert Chosen(s, q);
  }

  lemma ChosenUnique(s: State, p: nat, q: nat)
    requires Shaped(s) && Chosen(s, p) && Chosen(s, q)
    ensures p == q
  {
    assert Beats(s, p, q) && Beats(s, q, p);
  }

  function NewWeight(s: State, i: nat): int
    requires Shaped(s) && i < NUM_EDCA_QUEUES
  {
    if s.queue[i] == [] then 0
    else if !s.contended[i] then s.wme[i]
    else if s.weight[i] > s.minWeight then s.weight[i] - s.minWeight
    else 0
  }

  /** All back-off values adjusted by `min_weight`; idle queues leave, waiting ones (re)enter. */
  function Recalculated(s: State): (t: State)
    requires Shaped(s)
    ensures Shaped(t) && t.queue == s.queue
  {
    s.(weight := seq(NUM_EDCA_QUEUES, i requires 0 <= i < NUM_EDCA_QUEUES => NewWeight(s, i)),
       contended := seq(NUM_EDCA_QUEUES, i requires 0 <= i < NUM_EDCA_QUEUES => s.queue[i] != []))
  }

  function Min(a: nat, b: nat): nat { if a <= b then a else b }

  /** How many packets one selection of a voice or video queue may send in a row. */
  function BurstLimit(s: State, q: nat): nat
    requires Shaped(s) && (q == VO_Q || q == VI_Q)
  {
    if s.edca[q].acm then 1
    else if q == VO_Q then 6
    else if s.edca[VI_Q].aifs > s.edca[BE_Q].aifs then 2
    else s.edca[q].txop * 32 / 800
  }

  function Credit(s: State, q: nat): nat
    requires Shaped(s) && q < NUM_EDCA_QUEUES
  {
    if q == VO_Q || q == VI_Q then
      var c := Min(BurstLimit(s, q), |s.queue[q]|);
      if c != 0 then c - 1 else 0
    else s.pktCnt
  }

  datatype Outcome = Outcome(q: nat, s: State)

  /** The state in which the queues compete: when no waiting queue is in contention,
    * one recalculation first puts every waiting queue in. */
  function Contest(s: State): (t: State)
    requires Shaped(s)
    ensures Shaped(t)
  {
    if NothingReady(s) then Recalculated(s) else s
  }

  /** After the optional extra recalculation some queue competes unless all are empty. */
  lemma ContestReady(s: State)
    requires Shaped(s)
    ensures NothingReady(Contest(s)) <==> DataEmpty(s)
  {
    if NothingReady(s) {
      var t := Recalculated(s);
      assert forall i :: 0 <= i < NUM_EDCA_QUEUES ==> (Ready(t, i) <==> s.queue[i] != []);
    } else {
      assert Ready(s, FirstReady(s));
    }
  }

  /** The chosen queue leaves the contention and all weights drop by its key. */
  ghost function AfterChoice(s: State): (t: State)
    requires Shaped(s) && !NothingReady(s)
    ensures Shaped(t) && t.queue == s.queue && t.queue[Choice(s)] != []
  {
    var q := Choice(s);
    Recalculated(s.(contended := s.contended[q := false], minWeight := Key(s, q)))
  }

  ghost function Contend(s: State): Outcome
    requires Shaped(s)
  {
    var t := Contest(s);
    if NothingReady(t) then Outcome(INVALID_QUEUE, t)
    else
      var q := Choice(t);
      var u := AfterChoice(t);
      Outcome(q, u.(selected := q, pktCnt := Credit(u, q)))
  }

  /** Beacons first, then management, then the rest of a burst, then contention. */
  ghost function Select(s: State): Outcome
    requires Inv(s)
  {
    if s.queue[MGMT_BEACON_Q] != [] then Outcome(MGMT_BEACON_Q, s)
    else if s.queue[MGMT_SOFT_Q] != [] then Outcome(MGMT_SOFT_Q, s)
    else if s.blocked then Outcome(INVALID_QUEUE, s)
    else if s.pktCnt != 0 then Outcome(s.selected, s.(pktCnt := s.pktCnt - 1))
    else Contend(s)
  }

  /** Selection keeps the invariant, and what it selects has a packet left to dequeue beyond
    * the remaining credit; it selects nothing only when every queue it may serve is empty. */
  lemma SelectKeepsInv(s: State)
    requires Inv(s)
    ensures var o := Select(s);
            && Inv(o.s) && o.s.queue == s.queue && o.s.wme == s.wme
            && (o.q < NUM_SOFT_QUEUES ==> s.queue[o.q] != [])
            && (o.s.pktCnt > 0 && o.q < NUM_EDCA_QUEUES ==> o.q == o.s.selected && o.s.pktCnt < |s.queue[o.q]|)
            && (o.q >= NUM_SOFT_QUEUES ==> o.q == INVALID_QUEUE)
  {
    ContestReady(s);
  }

  // ---------------------------------------------------------------- runs

  datatype Event =
    | Arrive(skb: Skb)       // rsi_core_queue_pkt from any thread
    | Urgent(skb: Skb)       // rsi_send_internal_mgmt_frame with a PEER_NOTIFY frame
    | Round(go: bool)        // one iteration of the processor; `go`: hardware has room
    | Block(on: bool)        // data queues blocked or unblocked

  function Enqueued(s: State, skb: Skb): State
    requires Shaped(s)
  {
    if skb.priority >= NUM_SOFT_QUEUES then s
    else s.(queue := s.queue[skb.priority := s.queue[skb.priority] + [skb]])
  }

  /** A frame put in front of the management queue. */
  function PutFirst(s: State, skb: Skb): State
    requires Shaped(s)
  {
    s.(queue := s.queue[MGMT_SOFT_Q := [skb] + s.queue[MGMT_SOFT_Q]])
  }

  function Dequeued(s: State, q: nat): State
    requires Shaped(s) && q < NUM_SOFT_QUEUES && s.queue[q] != []
  {
    s.(queue := s.queue[q := s.queue[q][1..]])
  }

  ghost function Apply(s: State, e: Event): (t: State)
    requires Inv(s)
    ensures Inv(t) && t.wme == s.wme
  {
    SelectKeepsInv(s);
    match e
    case Arrive(skb) => Enqueued(s, skb)
    case Urgent(skb) => PutFirst(s, skb)
    case Block(on) => s.(blocked := on)
    case Round(go) =>
      var o := Select(s);
      if go && o.q < NUM_SOFT_QUEUES then Dequeued(o.s, o.q) else o.s
  }

  ghost function Run(s: State, es: seq<Event>): (t: State)
    requires Inv(s)
    ensures Inv(t)
    decreases es
  {
    if es == [] then s else Run(Apply(s, es[0]), es[1..])
  }

  function ArrivedNow(e: Event, q: nat): seq<Skb> {
    if (e.Arrive? && e.skb.priority == q) || (e.Urgent? && q == MGMT_SOFT_Q) then [e.skb] else []
  }

  function Arrived(es: seq<Event>, q: nat): seq<Skb> {
    if es == [] then [] else ArrivedNow(es[0], q) + Arrived(es[1..], q)
  }

  /** A packet taken off its queue to be sent, with the queue it came from. */
  datatype Sending = Sending(q: nat, skb: Skb)

  ghost function TakenNow(s: State, e: Event): seq<Sending>
    requires Inv(s)
  {
    SelectKeepsInv(s);
    var q := Select(s).q;
    if e == Round(true) && q < NUM_SOFT_QUEUES then [Sending(q, s.queue[q][0])] else []
  }

  ghost function Taken(s: State, es: seq<Event>): seq<Sending>
    requires Inv(s)
    decreases es
  {
    if es == [] then [] else TakenNow(s, es[0]) + Taken(Apply(s, es[0]), es[1..])
  }

  function OfQueue(xs: seq<Sending>, q: nat): seq<Skb> {
    if xs == [] then [] else (if xs[0].q == q then [xs[0].skb] else []) + OfQueue(xs[1..], q)
  }

  lemma {:induction false} OfQueueAppend(xs: seq<Sending>, ys: seq<Sending>, q: nat)
    ensures OfQueue(xs + ys, q) == OfQueue(xs, q) + OfQueue(ys, q)
  {
    if xs == [] {
      assert xs + ys == ys;
    } else {
      assert (xs + ys)[1..] == xs[1..] + ys && (xs + ys)[0] == xs[0];
      OfQueueAppend(xs[1..], ys, q);
      Concat(if xs[0].q == q then [xs[0].skb] else [], OfQueue(xs[1..], q), OfQueue(ys, q));
    }
  }

  /** A round removes the head of the selected queue, if the hardware takes it, and nothing else. */
  lemma QueuesAfterRound(s: State, go: bool)
    requires Inv(s)
    ensures var k := Select(s).q;
            if go && k < NUM_SOFT_QUEUES then
              && s.queue[k] != [] && TakenNow(s, Round(go)) == [Sending(k, s.queue[k][0])]
              && Apply(s, Round(go)).queue == s.queue[k := s.queue[k][1..]]
            else TakenNow(s, Round(go)) == [] && Apply(s, Round(go)).queue == s.queue
  {
    SelectKeepsInv(s);
  }

  lemma TakeHead(queue: seq<seq<Skb>>, k: nat, q: nat)
    requires k < |queue| && q < |queue| && queue[k] != []
    ensures queue[q] == OfQueue([Sending(k, queue[k][0])], q) + queue[k := queue[k][1..]][q]
  {
    assert OfQueue([], q) == [];
    assert [Sending(k, queue[k][0])][1..] == [];
  }

  lemma FifoRound(s: State, go: bool, q: nat)
    requires Inv(s) && q < NUM_SOFT_QUEUES
    ensures s.queue[q] == OfQueue(TakenNow(s, Round(go)), q) + Apply(s, Round(go)).queue[q]
  {
    var k := Select(s).q;
    QueuesAfterRound(s, go);
    if go && k < NUM_SOFT_QUEUES {
      TakeHead(s.queue, k, q);
    }
  }

  lemma FifoArrive(s: State, skb: Skb, q: nat)
    requires Inv(s) && q < NUM_SOFT_QUEUES
    ensures s.queue[q] + ArrivedNow(Arrive(skb), q) == Apply(s, Arrive(skb)).queue[q]
  {}

  lemma FifoStep(s: State, e: Event, q: nat)
    requires Inv(s) && q < NUM_SOFT_QUEUES && !(e.Urgent? && q == MGMT_SOFT_Q)
    ensures s.queue[q] + ArrivedNow(e, q) == OfQueue(TakenNow(s, e), q) + Apply(s, e).queue[q]
  {
    match e
    case Round(go) =>
      FifoRound(s, go, q);
      assert s.queue[q] + [] == s.queue[q];
    case Arrive(skb) =>
      FifoArrive(s, skb, q);
    case Urgent(_) =>
    case Block(_) =>
  }

  /** First in, first out, and nothing lost in the queues: what a queue held followed by what
    * arrived is what was taken off it followed by what it holds; for the management queue as long
    * as no frame is put in front. */
  lemma {:induction false} FifoPerQueue(s: State, es: seq<Event>, q: nat)
    requires Inv(s) && q < NUM_SOFT_QUEUES && (q == MGMT_SOFT_Q ==> NoUrgent(es))
    ensures s.queue[q] + Arrived(es, q) == OfQueue(Taken(s, es), q) + Run(s, es).queue[q]
    decreases es
  {
    if es != [] {
      var t, rest := Apply(s, es[0]), es[1..];
      assert es[0] in es;
      FifoStep(s, es[0], q);
      FifoPerQueue(t, rest, q);
      OfQueueAppend(TakenNow(s, es[0]), Taken(t, rest), q);
      Reassociate(s.queue[q], ArrivedNow(es[0], q), Arrived(rest, q), OfQueue(TakenNow(s, es[0]), q),
                  t.queue[q], OfQueue(Taken(t, rest), q), Run(s, es).queue[q]);
    }
  }

  /** Frames put in front included, no packet is lost or duplicated in any queue. */
  lemma {:induction false} PacketsConserved(s: State, es: seq<Event>, q: nat)
    requires Inv(s) && q < NUM_SOFT_QUEUES
    ensures multiset(s.queue[q]) + multiset(Arrived(es, q))
            == multiset(OfQueue(Taken(s, es), q)) + multiset(Run(s, es).queue[q])
    decreases es
  {
    if es != [] {
      var t, rest := Apply(s, es[0]), es[1..];
      StepConserves(s, es[0], q);
      PacketsConserved(t, rest, q);
      OfQueueAppend(TakenNow(s, es[0]), Taken(t, rest), q);
      AddUp(s.queue[q], ArrivedNow(es[0], q), Arrived(rest, q), OfQueue(TakenNow(s, es[0]), q), t.queue[q],
            OfQueue(Taken(t, rest), q), Run(s, es).queue[q]);
    }
  }

  lemma StepConserves(s: State, e: Event, q: nat)
    requires Inv(s) && q < NUM_SOFT_QUEUES
    ensures multiset(s.queue[q]) + multiset(ArrivedNow(e, q))
            == multiset(OfQueue(TakenNow(s, e), q)) + multiset(Apply(s, e).queue[q])
  {
    if e.Urgent? && q == MGMT_SOFT_Q {
      assert multiset([e.skb] + s.queue[q]) == multiset([e.skb]) + multiset(s.queue[q]);
    } else {
      FifoStep(s, e, q);
      assert multiset(s.queue[q] + ArrivedNow(e, q)) == multiset(OfQueue(TakenNow(s, e), q) + Apply(s, e).queue[q]);
    }
  }

  /** Work conservation: with the data queues unblocked, nothing is selected exactly when all
    * six queues are empty. */
  lemma WorkConserving(s: State)
    requires Inv(s) && !s.blocked
    ensures Select(s).q == INVALID_QUEUE <==> forall q :: 0 <= q < NUM_SOFT_QUEUES ==> s.queue[q] == []
  {
    SelectKeepsInv(s);
    ContestReady(s);
    assert DataEmpty(s) && s.queue[4] == [] && s.queue[5] == [] ==>
      forall q :: 0 <= q < NUM_SOFT_QUEUES ==> s.queue[q] == [];
  }

  /** Strict priority: nothing but a beacon is taken while one waits, no data packet while a management
    * frame waits or the data queues are blocked. */
  lemma StrictPriority(s: State, e: Event)
    requires Inv(s)
    ensures forall x :: x in TakenNow(s, e) ==>
              && (s.queue[5] != [] ==> x.q == 5)
              && (s.queue[5] == [] && s.queue[4] != [] ==> x.q == 4)
              && (s.blocked ==> x.q >= 4)
  {
    SelectKeepsInv(s);
  }

  /** Packets of all six queues. */
  function Backlog(s: State): nat
    requires Shaped(s)
  {
    |s.queue[0]| + |s.queue[1]| + |s.queue[2]| + |s.queue[3]| + |s.queue[4]| + |s.queue[5]|
  }

  lemma BacklogAfterRound(s: State, go: bool)
    requires Inv(s)
    ensures Backlog(Apply(s, Round(go))) == Backlog(s) - |TakenNow(s, Round(go))|
    ensures !s.blocked && go && Backlog(s) > 0 ==> |TakenNow(s, Round(go))| == 1
  {
    var k := Select(s).q;
    QueuesAfterRound(s, go);
    if !s.blocked {
      WorkConserving(s);
    }
    if go && k < NUM_SOFT_QUEUES {
      assert k == 0 || k == 1 || k == 2 || k == 3 || k == 4 || k == 5;
    }
  }

  lemma BacklogAfterArrival(s: State, e: Event)
    requires Inv(s) && (e.Arrive? || e.Urgent?)
    ensures Backlog(Apply(s, e)) <= Backlog(s) + 1
  {
    if e.Arrive? && e.skb.priority < NUM_SOFT_QUEUES {
      var k := e.skb.priority;
      assert k == 0 || k == 1 || k == 2 || k == 3 || k == 4 || k == 5;
    }
  }

  // ---------------------------------------------------------------- bursts

  /** The longest burst of an access category: one packet for background and best effort; six for
    * voice and, for video, two if its AIFS exceeds that of best effort, or else as many as fit its
    * TXOP of 32 us units at 800 us each; one with admission control. */
  function LongestBurst(edca: seq<EdcaParams>, q: nat): nat
    requires |edca| == NUM_EDCA_QUEUES && q < NUM_EDCA_QUEUES
  {
    if q == 0 || q == 1 || edca[q].acm then 1
    else if q == 3 then 6
    else if edca[2].aifs > edca[1].aifs then 2
    else if edca[2].txop < 25 then 1
    else edca[2].txop / 25
  }

  /** Data packets selected before the next contention. */
  ghost function DataBeforeContest(s: State, es: seq<Event>): nat
    requires Inv(s)
    decreases es
  {
    if es == [] || (es[0].Round? && Fresh(s)) then 0
    else One(es[0].Round? && Select(s).q < NUM_EDCA_QUEUES) + DataBeforeContest(Apply(s, es[0]), es[1..])
  }

  lemma {:induction false} BurstWithinCredit(s: State, es: seq<Event>)
    requires Inv(s)
    ensures DataBeforeContest(s, es) <= s.pktCnt
    decreases es
  {
    if es != [] && !(es[0].Round? && Fresh(s)) {
      SelectKeepsInv(s);
      BurstWithinCredit(Apply(s, es[0]), es[1..]);
    }
  }

  /** The credit after a contention makes the burst exactly as long as the access category and the
    * queue allow. */
  lemma CreditIsLongest(s: State, go: bool)
    requires Inv(s) && Fresh(s) && Select(s).q < NUM_EDCA_QUEUES
    ensures var q := Select(s).q;
            Apply(s, Round(go)).pktCnt + 1
            == if q == 2 || q == 3 then Min(LongestBurst(s.edca, q), |s.queue[q]|) else 1
  {
    SelectKeepsInv(s);
    TxopPackets(s.edca[2].txop);
  }

  lemma TxopPackets(txop: nat)
    ensures txop * 32 / 800 == txop / 25
  {}

  /** Over every run: from one contention to the next no more data packets are selected than the
    * longest burst of the winner. */
  lemma BurstAtMostLongest(s: State, go: bool, es: seq<Event>)
    requires Inv(s) && Fresh(s) && Select(s).q < NUM_EDCA_QUEUES
    ensures 1 + DataBeforeContest(Apply(s, Round(go)), es) <= LongestBurst(s.edca, Select(s).q)
  {
    CreditIsLongest(s, go);
    BurstWithinCredit(Apply(s, Round(go)), es);
  }

  // ---------------------------------------------------------------- least weight, and its limit

  predicate FirstLeast(s: State, q: nat)
    requires Shaped(s)
  {
    Ready(s, q) && forall j :: 0 <= j < NUM_EDCA_QUEUES && Ready(s, j) ==>
      s.weight[q] < s.weight[j] || (s.weight[q] == s.weight[j] && q <= j)
  }

  /** The queue chosen is the lowest one of least weight exactly when the first ready queue is,
    * or some ready queue is lighter than the low byte of the first one's weight. In particular
    * it always is when no weight exceeds 255. */
  lemma LeastWeightIff(s: State)
    requires Shaped(s) && !NothingReady(s)
    ensures var f := FirstReady(s);
            FirstLeast(s, Choice(s)) <==>
            || FirstLeast(s, f)
            || exists j :: 0 <= j < NUM_EDCA_QUEUES && Ready(s, j) && s.weight[j] < s.weight[f] % 256
  {
    var f, q := FirstReady(s), Choice(s);
    assert s.weight[f] % 256 <= s.weight[f];
    assert Beats(s, q, f);
    forall j | 0 <= j < NUM_EDCA_QUEUES && Ready(s, j)
      ensures Beats(s, q, j) && f <= j
    {}
  }

  /** The subtraction of `min_weight` is never clipped: every queue left in contention loses
    * exactly the key of the chosen one, and keeps its order with the others. */
  lemma SubtractionNotClipped(s: State, j: nat)
    requires Shaped(s) && !NothingReady(s) && Ready(s, j) && j != Choice(s)
    ensures Key(s, Choice(s)) <= s.weight[j]
    ensures AfterChoice(s).weight[j] == s.weight[j] - Key(s, Choice(s))
  {
    assert Beats(s, Choice(s), j);
    assert s.weight[j] % 256 <= s.weight[j];
  }

  // ---------------------------------------------------------------- bounded waiting

  predicate Fresh(s: State)
    requires Shaped(s)
  {
    s.queue[MGMT_BEACON_Q] == [] && s.queue[MGMT_SOFT_Q] == [] && !s.blocked && s.pktCnt == 0
  }

  ghost function FreshRounds(s: State, es: seq<Event>): nat
    requires Inv(s)
    decreases es
  {
    if es == [] then 0
    else (if es[0].Round? && Fresh(s) then 1 else 0) + FreshRounds(Apply(s, es[0]), es[1..])
  }

  /** Queue `i` always has a packet and no fresh round of the run selects it. */
  ghost predicate Waits(s: State, es: seq<Event>, i: nat)
    requires Inv(s) && i < NUM_EDCA_QUEUES
    decreases es
  {
    && s.queue[i] != []
    && (es != [] ==>
          && !(es[0].Round? && Fresh(s) && Select(s).q == i)
          && Waits(Apply(s, es[0]), es[1..], i))
  }

  /** Queue `j` can win every fresh round against a waiting queue `i`. */
  predicate Blocks(wme: seq<int>, j: nat, i: nat)
    requires |wme| == NUM_EDCA_QUEUES && i < NUM_EDCA_QUEUES && j < NUM_EDCA_QUEUES
  {
    j != i && wme[j] % 256 == 0 && (j < i || (wme[j] == 0 && wme[i] > 0))
  }

  predicate Fair(wme: seq<int>, i: nat)
    requires |wme| == NUM_EDCA_QUEUES && i < NUM_EDCA_QUEUES
  {
    forall j :: 0 <= j < NUM_EDCA_QUEUES ==> !Blocks(wme, j, i)
  }

  /** Queue `j` can win the next fresh round without lowering the weight of `i`. */
  predicate Threat(s: State, j: nat, i: nat)
    requires Shaped(s) && i < NUM_EDCA_QUEUES && j < NUM_EDCA_QUEUES
  {
    j != i && s.contended[j] && (if j < i then s.weight[j] % 256 == 0 else s.weight[j] == 0 && s.weight[i] > 0)
  }

  function One(b: bool): nat { if b then 1 else 0 }

  function Threats(s: State, i: nat): nat
    requires Shaped(s) && i < NUM_EDCA_QUEUES
  {
    One(Threat(s, 0, i)) + One(Threat(s, 1, i)) + One(Threat(s, 2, i)) + One(Threat(s, 3, i))
  }

  /** A bound on the fresh rounds queue `i` still has to wait. */
  function Rank(s: State, i: nat): nat
    requires Shaped(s) && i < NUM_EDCA_QUEUES
  {
    if s.contended[i] then s.weight[i] * NUM_EDCA_QUEUES + Threats(s, i)
    else s.wme[i] * NUM_EDCA_QUEUES + NUM_EDCA_QUEUES
  }

  /** A round won at key 0 uses up the winner's threat and creates none. */
  lemma FreeRoundUsesThreat(s: State, i: nat)
    requires Shaped(s) && Ready(s, i) && Choice(s) != i && Key(s, Choice(s)) == 0 && Fair(s.wme, i)
    ensures var t := AfterChoice(s);
            t.weight[i] == s.weight[i] && t.contended[i] && Threats(t, i) < Threats(s, i)
  {
    var q, t := Choice(s), AfterChoice(s);
    assert Beats(s, q, i);
    forall j | 0 <= j < NUM_EDCA_QUEUES
      ensures Threat(t, j, i) ==> Threat(s, j, i)
    {
      assert !Blocks(s.wme, j, i);
    }
    assert !Blocks(s.wme, q, i);
    assert Threat(s, q, i) && !Threat(t, q, i);
    assert q == 0 || q == 1 || q == 2 || q == 3;
  }

  /** The weights after a fresh round that another queue wins. */
  lemma LosesRound(s: State, go: bool, i: nat)
    requires Inv(s) && Fresh(s) && i < NUM_EDCA_QUEUES && s.queue[i] != [] && Select(s).q != i
    ensures var t, c := Apply(s, Round(go)), Contest(s);
            && !NothingReady(c) && Choice(c) != i && Ready(c, i) == (NothingReady(s) || s.contended[i])
            && t.weight == AfterChoice(c).weight && t.contended == AfterChoice(c).contended && t.contended[i]
  {
    ContestReady(s);
    SelectKeepsInv(s);
  }

  lemma FreshRoundLowersRank(s: State, go: bool, i: nat)
    requires Inv(s) && Fresh(s) && i < NUM_EDCA_QUEUES && s.queue[i] != []
    requires Select(s).q != i && Fair(s.wme, i)
    ensures Rank(Apply(s, Round(go)), i) < Rank(s, i)
  {
    var t := Apply(s, Round(go));
    LosesRound(s, go, i);
    assert Rank(t, i) == t.weight[i] * NUM_EDCA_QUEUES + Threats(t, i);
    if s.contended[i] {
      assert Ready(s, i);
      SubtractionNotClipped(s, i);
      if Key(s, Choice(s)) == 0 {
        FreeRoundUsesThreat(s, i);
        SameThreats(t, AfterChoice(s), i);
      }
    }
  }

  lemma SameThreats(s: State, t: State, i: nat)
    requires Shaped(s) && Shaped(t) && i < NUM_EDCA_QUEUES && s.weight == t.weight && s.contended == t.contended
    ensures Threats(s, i) == Threats(t, i)
  {}

  lemma OtherEventsKeepWeights(s: State, e: Event)
    requires Inv(s) && !(e.Round? && Fresh(s))
    ensures var t := Apply(s, e); t.weight == s.weight && t.contended == s.contended && t.wme == s.wme
  {
    SelectKeepsInv(s);
  }

  lemma OtherEventsKeepRank(s: State, e: Event, i: nat)
    requires Inv(s) && i < NUM_EDCA_QUEUES && !(e.Round? && Fresh(s))
    ensures Rank(Apply(s, e), i) == Rank(s, i)
  {
    OtherEventsKeepWeights(s, e);
    SameThreats(s, Apply(s, e), i);
  }

  /** Under any arrivals, bursts, blocking and hardware back-pressure, a waiting queue sees no
    * more fresh rounds than its rank. */
  lemma {:induction false} BoundedWaiting(s: State, es: seq<Event>, i: nat)
    requires Inv(s) && i < NUM_EDCA_QUEUES && Waits(s, es, i) && Fair(s.wme, i)
    ensures FreshRounds(s, es) <= Rank(s, i) <= s.wme[i] * NUM_EDCA_QUEUES + NUM_EDCA_QUEUES
    decreases es
  {
    if es != [] {
      if es[0].Round? && Fresh(s) {
        FreshRoundLowersRank(s, es[0].go, i);
      } else {
        OtherEventsKeepRank(s, es[0], i);
      }
      BoundedWaiting(Apply(s, es[0]), es[1..], i);
    }
  }

  /** A lower-numbered queue whose contention value is a multiple of 256. */
  predicate Starves(wme: seq<int>, j: nat, i: nat)
    requires |wme| == NUM_EDCA_QUEUES && i < NUM_EDCA_QUEUES
  {
    j < i && wme[j] % 256 == 0
  }

  /** Only queues `i` and `j` hold a packet, and both compete; `last` was selected before. */
  function Duel(wme: seq<int>, edca: seq<EdcaParams>, last: nat, j: nat, i: nat): (s: State)
    requires |wme| == |edca| == NUM_EDCA_QUEUES && i < NUM_EDCA_QUEUES && j < NUM_EDCA_QUEUES
    requires forall k :: 0 <= k < NUM_EDCA_QUEUES ==> wme[k] >= 0
    requires Starves(wme, j, i)
    ensures Inv(s)
  {
    State([[], [], [], [], [], []][i := [Skb(i, 0)]][j := [Skb(j, 0)]],
          [0, 0, 0, 0][i := wme[i]][j := wme[j]],
          [false, false, false, false][i := true][j := true],
          wme, edca, 0, 0, last, false)
  }

  lemma DuelChosen(wme: seq<int>, edca: seq<EdcaParams>, last: nat, j: nat, i: nat)
    requires |wme| == |edca| == NUM_EDCA_QUEUES && i < NUM_EDCA_QUEUES && j < NUM_EDCA_QUEUES
    requires forall k :: 0 <= k < NUM_EDCA_QUEUES ==> wme[k] >= 0
    requires Starves(wme, j, i)
    ensures var s := Duel(wme, edca, last, j, i);
            && Fresh(s) && !NothingReady(s) && Choice(s) == j && Key(s, j) == 0
            && forall k :: 0 <= k < NUM_EDCA_QUEUES && k != i && k != j ==> s.queue[k] == []
  {
    var s := Duel(wme, edca, last, j, i);
    assert Ready(s, i) && Ready(s, j);
    assert forall k :: 0 <= k < NUM_EDCA_QUEUES && k != i && k != j ==> !Ready(s, k) && s.queue[k] == [];
    assert Chosen(s, j);
    ChosenUnique(s, j, Choice(s));
  }

  lemma DuelSelects(wme: seq<int>, edca: seq<EdcaParams>, last: nat, j: nat, i: nat)
    requires |wme| == |edca| == NUM_EDCA_QUEUES && i < NUM_EDCA_QUEUES && j < NUM_EDCA_QUEUES
    requires forall k :: 0 <= k < NUM_EDCA_QUEUES ==> wme[k] >= 0
    requires Starves(wme, j, i)
    ensures var s := Duel(wme, edca, last, j, i);
            Fresh(s) && !NothingReady(s) && Select(s) == Outcome(j, s.(selected := j))
  {
    var s := Duel(wme, edca, last, j, i);
    DuelChosen(wme, edca, last, j, i);
    var t := AfterChoice(s);
    assert t.weight == s.weight && t.contended == s.contended;
  }

  /** In the duel queue `j` wins, is refilled, and the state is the same again. */
  lemma DuelRepeats(wme: seq<int>, edca: seq<EdcaParams>, j: nat, i: nat)
    requires |wme| == |edca| == NUM_EDCA_QUEUES && i < NUM_EDCA_QUEUES && j < NUM_EDCA_QUEUES
    requires forall k :: 0 <= k < NUM_EDCA_QUEUES ==> wme[k] >= 0
    requires Starves(wme, j, i)
    ensures var s := Duel(wme, edca, j, j, i);
            && Fresh(s) && Select(s).q == j && Apply(s, Round(true)).queue[i] != []
            && Apply(Apply(s, Round(true)), Arrive(Skb(j, 0))) == s
  {
    var s := Duel(wme, edca, j, j, i);
    DuelSelects(wme, edca, j, j, i);
    assert s.queue[j] == [Skb(j, 0)];
    var q := s.queue[j := []];
    assert q[j] + [Skb(j, 0)] == [Skb(j, 0)];
    assert q[j := [Skb(j, 0)]] == s.queue;
  }

  function DuelRun(j: nat, n: nat): seq<Event> {
    if n == 0 then [] else [Round(true), Arrive(Skb(j, 0))] + DuelRun(j, n - 1)
  }

  /** An event that does not serve `i`, put in front of a waiting run. */
  lemma OneEvent(s: State, e: Event, rest: seq<Event>, i: nat)
    requires Inv(s) && i < NUM_EDCA_QUEUES && s.queue[i] != [] && !(e.Round? && Fresh(s) && Select(s).q == i)
    requires Waits(Apply(s, e), rest, i)
    ensures Waits(s, [e] + rest, i)
    ensures FreshRounds(s, [e] + rest) == One(e.Round? && Fresh(s)) + FreshRounds(Apply(s, e), rest)
  {
    assert ([e] + rest)[1..] == rest;
  }

  /** A fresh round lost by `i` and an arrival put in front of a waiting run. */
  lemma TwoEvents(s: State, r: Event, a: Event, rest: seq<Event>, i: nat)
    requires Inv(s) && i < NUM_EDCA_QUEUES && r == Round(true) && a.Arrive?
    requires Fresh(s) && s.queue[i] != [] && Select(s).q != i && Apply(s, r).queue[i] != []
    requires Waits(Apply(Apply(s, r), a), rest, i)
    ensures Waits(s, [r, a] + rest, i)
    ensures FreshRounds(s, [r, a] + rest) == 1 + FreshRounds(Apply(Apply(s, r), a), rest)
  {
    OneEvent(Apply(s, r), a, rest, i);
    OneEvent(s, r, [a] + rest, i);
    assert [r, a] + rest == [r] + ([a] + rest);
  }

  /** A state that comes back after queue `j` won a fresh round and was refilled. */
  lemma {:induction false} CycleStarves(s: State, j: nat, i: nat, n: nat)
    requires Inv(s) && i < NUM_EDCA_QUEUES && i != j && Fresh(s) && s.queue[i] != []
    requires Select(s).q == j && Apply(s, Round(true)).queue[i] != []
    requires Apply(Apply(s, Round(true)), Arrive(Skb(j, 0))) == s
    ensures Waits(s, DuelRun(j, n), i) && FreshRounds(s, DuelRun(j, n)) == n
  {
    if n > 0 {
      var rest := DuelRun(j, n - 1);
      CycleStarves(s, j, i, n - 1);
      TwoEvents(s, Round(true), Arrive(Skb(j, 0)), rest, i);
      assert DuelRun(j, n) == [Round(true), Arrive(Skb(j, 0))] + rest;
    }
  }

  lemma DuelStarves(wme: seq<int>, edca: seq<EdcaParams>, j: nat, i: nat, n: nat)
    requires |wme| == |edca| == NUM_EDCA_QUEUES && i < NUM_EDCA_QUEUES && j < NUM_EDCA_QUEUES
    requires forall k :: 0 <= k < NUM_EDCA_QUEUES ==> wme[k] >= 0
    requires Starves(wme, j, i)
    ensures var s := Duel(wme, edca, j, j, i);
            Waits(s, DuelRun(j, n), i) && FreshRounds(s, DuelRun(j, n)) == n
  {
    DuelRepeats(wme, edca, j, i);
    CycleStarves(Duel(wme, edca, j, j, i), j, i, n);
  }

  // ---------------------------------------------------------------- from the driver's initial state

  /** rsi_set_contention_vals: the contention value from CWmin and AIFS. */
  function ContentionValue(cwMin: nat, aifs: nat): nat {
    (cwMin / 2 + aifs) * WMM_SHORT_SLOT_TIME + SIFS_DURATION
  }

  /** For which access parameters the 8-bit field is exact, and for which it can starve others. */
  lemma ContentionValueLimits(cwMin: nat, aifs: nat)
    ensures ContentionValue(cwMin, aifs) <= 255 <==> cwMin / 2 + aifs <= 26
    ensures ContentionValue(cwMin, aifs) % 256 == 0 <==> (cwMin / 2 + aifs) % 256 == 112
  {
    NineTimes(cwMin / 2 + aifs);
  }

  lemma NineTimes(x: nat)
    ensures (x * 9 + 16) % 256 == 0 <==> x % 256 == 112
  {
    var k, r := x / 256, x % 256;
    var m := (x * 9 + 16) / 256;
    assert x == 256 * k + r && x * 9 + 16 == 256 * m + (x * 9 + 16) % 256;
    if (x * 9 + 16) % 256 == 0 {
      assert 9 * r + 16 == 256 * (m - 9 * k);
    }
  }

  function ContentionValues(edca: seq<EdcaParams>): (wme: seq<int>)
    requires |edca| == NUM_EDCA_QUEUES
    ensures |wme| == NUM_EDCA_QUEUES
    ensures forall k :: 0 <= k < NUM_EDCA_QUEUES ==> wme[k] == ContentionValue(edca[k].cwMin, edca[k].aifs) > 0
  {
    seq(NUM_EDCA_QUEUES, k requires 0 <= k < NUM_EDCA_QUEUES => ContentionValue(edca[k].cwMin, edca[k].aifs))
  }

  /** What rsi_set_contention_vals leaves, with empty queues. */
  function Initial(edca: seq<EdcaParams>): (s: State)
    requires |edca| == NUM_EDCA_QUEUES
    ensures Inv(s)
  {
    var wme := ContentionValues(edca);
    State([[], [], [], [], [], []], wme, [false, false, false, false], wme, edca, 0, 0, 0, false)
  }

  /** Both queues have received their first packet. */
  function Challenge(edca: seq<EdcaParams>, j: nat, i: nat): (s: State)
    requires |edca| == NUM_EDCA_QUEUES && j < i < NUM_EDCA_QUEUES
    ensures Inv(s)
  {
    Initial(edca).(queue := [[], [], [], [], [], []][i := [Skb(i, 0)]][j := [Skb(j, 0)]])
  }

  lemma ChallengeReached(edca: seq<EdcaParams>, j: nat, i: nat)
    requires |edca| == NUM_EDCA_QUEUES && j < i < NUM_EDCA_QUEUES
    ensures Apply(Apply(Initial(edca), Arrive(Skb(i, 0))), Arrive(Skb(j, 0))) == Challenge(edca, j, i)
  {
    var none: seq<seq<Skb>> := [[], [], [], [], [], []];
    assert none[i] + [Skb(i, 0)] == [Skb(i, 0)];
    assert none[i := [Skb(i, 0)]][j] + [Skb(j, 0)] == [Skb(j, 0)];
  }

  /** The challenge is where two arrivals lead from the initial state. */
  lemma ChallengeRun(edca: seq<EdcaParams>, j: nat, i: nat)
    requires |edca| == NUM_EDCA_QUEUES && j < i < NUM_EDCA_QUEUES
    ensures Run(Initial(edca), [Arrive(Skb(i, 0)), Arrive(Skb(j, 0))]) == Challenge(edca, j, i)
  {
    var a, b := Arrive(Skb(i, 0)), Arrive(Skb(j, 0));
    ChallengeReached(edca, j, i);
    RunOne(Apply(Initial(edca), a), b);
    assert [a, b][1..] == [b];
  }

  /** Both queues then compete, with their contention values. */
  lemma ChallengeCompetes(edca: seq<EdcaParams>, j: nat, i: nat)
    requires |edca| == NUM_EDCA_QUEUES && j < i < NUM_EDCA_QUEUES
    ensures var s, t, wme := Challenge(edca, j, i), Contest(Challenge(edca, j, i)), ContentionValues(edca);
            && Fresh(s)
            && (forall k :: 0 <= k < NUM_EDCA_QUEUES ==> (Ready(t, k) <==> k == i || k == j))
            && t.weight[i] == wme[i] && t.weight[j] == wme[j]
  {
    var s := Challenge(edca, j, i);
    assert forall k :: 0 <= k < NUM_EDCA_QUEUES ==> !Ready(s, k);
    assert Contest(s) == Recalculated(s);
    assert forall k :: 0 <= k < NUM_EDCA_QUEUES ==> (s.queue[k] != [] <==> k == i || k == j);
  }

  /** The choice between two ready queues. */
  lemma ChoiceOfTwo(t: State, j: nat, i: nat)
    requires Shaped(t) && j < i < NUM_EDCA_QUEUES && t.weight[i] < t.weight[j]
    requires forall k :: 0 <= k < NUM_EDCA_QUEUES ==> (Ready(t, k) <==> k == i || k == j)
    ensures !NothingReady(t) && Choice(t) == if t.weight[j] % 256 <= t.weight[i] then j else i
    ensures FirstLeast(t, Choice(t)) <==> Choice(t) == i
  {
    assert Ready(t, j);
    assert FirstReady(t) == j;
    var q := if t.weight[j] % 256 <= t.weight[i] then j else i;
    assert Chosen(t, q);
    ChosenUnique(t, q, Choice(t));
  }

  /** Of two queues that compete from the initial state the heavier, lower-numbered one is chosen
    * exactly when the low byte of its contention value does not exceed the other's. */
  lemma HeavierQueueIff(edca: seq<EdcaParams>, j: nat, i: nat)
    requires |edca| == NUM_EDCA_QUEUES && j < i < NUM_EDCA_QUEUES
    requires ContentionValues(edca)[i] < ContentionValues(edca)[j]
    ensures var s, wme := Run(Initial(edca), [Arrive(Skb(i, 0)), Arrive(Skb(j, 0))]), ContentionValues(edca);
            && Fresh(s) && !NothingReady(Contest(s))
            && (Select(s).q == j <==> wme[j] % 256 <= wme[i])
            && (FirstLeast(Contest(s), Select(s).q) <==> wme[j] % 256 > wme[i])
  {
    ChallengeRun(edca, j, i);
    ChallengeCompetes(edca, j, i);
    ChoiceOfTwo(Contest(Challenge(edca, j, i)), j, i);
  }

  /** CWmin 63 and AIFS 1 give 304, CWmin 15 and AIFS 3 give 106: the heavier queue is chosen. */
  lemma HeavierQueueChosen()
    ensures exists edca: seq<EdcaParams>, es: seq<Event> ::
              && |edca| == NUM_EDCA_QUEUES
              && var s := Run(Initial(edca), es);
                 Fresh(s) && !NothingReady(Contest(s)) && !FirstLeast(Contest(s), Select(s).q)
  {
    var heavy, light := EdcaParams(false, 0, 1, 63), EdcaParams(false, 0, 3, 15);
    var edca := [heavy, light, light, light];
    assert ContentionValues(edca)[0] == 304 && ContentionValues(edca)[1] == 106;
    HeavierQueueIff(edca, 0, 1);
  }

  /** A recalculation, weight by weight. */
  lemma RecalculatedIs(s: State, weight: seq<int>, contended: seq<bool>)
    requires Shaped(s) && |weight| == |contended| == NUM_EDCA_QUEUES
    requires forall k :: 0 <= k < NUM_EDCA_QUEUES ==> weight[k] == NewWeight(s, k)
    requires forall k :: 0 <= k < NUM_EDCA_QUEUES ==> contended[k] == (s.queue[k] != [])
    ensures Recalculated(s) == s.(weight := weight, contended := contended)
  {
    assert Recalculated(s).weight == weight;
    assert Recalculated(s).contended == contended;
  }

  /** In the first round both enter the contention, as in the duel. */
  lemma ChallengeContest(edca: seq<EdcaParams>, j: nat, i: nat)
    requires |edca| == NUM_EDCA_QUEUES && j < i < NUM_EDCA_QUEUES
    requires ContentionValues(edca)[j] % 256 == 0
    ensures var s, d := Challenge(edca, j, i), Duel(ContentionValues(edca), edca, 0, j, i);
            Fresh(s) && NothingReady(s) && Recalculated(s) == d
  {
    var s, d := Challenge(edca, j, i), Duel(ContentionValues(edca), edca, 0, j, i);
    forall k | 0 <= k < NUM_EDCA_QUEUES
      ensures d.weight[k] == NewWeight(s, k) && d.contended[k] == (s.queue[k] != [])
    {
      assert k == i || k == j || s.queue[k] == [];
    }
    RecalculatedIs(s, d.weight, d.contended);
  }

  /** Queue `j` wins it at key 0. */
  lemma ChallengeWon(edca: seq<EdcaParams>, j: nat, i: nat)
    requires |edca| == NUM_EDCA_QUEUES && j < i < NUM_EDCA_QUEUES
    requires ContentionValues(edca)[j] % 256 == 0
    ensures Select(Challenge(edca, j, i)) == Outcome(j, Duel(ContentionValues(edca), edca, j, j, i))
  {
    var wme, s := ContentionValues(edca), Challenge(edca, j, i);
    ChallengeContest(edca, j, i);
    DuelSelects(wme, edca, 0, j, i);
    ContestSelects(s, Duel(wme, edca, 0, j, i));
  }

  /** The extra recalculation leads to the same selection as its result. */
  lemma ContestSelects(s: State, t: State)
    requires Inv(s) && Inv(t) && Fresh(s) && Fresh(t) && NothingReady(s) && Recalculated(s) == t && !NothingReady(t)
    ensures Select(s) == Select(t)
  {}

  /** The duel is reached from the initial state in four events. */
  lemma DuelReached(edca: seq<EdcaParams>, j: nat, i: nat) returns (es: seq<Event>)
    requires |edca| == NUM_EDCA_QUEUES && j < i < NUM_EDCA_QUEUES
    requires ContentionValues(edca)[j] % 256 == 0
    ensures Run(Initial(edca), es) == Duel(ContentionValues(edca), edca, j, j, i)
  {
    var s0, s2, d := Initial(edca), Challenge(edca, j, i), Duel(ContentionValues(edca), edca, j, j, i);
    ChallengeReached(edca, j, i);
    ChallengeWon(edca, j, i);
    DuelRepeats(ContentionValues(edca), edca, j, i);
    DuelSelects(ContentionValues(edca), edca, j, j, i);
    assert Apply(s2, Round(true)) == Apply(d, Round(true));
    es := [Arrive(Skb(i, 0)), Arrive(Skb(j, 0)), Round(true), Arrive(Skb(j, 0))];
    assert es[1..] == [Arrive(Skb(j, 0)), Round(true), Arrive(Skb(j, 0))];
    assert es[1..][1..] == [Round(true), Arrive(Skb(j, 0))] && es[1..][1..][1..] == [Arrive(Skb(j, 0))];
    RunOne(Apply(d, Round(true)), Arrive(Skb(j, 0)));
    assert Run(s2, [Round(true), Arrive(Skb(j, 0))]) == d;
    assert Run(Apply(s0, Arrive(Skb(i, 0))), es[1..]) == Run(s2, es[1..][1..]);
  }

  lemma RunOne(s: State, e: Event)
    requires Inv(s)
    ensures Run(s, [e]) == Apply(s, e)
  {
    assert [e][1..] == [];
  }

  lemma {:induction false} RunKeepsWme(s: State, es: seq<Event>)
    requires Inv(s)
    ensures Run(s, es).wme == s.wme
    decreases es
  {
    if es != [] {
      RunKeepsWme(Apply(s, es[0]), es[1..]);
    }
  }

  /** The access parameters of queue `j` give a contention value that is a multiple of 256. */
  predicate Offensive(e: EdcaParams) {
    (e.cwMin / 2 + e.aifs) % 256 == 112
  }

  /** In every run from the initial state, from whatever point queue `i` waits, the fresh rounds
    * it loses stay within the bound. */
  ghost predicate AlwaysBounded(edca: seq<EdcaParams>, i: nat)
    requires |edca| == NUM_EDCA_QUEUES && i < NUM_EDCA_QUEUES
  {
    forall before: seq<Event>, es: seq<Event> ::
      var s := Run(Initial(edca), before);
      Waits(s, es, i) ==> FreshRounds(s, es) <= ContentionValues(edca)[i] * NUM_EDCA_QUEUES + NUM_EDCA_QUEUES
  }

  lemma OffensiveStarves(edca: seq<EdcaParams>, j: nat, i: nat)
    requires |edca| == NUM_EDCA_QUEUES && j < i < NUM_EDCA_QUEUES && Offensive(edca[j])
    ensures !AlwaysBounded(edca, i)
  {
    var wme := ContentionValues(edca);
    ContentionValueLimits(edca[j].cwMin, edca[j].aifs);
    var before := DuelReached(edca, j, i);
    var n := wme[i] * NUM_EDCA_QUEUES + NUM_EDCA_QUEUES + 1;
    DuelStarves(wme, edca, j, i, n);
    assert Waits(Run(Initial(edca), before), DuelRun(j, n), i);
  }

  /** Waiting is bounded in every run of the driver exactly when no lower-numbered queue has
    * access parameters that make its contention value a multiple of 256; such a queue can win
    * every round. */
  lemma BoundedWaitingIff(edca: seq<EdcaParams>, i: nat)
    requires |edca| == NUM_EDCA_QUEUES && i < NUM_EDCA_QUEUES
    ensures AlwaysBounded(edca, i) <==> forall j :: 0 <= j < i ==> !Offensive(edca[j])
  {
    var wme := ContentionValues(edca);
    if forall j :: 0 <= j < i ==> !Offensive(edca[j]) {
      forall j | 0 <= j < NUM_EDCA_QUEUES
        ensures !Blocks(wme, j, i)
      {
        ContentionValueLimits(edca[j].cwMin, edca[j].aifs);
      }
      forall before: seq<Event>, es: seq<Event> | Waits(Run(Initial(edca), before), es, i)
        ensures FreshRounds(Run(Initial(edca), before), es) <= wme[i] * NUM_EDCA_QUEUES + NUM_EDCA_QUEUES
      {
        RunKeepsWme(Initial(edca), before);
        BoundedWaiting(Run(Initial(edca), before), es, i);
      }
    } else {
      var j: nat :| 0 <= j < i && Offensive(edca[j]);
      OffensiveStarves(edca, j, i);
    }
  }

  // ---------------------------------------------------------------- the driver's code

  /** What the processor finds around it in one iteration. */
  datatype Surroundings = Surroundings(
    arrival: Option<Skb>, urgent: Option<Skb>, hibernateResume: bool, hwStatus: int, peerNotify: bool, hwGone: bool, sendStatus: int)

  /** Arrivals from other threads before an iteration. */
  function Incoming(e: Surroundings): seq<Event> {
    (if e.arrival.Some? then [Arrive(e.arrival.value)] else []) + (if e.urgent.Some? then [Urgent(e.urgent.value)] else [])
  }

  /** What the surroundings offer to a queue over some iterations. */
  function Offered(env: seq<Surroundings>, q: nat): seq<Skb> {
    if env == [] then [] else Offered(env[..|env| - 1], q) + Arrived(Incoming(env[|env| - 1]), q)
  }

  function OfferedCount(env: seq<Surroundings>): nat {
    if env == [] then 0 else OfferedCount(env[..|env| - 1]) + |Incoming(env[|env| - 1])|
  }

  /** The hardware is there and has room, nothing resumes from hibernation, and the send succeeds. */
  predicate Smooth(e: Surroundings) {
    e.hwStatus > 0 && !e.hibernateResume && !e.hwGone && e.sendStatus == 0
  }

  lemma {:induction false} ArrivedAppend(es: seq<Event>, more: seq<Event>, q: nat)
    ensures Arrived(es + more, q) == Arrived(es, q) + Arrived(more, q)
    decreases es
  {
    if es == [] {
      assert es + more == more;
    } else {
      assert (es + more)[0] == es[0] && (es + more)[1..] == es[1..] + more;
      ArrivedAppend(es[1..], more, q);
      Concat(ArrivedNow(es[0], q), Arrived(es[1..], q), Arrived(more, q));
    }
  }

  /** One more iteration offers what comes in before it. */
  lemma OfferedExtends(env: seq<Surroundings>, n: nat, trace: seq<Event>, go: bool, q: nat)
    requires n < |env| && Arrived(trace, q) == Offered(env[..n], q)
    ensures Arrived(trace + Incoming(env[n]) + [Round(go)], q) == Offered(env[..n + 1], q)
  {
    ArrivedAppend(trace, Incoming(env[n]), q);
    ArrivedAppend(trace + Incoming(env[n]), [Round(go)], q);
    assert [Round(go)][1..] == [];
    assert Arrived([Round(go)], q) == [];
    assert env[..n + 1][..n] == env[..n];
  }

  lemma {:induction false} RunExtends(s: State, es: seq<Event>, e: Event)
    requires Inv(s)
    ensures Run(s, es + [e]) == Apply(Run(s, es), e)
    decreases es
  {
    if es == [] {
      assert [e][1..] == [];
    } else {
      RunExtends(Apply(s, es[0]), es[1..], e);
      assert (es + [e])[1..] == es[1..] + [e];
    }
  }

  lemma {:induction false} TakenExtends(s: State, es: seq<Event>, e: Event)
    requires Inv(s)
    ensures Taken(s, es + [e]) == Taken(s, es) + TakenNow(Run(s, es), e)
    decreases es
  {
    if es == [] {
      assert [e][1..] == [];
    } else {
      var t, rest := Apply(s, es[0]), es[1..];
      TakenExtends(t, rest, e);
      var longer := es + [e];
      assert longer[0] == es[0] && longer[1..] == rest + [e];
      Concat(TakenNow(s, es[0]), Taken(t, rest), TakenNow(Run(t, rest), e));
    }
  }

  /** One more event: the state it leads to, and what it takes off the queues. */
  lemma Extends(s: State, es: seq<Event>, e: Event)
    requires Inv(s)
    ensures Run(s, es + [e]) == Apply(Run(s, es), e)
    ensures Taken(s, es + [e]) == Taken(s, es) + TakenNow(Run(s, es), e)
    ensures NoUrgent(es) && !e.Urgent? ==> NoUrgent(es + [e])
  {
    RunExtends(s, es, e);
    TakenExtends(s, es, e);
  }

  /** No frame is put in front of the management queue. */
  predicate NoUrgent(es: seq<Event>) {
    forall e :: e in es ==> !e.Urgent?
  }

  class Common {
    var txQueue: array<seq<Skb>>
    var weight: array<int>
    var wmeParams: array<int>
    var pktContended: array<bool>
    var edcaParams: seq<EdcaParams>
    var minWeight: int
    var pktCnt: nat
    var selectedQnum: nat
    var hwDataQsBlocked: bool

    ghost predicate Valid()
      reads this, txQueue, weight, wmeParams, pktContended
    {
      && txQueue.Length == NUM_SOFT_QUEUES
      && weight.Length == wmeParams.Length == pktContended.Length == NUM_EDCA_QUEUES
      && weight != wmeParams
      && Inv(Abs())
    }

    ghost function Abs(): State
      reads this, txQueue, weight, wmeParams, pktContended
    {
      State(txQueue[..], weight[..], pktContended[..], wmeParams[..], edcaParams,
            minWeight, pktCnt, selectedQnum, hwDataQsBlocked)
    }

    /** rsi_determine_min_weight_queue */
    method DetermineMinWeightQueue() returns (ii: nat)
      requires txQueue.Length == NUM_SOFT_QUEUES
      requires weight.Length == pktContended.Length == NUM_EDCA_QUEUES
      requires Shaped(Abs())
      modifies this`minWeight
      ensures ii == FirstReady(old(Abs()))
      ensures minWeight == if ii < NUM_EDCA_QUEUES then weight[ii] % 256 else old(minWeight)
    {
      ii := 0;
      while ii < NUM_EDCA_QUEUES
        invariant 0 <= ii <= NUM_EDCA_QUEUES
        invariant minWeight == old(minWeight)
        invariant forall j :: 0 <= j < ii ==> !Ready(old(Abs()), j)
      {
        if pktContended[ii] && |txQueue[ii]| != 0 {
          minWeight := weight[ii] % 256;
          break;
        }
        ii := ii + 1;
      }
    }

    /** rsi_recalculate_weights */
    method RecalculateWeights() returns (recontend: bool)
      requires txQueue.Length == NUM_SOFT_QUEUES && weight != wmeParams
      requires weight.Length == wmeParams.Length == pktContended.Length == NUM_EDCA_QUEUES
      requires Shaped(Abs())
      modifies weight, pktContended
      ensures Abs() == Recalculated(old(Abs()))
      ensures recontend <==>
              exists i :: 0 <= i < NUM_EDCA_QUEUES && txQueue[i] != [] && !old(pktContended[i])
    {
      recontend := false;
      for ii := 0 to NUM_EDCA_QUEUES
        invariant forall i :: 0 <= i < ii ==> weight[i] == NewWeight(old(Abs()), i)
        invariant forall i :: 0 <= i < ii ==> pktContended[i] == (txQueue[i] != [])
        invariant forall i :: ii <= i < NUM_EDCA_QUEUES ==>
                    weight[i] == old(weight[i]) && pktContended[i] == old(pktContended[i])
        invariant recontend <==> exists i :: 0 <= i < ii && txQueue[i] != [] && !old(pktContended[i])
      {
        if |txQueue[ii]| != 0 {
          if pktContended[ii] {
            weight[ii] := if weight[ii] > minWeight then weight[ii] - minWeight else 0;
          } else {
            pktContended[ii] := true;
            weight[ii] := wmeParams[ii];
            recontend := true;
          }
        } else {
          weight[ii] := 0;
          pktContended[ii] := false;
        }
      }
      assert weight[..] == Recalculated(old(Abs())).weight;
      assert pktContended[..] == Recalculated(old(Abs())).contended;
    }

    /** The search for the queue with least back-off, from the label `get_queue_num`. */
    method LeastBackoff() returns (qNum: nat)
      requires txQueue.Length == NUM_SOFT_QUEUES
      requires weight.Length == pktContended.Length == NUM_EDCA_QUEUES
      requires Shaped(Abs())
      modifies this`minWeight
      ensures NothingReady(old(Abs())) ==> qNum == NUM_EDCA_QUEUES && minWeight == old(minWeight)
      ensures !NothingReady(old(Abs())) ==> qNum == Choice(old(Abs())) && minWeight == Key(old(Abs()), qNum)
    {
      ghost var before := Abs();
      qNum := DetermineMinWeightQueue();
      var ii := qNum;
      while ii < NUM_EDCA_QUEUES
        invariant FirstReady(before) <= ii <= NUM_EDCA_QUEUES && (ii < NUM_EDCA_QUEUES ==> qNum <= ii)
        invariant NothingReady(before) ==> qNum == NUM_EDCA_QUEUES && minWeight == before.minWeight
        invariant !NothingReady(before) ==> Ready(before, qNum) && 0 <= minWeight == Key(before, qNum) < 256
        invariant !NothingReady(before) ==>
                    forall j :: 0 <= j < ii && Ready(before, j) ==> Beats(before, qNum, j)
      {
        assert weight[ii] == before.weight[ii] && weight[ii] % 256 <= weight[ii];
        if pktContended[ii] && weight[ii] < minWeight && |txQueue[ii]| != 0 {
          minWeight := weight[ii];
          qNum := ii;
        }
        ii := ii + 1;
      }
      if !NothingReady(before) {
        ChosenUnique(before, qNum, Choice(before));
      }
    }

    /** One pass from the label `get_queue_num` to the recalculation. */
    method GetQueueNum() returns (qNum: nat, recontend: bool)
      requires txQueue.Length == NUM_SOFT_QUEUES && weight != wmeParams
      requires weight.Length == wmeParams.Length == pktContended.Length == NUM_EDCA_QUEUES
      requires Shaped(Abs())
      modifies this`minWeight, weight, pktContended
      ensures NothingReady(old(Abs())) ==>
                && qNum == NUM_EDCA_QUEUES
                && Abs() == Recalculated(old(Abs()))
                && (recontend <==> !DataEmpty(old(Abs())))
      ensures !NothingReady(old(Abs())) ==>
                qNum == Choice(old(Abs())) && Abs() == AfterChoice(old(Abs()))
    {
      ghost var before := Abs();
      qNum := LeastBackoff();
      if qNum < NUM_EDCA_QUEUES {
        pktContended[qNum] := false;
      }
      assert Abs() == if NothingReady(before) then before
                      else before.(contended := before.contended[qNum := false], minWeight := Key(before, qNum));
      assert NothingReady(before) ==>
        forall i :: 0 <= i < NUM_EDCA_QUEUES && txQueue[i] != [] ==> !Ready(before, i) && !pktContended[i];
      recontend := RecalculateWeights();
    }

    /** The burst credit granted at the end of a contention round. */
    method GrantCredit(qNum: nat)
      requires txQueue.Length == NUM_SOFT_QUEUES && Shaped(Abs())
      requires qNum < NUM_EDCA_QUEUES && selectedQnum == qNum
      modifies this`pktCnt
      ensures pktCnt == Credit(old(Abs()), qNum)
    {
      if qNum == VO_Q || qNum == VI_Q {
        if selectedQnum == VO_Q {
          pktCnt := if edcaParams[qNum].acm then 1 else 6;
        } else if edcaParams[qNum].acm {
          pktCnt := 1;
        } else {
          pktCnt := edcaParams[qNum].txop * 32 / 800;
          if edcaParams[VI_Q].aifs > edcaParams[BE_Q].aifs {
            pktCnt := 2;
          }
        }
        if |txQueue[qNum]| <= pktCnt {
          pktCnt := |txQueue[qNum]|;
        }
        pktCnt := if pktCnt != 0 then pktCnt - 1 else 0;
      }
    }

    /** The contention rounds: each loop iteration starts at the label `get_queue_num`,
      * and there are at most two. */
    method ContendQueues() returns (qNum: nat, ghost passes: nat)
      requires Valid() && pktCnt == 0 && txQueue[MGMT_SOFT_Q] == []
      modifies this`minWeight, weight, pktContended
      ensures passes <= 2
      ensures var start := old(Abs());
              if DataEmpty(start) then qNum == INVALID_QUEUE && Abs() == Contest(start)
              else !NothingReady(Contest(start)) && qNum == Choice(Contest(start)) && Abs() == AfterChoice(Contest(start))
    {
      ContestReady(Abs());
      qNum, passes := 0, 0;
      var recontend := true;
      while recontend
        invariant passes <= 1 && recontend
        invariant Abs() == if passes == 0 then old(Abs()) else Contest(old(Abs()))
        invariant passes == 1 ==> NothingReady(old(Abs())) && !DataEmpty(old(Abs()))
        decreases 2 - passes
      {
        passes := passes + 1;
        qNum, recontend := GetQueueNum();
        if |txQueue[qNum]| == 0 {
          if recontend {
            continue;
          }
          return INVALID_QUEUE, passes;
        }
        break;
      }
    }

    /** A fresh round: contention, then the burst credit of the winner. */
    method FreshRound() returns (qNum: nat)
      requires Valid() && pktCnt == 0 && txQueue[MGMT_SOFT_Q] == []
      modifies this`minWeight, this`pktCnt, this`selectedQnum, weight, pktContended
      ensures Outcome(qNum, Abs()) == Contend(old(Abs()))
    {
      ContestReady(Abs());
      ghost var passes;
      qNum, passes := ContendQueues();
      if qNum != INVALID_QUEUE {
        SelectQueue(qNum);
      }
    }

    /** The winner is recorded, with its burst credit. */
    method SelectQueue(qNum: nat)
      requires txQueue.Length == NUM_SOFT_QUEUES && Shaped(Abs()) && qNum < NUM_EDCA_QUEUES
      modifies this`pktCnt, this`selectedQnum
      ensures Abs() == old(Abs()).(selected := qNum, pktCnt := Credit(old(Abs()), qNum))
    {
      ghost var u := Abs();
      selectedQnum := qNum;
      GrantCredit(qNum);
      assert Credit(u.(selected := qNum), qNum) == Credit(u, qNum);
    }

    /** rsi_core_determine_hal_queue */
    method DetermineHalQueue() returns (qNum: nat)
      requires Valid()
      modifies this`minWeight, this`pktCnt, this`selectedQnum, weight, pktContended
      ensures Valid()
      ensures Outcome(qNum, Abs()) == Select(old(Abs()))
    {
      SelectKeepsInv(Abs());
      if |txQueue[MGMT_BEACON_Q]| != 0 {
        qNum := MGMT_BEACON_Q;
      } else if |txQueue[MGMT_SOFT_Q]| != 0 {
        qNum := MGMT_SOFT_Q;
      } else if hwDataQsBlocked {
        qNum := INVALID_QUEUE;
      } else if pktCnt != 0 {
        pktCnt := pktCnt - 1;
        qNum := selectedQnum;
      } else {
        qNum := FreshRound();
      }
    }

    /** rsi_set_contention_vals: a new run begins. */
    method SetContentionVals()
      requires Valid()
      modifies wmeParams, weight, pktContended
      ensures Valid()
      ensures Abs() == old(Abs()).(wme := ContentionValues(edcaParams), weight := ContentionValues(edcaParams),
                                   contended := [false, false, false, false])
      ensures (txQueue[..] == [[], [], [], [], [], []] && minWeight == pktCnt == selectedQnum == 0 && !hwDataQsBlocked) ==>
                Abs() == Initial(edcaParams)
    {
      for ii := 0 to NUM_EDCA_QUEUES
        invariant forall k :: 0 <= k < ii ==>
                    wmeParams[k] == weight[k] == ContentionValues(edcaParams)[k] && !pktContended[k]
      {
        wmeParams[ii] := (edcaParams[ii].cwMin / 2 + edcaParams[ii].aifs) * WMM_SHORT_SLOT_TIME + SIFS_DURATION;
        weight[ii] := wmeParams[ii];
        pktContended[ii] := false;
      }
      assert wmeParams[..] == ContentionValues(edcaParams) == weight[..];
      assert pktContended[..] == [false, false, false, false];
    }

    /** rsi_core_queue_pkt */
    method QueuePkt(skb: Skb)
      requires Valid()
      modifies txQueue
      ensures Valid() && Abs() == Apply(old(Abs()), Arrive(skb))
    {
      ghost var s := Abs();
      var qNum := skb.priority;
      if qNum >= NUM_SOFT_QUEUES {
        return;
      }
      txQueue[qNum] := txQueue[qNum] + [skb];
      assert txQueue[..] == Enqueued(s, skb).queue;
    }

    /** rsi_send_internal_mgmt_frame, for a frame that goes in front. */
    method QueueUrgent(skb: Skb)
      requires Valid()
      modifies txQueue
      ensures Valid() && Abs() == Apply(old(Abs()), Urgent(skb))
    {
      ghost var s := Abs();
      txQueue[MGMT_SOFT_Q] := [skb] + txQueue[MGMT_SOFT_Q];
      assert txQueue[..] == PutFirst(s, skb).queue;
    }

    /** rsi_core_dequeue_pkt */
    method DequeuePkt(qNum: nat) returns (skb: Option<Skb>)
      requires Valid()
      modifies txQueue
      ensures skb == if qNum < NUM_SOFT_QUEUES && old(txQueue[qNum]) != [] then Some(old(txQueue[qNum])[0]) else None
      ensures txQueue.Length == NUM_SOFT_QUEUES
      ensures Abs() == if skb.Some? then Dequeued(old(Abs()), qNum) else old(Abs())
    {
      ghost var s := Abs();
      if qNum >= NUM_SOFT_QUEUES || |txQueue[qNum]| == 0 {
        return None;
      }
      skb := Some(txQueue[qNum][0]);
      txQueue[qNum] := txQueue[qNum][1..];
      assert txQueue[..] == Dequeued(s, qNum).queue;
    }

    /** One iteration of rsi_core_qos_processor, up to the hand-over of the packet. The
      * null-packet branch is unreachable. A data packet taken while the hardware is gone is
      * `lost`: it has left its queue and is handed to nobody. */
    method Iterate(e: Surroundings) returns (out: seq<Sending>, lost: bool, stop: bool)
      requires Valid()
      modifies this`minWeight, this`pktCnt, this`selectedQnum, weight, pktContended, txQueue
      ensures Valid()
      ensures Abs() == Apply(old(Abs()), Round(out != []))
      ensures out == TakenNow(old(Abs()), Round(out != []))
      ensures lost <==> out != [] && out[0].q < MGMT_SOFT_Q && e.hwGone
      ensures stop <==> out == [] || lost || e.sendStatus != 0
      ensures e.hwStatus <= 0 && out != [] ==> out[0].q == MGMT_BEACON_Q || (out[0].q == MGMT_SOFT_Q && e.peerNotify)
      ensures e.hibernateResume ==> out == []
      ensures !e.hibernateResume && (e.hwStatus > 0 || old(txQueue[MGMT_BEACON_Q]) != []
                                     || (e.peerNotify && old(txQueue[MGMT_SOFT_Q]) != [])) ==>
                (out == [] <==> Select(old(Abs())).q == INVALID_QUEUE)
    {
      SelectKeepsInv(Abs());
      var qNum := DetermineHalQueue();
      if qNum == INVALID_QUEUE || e.hibernateResume {
        return [], false, true;
      }
      if e.hwStatus <= 0 && (qNum < MGMT_SOFT_Q || (!e.peerNotify && qNum == MGMT_SOFT_Q)) {
        return [], false, true;
      }
      var skb := DequeuePkt(qNum);
      if skb.None? {
        assert false;
      }
      out := [Sending(qNum, skb.value)];
      lost := qNum < MGMT_SOFT_Q && e.hwGone;
      stop := lost || e.sendStatus != 0;
    }

    /** Arrivals from other threads, if there are any: at the end of a queue, */
    method TakeArrival(arrival: Option<Skb>, ghost start: State, ghost trace: seq<Event>, ghost taken: seq<Sending>)
      returns (ghost trace': seq<Event>)
      requires Valid() && Inv(start) && Abs() == Run(start, trace) && taken == Taken(start, trace)
      modifies txQueue
      ensures Valid() && Abs() == Run(start, trace') && taken == Taken(start, trace')
      ensures trace' == trace + (if arrival.Some? then [Arrive(arrival.value)] else [])
      ensures Backlog(Abs()) <= Backlog(old(Abs())) + One(arrival.Some?)
    {
      trace' := trace;
      if arrival.Some? {
        BacklogAfterArrival(Abs(), Arrive(arrival.value));
        QueuePkt(arrival.value);
        Extends(start, trace, Arrive(arrival.value));
        trace' := trace + [Arrive(arrival.value)];
      }
    }

    /** and in front of the management queue. */
    method TakeUrgent(urgent: Option<Skb>, ghost start: State, ghost trace: seq<Event>, ghost taken: seq<Sending>)
      returns (ghost trace': seq<Event>)
      requires Valid() && Inv(start) && Abs() == Run(start, trace) && taken == Taken(start, trace)
      modifies txQueue
      ensures Valid() && Abs() == Run(start, trace') && taken == Taken(start, trace')
      ensures trace' == trace + (if urgent.Some? then [Urgent(urgent.value)] else [])
      ensures Backlog(Abs()) <= Backlog(old(Abs())) + One(urgent.Some?)
    {
      trace' := trace;
      if urgent.Some? {
        BacklogAfterArrival(Abs(), Urgent(urgent.value));
        QueueUrgent(urgent.value);
        Extends(start, trace, Urgent(urgent.value));
        trace' := trace + [Urgent(urgent.value)];
      }
    }

    method Receive(e: Surroundings, ghost start: State, ghost trace: seq<Event>, ghost taken: seq<Sending>)
      returns (ghost trace': seq<Event>)
      requires Valid() && Inv(start) && Abs() == Run(start, trace) && taken == Taken(start, trace)
      modifies txQueue
      ensures Valid() && Abs() == Run(start, trace') && taken == Taken(start, trace')
      ensures trace' == trace + Incoming(e)
      ensures Backlog(Abs()) <= Backlog(old(Abs())) + |Incoming(e)|
    {
      trace' := TakeArrival(e.arrival, start, trace, taken);
      trace' := TakeUrgent(e.urgent, start, trace', taken);
    }

    /** One iteration with the arrival before it, appended to the run so far. */
    method Turn(e: Surroundings, ghost start: State, ghost trace: seq<Event>, ghost taken: seq<Sending>)
      returns (out: seq<Sending>, lost: bool, stop: bool, ghost trace': seq<Event>)
      requires Valid() && Inv(start) && Abs() == Run(start, trace) && taken == Taken(start, trace)
      modifies this`minWeight, this`pktCnt, this`selectedQnum, weight, pktContended, txQueue
      ensures Valid() && Abs() == Run(start, trace')
      ensures taken + out == Taken(start, trace')
      ensures lost ==> stop && |out| == 1 && out[0].q < MGMT_SOFT_Q && e.hwGone
      ensures trace' == trace + Incoming(e) + [Round(out != [])]
      ensures Backlog(Abs()) <= Backlog(old(Abs())) + |Incoming(e)| - |out|
      ensures Smooth(e) && !hwDataQsBlocked ==> !lost && |out| <= 1 && (stop <==> out == []) && (stop ==> Backlog(Abs()) == 0)
    {
      trace' := Receive(e, start, trace, taken);
      ghost var s := Abs();
      out, lost, stop := Iterate(e);
      BacklogAfterRound(s, out != []);
      if !hwDataQsBlocked {
        WorkConserving(s);
      }
      Extends(start, trace', Round(out != []));
      trace' := trace' + [Round(out != [])];
    }

    /** The same as iteration `n` in given surroundings: what is taken is sent, or dropped. */
    method NextTurn(env: seq<Surroundings>, n: nat, ghost start: State, ghost trace: seq<Event>, sent: seq<Sending>)
      returns (sent': seq<Sending>, dropped: seq<Sending>, stop: bool, ghost trace': seq<Event>)
      requires Valid() && Inv(start) && hwDataQsBlocked == start.blocked
      requires n < |env| && Served(start, Abs(), env, n, sent, [], false, trace)
      modifies this`minWeight, this`pktCnt, this`selectedQnum, weight, pktContended, txQueue
      ensures Valid() && Served(start, Abs(), env, n + 1, sent', dropped, stop, trace')
    {
      ghost var s := Abs();
      var out, lost;
      out, lost, stop, trace' := Turn(env[n], start, trace, sent);
      TurnComesIn(env, n, trace, out != []);
      TurnClears(start, s, Abs(), env, n, out, lost, stop);
      sent', dropped := if lost then sent else sent + out, if lost then out else [];
    }

    /** The loop of rsi_core_qos_processor; `env` supplies what the surroundings do in each iteration.
      * It performs the run `trace` and ends after `turns` iterations, when it stops or at the end of
      * `env`. */
    method ServeQueues(env: seq<Surroundings>)
      returns (sent: seq<Sending>, dropped: seq<Sending>, turns: nat, stop: bool, ghost trace: seq<Event>)
      requires Valid()
      modifies this`minWeight, this`pktCnt, this`selectedQnum, weight, pktContended, txQueue
      ensures Valid() && Served(old(Abs()), Abs(), env, turns, sent, dropped, stop, trace)
      ensures turns == |env| || stop
    {
      ghost var start := Abs();
      sent, dropped, turns, stop, trace := [], [], 0, false, [];
      NothingServed(start, env);
      while turns < |env| && !stop
        invariant Valid() && hwDataQsBlocked == start.blocked
        invariant Served(start, Abs(), env, turns, sent, dropped, stop, trace)
        decreases |env| - turns
      {
        sent, dropped, stop, trace := NextTurn(env, turns, start, trace, sent);
        turns := turns + 1;
      }
    }

    /** rsi_core_qos_processor. No packet is lost or duplicated in the queues, and every queue is
      * served first in, first out, the management queue if nothing is put in front of it. All
      * packets are handed over but the last, dropped if the hardware is gone. With room and data
      * unblocked throughout, enough iterations send everything. */
    method QosProcessor(env: seq<Surroundings>)
      returns (sent: seq<Sending>, dropped: seq<Sending>, turns: nat, ghost trace: seq<Event>)
      requires Valid()
      modifies this`minWeight, this`pktCnt, this`selectedQnum, weight, pktContended, txQueue
      ensures Valid() && Abs() == Run(old(Abs()), trace) && sent + dropped == Taken(old(Abs()), trace)
      ensures CameIn(env, turns, trace) && DroppedLast(env, dropped, true)
      ensures InOrder(old(Abs()), Abs(), env, trace, sent, dropped)
      ensures Conserved(old(Abs()), Abs(), trace, sent, dropped)
      ensures !hwDataQsBlocked && AllSmooth(env) && Backlog(old(Abs())) + OfferedCount(env) <= |env| ==>
                dropped == [] && AllEmpty(Abs())
    {
      ghost var start := Abs();
      var stop;
      sent, dropped, turns, stop, trace := ServeQueues(env);
      Balanced(start, env, turns, trace, sent, dropped);
      Cleared(start, Abs(), env, turns, dropped, stop);
    }
  }

  predicate NothingUrgent(env: seq<Surroundings>) {
    forall e :: e in env ==> e.urgent.None?
  }

  predicate AllSmooth(env: seq<Surroundings>) {
    forall e :: e in env ==> Smooth(e)
  }

  /** At most the last packet is dropped. */
  predicate DroppedLast(env: seq<Surroundings>, dropped: seq<Sending>, stop: bool) {
    && |dropped| <= 1
    && (dropped != [] ==> stop && dropped[0].q < MGMT_SOFT_Q && exists k :: 0 <= k < |env| && env[k].hwGone)
  }

  /** The run so far received what the surroundings offered in `n` iterations. */
  predicate CameIn(env: seq<Surroundings>, n: nat, trace: seq<Event>) {
    && n <= |env| && (NothingUrgent(env) ==> NoUrgent(trace))
    && (forall q :: 0 <= q < NUM_SOFT_QUEUES ==> Arrived(trace, q) == Offered(env[..n], q))
  }

  lemma TurnComesIn(env: seq<Surroundings>, n: nat, trace: seq<Event>, go: bool)
    requires n < |env| && CameIn(env, n, trace)
    ensures CameIn(env, n + 1, trace + Incoming(env[n]) + [Round(go)])
  {
    assert env[n] in env;
    forall q | 0 <= q < NUM_SOFT_QUEUES
      ensures Arrived(trace + Incoming(env[n]) + [Round(go)], q) == Offered(env[..n + 1], q)
    {
      OfferedExtends(env, n, trace, go, q);
    }
  }

  /** In smooth surroundings every iteration so far took a packet, or all queues are empty. */
  predicate Clearing(start: State, s: State, env: seq<Surroundings>, n: nat, dropped: seq<Sending>, stop: bool)
    requires Shaped(start) && Shaped(s) && n <= |env|
  {
    !start.blocked && AllSmooth(env) ==>
      dropped == [] && if stop then Backlog(s) == 0 else Backlog(s) + n <= Backlog(start) + OfferedCount(env[..n])
  }

  /** After `n` iterations of the loop, with `stop` set by the last one. */
  ghost predicate Served(start: State, s: State, env: seq<Surroundings>, n: nat,
                         sent: seq<Sending>, dropped: seq<Sending>, stop: bool, trace: seq<Event>)
    requires Inv(start) && Shaped(s)
  {
    && s == Run(start, trace) && sent + dropped == Taken(start, trace) && (!stop ==> dropped == [])
    && DroppedLast(env, dropped, stop) && CameIn(env, n, trace) && Clearing(start, s, env, n, dropped, stop)
  }

  lemma NothingServed(start: State, env: seq<Surroundings>)
    requires Inv(start)
    ensures Served(start, start, env, 0, [], [], false, [])
  {
  }

  lemma TurnClears(start: State, s: State, t: State, env: seq<Surroundings>, n: nat,
                   out: seq<Sending>, lost: bool, stop: bool)
    requires Shaped(start) && Shaped(s) && Shaped(t) && n < |env| && Clearing(start, s, env, n, [], false)
    requires Backlog(t) <= Backlog(s) + |Incoming(env[n])| - |out|
    requires Smooth(env[n]) && !start.blocked ==> !lost && (stop <==> out == []) && (stop ==> Backlog(t) == 0)
    ensures Clearing(start, t, env, n + 1, if lost then out else [], stop)
  {
    assert env[n] in env && env[..n + 1][..n] == env[..n];
  }

  lemma Cleared(start: State, s: State, env: seq<Surroundings>, n: nat, dropped: seq<Sending>, stop: bool)
    requires Shaped(start) && Shaped(s) && n <= |env| && (n == |env| || stop)
    requires Clearing(start, s, env, n, dropped, stop)
    ensures !start.blocked && AllSmooth(env) && Backlog(start) + OfferedCount(env) <= |env| ==>
              dropped == [] && AllEmpty(s)
  {
    assert env[..|env|] == env;
  }

  predicate AllEmpty(s: State) {
    forall q :: 0 <= q < |s.queue| ==> s.queue[q] == []
  }

  /** What a queue held, followed by what arrived, is what was sent and dropped of it, followed by what
    * it holds; for the management queue if nothing is put in front of it. */
  predicate InOrder(start: State, s: State, env: seq<Surroundings>, trace: seq<Event>,
                    sent: seq<Sending>, dropped: seq<Sending>)
    requires Shaped(start) && Shaped(s)
  {
    forall q :: 0 <= q < NUM_SOFT_QUEUES && (q == MGMT_SOFT_Q ==> NothingUrgent(env)) ==>
      start.queue[q] + Arrived(trace, q) == (OfQueue(sent, q) + OfQueue(dropped, q)) + s.queue[q]
  }

  /** The same for every queue, regardless of order. */
  predicate Conserved(start: State, s: State, trace: seq<Event>, sent: seq<Sending>, dropped: seq<Sending>)
    requires Shaped(start) && Shaped(s)
  {
    forall q :: 0 <= q < NUM_SOFT_QUEUES ==>
      multiset(start.queue[q]) + multiset(Arrived(trace, q))
      == multiset(OfQueue(sent, q) + OfQueue(dropped, q)) + multiset(s.queue[q])
  }

  /** First in, first out, and no packet lost, with what was taken split into sent and dropped. */
  lemma Balanced(start: State, env: seq<Surroundings>, n: nat, trace: seq<Event>, sent: seq<Sending>, dropped: seq<Sending>)
    requires Inv(start) && sent + dropped == Taken(start, trace) && CameIn(env, n, trace)
    ensures InOrder(start, Run(start, trace), env, trace, sent, dropped)
    ensures Conserved(start, Run(start, trace), trace, sent, dropped)
  {
    forall q | 0 <= q < NUM_SOFT_QUEUES && (q == MGMT_SOFT_Q ==> NothingUrgent(env))
      ensures start.queue[q] + Arrived(trace, q) == (OfQueue(sent, q) + OfQueue(dropped, q)) + Run(start, trace).queue[q]
    {
      OfQueueAppend(sent, dropped, q);
      FifoPerQueue(start, trace, q);
    }
    forall q | 0 <= q < NUM_SOFT_QUEUES
      ensures multiset(start.queue[q]) + multiset(Arrived(trace, q))
              == multiset(OfQueue(sent, q) + OfQueue(dropped, q)) + multiset(Run(start, trace).queue[q])
    {
      OfQueueAppend(sent, dropped, q);
      PacketsConserved(start, trace, q);
    }
  }
}
