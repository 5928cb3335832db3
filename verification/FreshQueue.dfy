/**
 * The two-slot freshness queue between the authenticated media reader and the
 * capture loop: it drops the oldest frame, and a terminal item outranks all.
 */
module FreshQueue {
  import opened Wrappers
  import opened Bytes
  import opened Media

  const MEDIA_QUEUE_CAPACITY := 2

  /** What the reader sends: a record, or the error that ended it. */
  datatype Item =
    | Sent(record: MediaRecord)
    | Broken

  predicate Terminal(item: Item)
  {
    item.Broken? || item.record.kind.StopRecord?
  }

  /** An item and its position among everything sent. */
  datatype Queued = Queued(item: Item, serial: nat)

  datatype FreshState = FreshState(queue: seq<Queued>, closed: bool, droppedFramesTotal: u64)

  const Opened := FreshState([], false, 0)

  /** How many of the oldest items give way to one more. */
  function Surplus(queue: seq<Queued>): (r: nat)
    ensures r <= |queue|
  {
    if |queue| < MEDIA_QUEUE_CAPACITY then 0 else |queue| - MEDIA_QUEUE_CAPACITY + 1
  }

  function FramesIn(items: seq<Queued>): nat
  {
    if items == [] then 0
    else FramesIn(items[..|items| - 1]) + if Terminal(items[|items| - 1].item) then 0 else 1
  }

  function AfterSend(s: FreshState, queued: Queued): FreshState
  {
    if s.closed then s
    else if Terminal(queued.item) then s.(queue := [queued], closed := true)
    else
      FreshState(s.queue[Surplus(s.queue)..] + [queued], false,
                 if s.droppedFramesTotal + FramesIn(s.queue[..Surplus(s.queue)]) <= U64_MAX
                 then s.droppedFramesTotal + FramesIn(s.queue[..Surplus(s.queue)]) else U64_MAX)
  }

  class FreshMedia {
    var queue: seq<Queued>
    var closed: bool
    var droppedFramesTotal: u64

    function State(): FreshState
      reads this
    {
      FreshState(queue, closed, droppedFramesTotal)
    }

    constructor ()
      ensures State() == Opened
    {
      queue, closed, droppedFramesTotal := [], false, 0;
    }

    method Send(queued: Queued)
      modifies this
      ensures State() == AfterSend(old(State()), queued)
    {
      if closed {
        return;
      }
      if Terminal(queued.item) {
        queue := [queued];
        closed := true;
        return;
      }
      ghost var before := State();
      ghost var popped := 0;
      while |queue| >= MEDIA_QUEUE_CAPACITY
        invariant 0 <= popped <= Surplus(before.queue)
        invariant queue == before.queue[popped..]
        invariant |queue| < MEDIA_QUEUE_CAPACITY ==> popped == Surplus(before.queue)
        invariant !closed
        invariant droppedFramesTotal ==
                  if before.droppedFramesTotal + FramesIn(before.queue[..popped]) <= U64_MAX
                  then before.droppedFramesTotal + FramesIn(before.queue[..popped]) else U64_MAX
        decreases |queue|
      {
        assert before.queue[..popped + 1][..popped] == before.queue[..popped];
        if !Terminal(queue[0].item) {
          droppedFramesTotal := SaturatingAdd(droppedFramesTotal, 1);
        }
        queue := queue[1..];
        popped := popped + 1;
      }
      queue := queue + [queued];
    }

    /** The oldest waiting item, with the drops counted by now; None when the receiver has to wait or the channel is over. */
    method Receive() returns (item: Option<Queued>, dropped: u64, over: bool)
      modifies this
      ensures item == if old(queue) == [] then None else Some(old(queue)[0])
      ensures State() == if old(queue) == [] then old(State()) else old(State()).(queue := old(queue)[1..])
      ensures dropped == droppedFramesTotal
      ensures over <==> old(queue) == [] && closed
    {
      dropped := droppedFramesTotal;
      if queue != [] {
        item, over := Some(queue[0]), false;
        queue := queue[1..];
      } else {
        item, over := None, closed;
      }
    }
  }

  // ------------------------------------------------------------------- runs

  datatype Event = Send(item: Item) | Receive

  /** The queue with the fate of every item sent so far. */
  datatype History = History(
    now: FreshState,
    sent: seq<Queued>,
    delivered: seq<Queued>,
    dropped: seq<Queued>,
    cleared: seq<Queued>,
    ignored: seq<Queued>)

  const Begin := History(Opened, [], [], [], [], [])

  function Step(h: History, event: Event): History
  {
    match event
    case Receive =>
      if h.now.queue == [] then h
      else h.(now := h.now.(queue := h.now.queue[1..]), delivered := h.delivered + [h.now.queue[0]])
    case Send(item) =>
      var queued := Queued(item, |h.sent|);
      var next := h.(now := AfterSend(h.now, queued), sent := h.sent + [queued]);
      if h.now.closed then next.(ignored := h.ignored + [queued])
      else if Terminal(item) then next.(cleared := h.cleared + h.now.queue)
      else next.(dropped := h.dropped + h.now.queue[..Surplus(h.now.queue)])
  }

  function Run(events: seq<Event>): History
  {
    if events == [] then Begin else Step(Run(events[..|events| - 1]), events[|events| - 1])
  }

  predicate Increasing(items: seq<Queued>)
  {
    forall i, j :: 0 <= i < j < |items| ==> items[i].serial < items[j].serial
  }

  predicate InOrder(h: History)
  {
    && (forall i :: 0 <= i < |h.sent| ==> h.sent[i].serial == i)
    && Increasing(h.delivered + h.now.queue)
    && (forall q :: q in h.delivered + h.now.queue ==> q.serial < |h.sent| && h.sent[q.serial] == q)
  }

  predicate Closing(h: History)
  {
    && |h.now.queue| <= MEDIA_QUEUE_CAPACITY
    && (forall i :: 0 <= i < |h.delivered + h.now.queue| && Terminal((h.delivered + h.now.queue)[i].item) ==>
          i == |h.delivered + h.now.queue| - 1 && h.now.closed)
    && (h.now.closed ==> h.delivered + h.now.queue != []
                         && Terminal((h.delivered + h.now.queue)[|h.delivered + h.now.queue| - 1].item))
    && (!h.now.closed ==> h.ignored == [] && h.cleared == [])
    && (h.now.closed ==> |h.now.queue| <= 1)
    && (forall q :: q in h.dropped + h.cleared ==> !Terminal(q.item))
  }

  /** Every item sent has exactly one fate. */
  predicate Accounted(h: History)
  {
    multiset(h.sent) == multiset(h.delivered) + multiset(h.now.queue)
                        + multiset(h.dropped) + multiset(h.cleared) + multiset(h.ignored)
  }

  /** So does every frame among them. */
  predicate Counted(h: History)
  {
    FramesIn(h.sent) == FramesIn(h.delivered) + FramesIn(h.now.queue)
                        + FramesIn(h.dropped) + FramesIn(h.cleared) + FramesIn(h.ignored)
  }

  /** The counter counts the dropped frames, until it saturates. */
  predicate CountsDrops(h: History)
  {
    h.now.droppedFramesTotal == if FramesIn(h.dropped) <= U64_MAX then FramesIn(h.dropped) else U64_MAX
  }

  lemma {:induction false} FramesInAppend(x: seq<Queued>, y: seq<Queued>)
    ensures FramesIn(x + y) == FramesIn(x) + FramesIn(y)
  {
    if y == [] {
      assert x + y == x;
    } else {
      assert (x + y)[..|x + y| - 1] == x + y[..|y| - 1];
      FramesInAppend(x, y[..|y| - 1]);
    }
  }

  lemma {:induction false} AllFrames(items: seq<Queued>)
    requires forall q :: q in items ==> !Terminal(q.item)
    ensures FramesIn(items) == |items|
  {
    if items != [] {
      AllFrames(items[..|items| - 1]);
    }
  }

  /** Cutting items out of the middle keeps an increasing sequence increasing. */
  lemma CutKeepsIncreasing(front: seq<Queued>, out: seq<Queued>, kept: seq<Queued>, last: Queued)
    requires Increasing(front + (out + kept))
    requires forall q :: q in front + (out + kept) ==> q.serial < last.serial
    ensures Increasing(front + (kept + [last]))
  {
    var before, after := front + (out + kept), front + (kept + [last]);
    assert forall i :: 0 <= i < |front| ==> after[i] == before[i];
    assert forall i :: |front| <= i < |after| - 1 ==> after[i] == before[i + |out|];
    assert forall i :: 0 <= i < |after| - 1 ==> after[i] in before;
  }

  lemma StepKeepsInOrder(h: History, event: Event)
    requires InOrder(h)
    ensures InOrder(Step(h, event))
  {
    hide FramesIn, Increasing;
    var next := Step(h, event);
    if event.Receive? || h.now.closed {
      assert next.delivered + next.now.queue == h.delivered + h.now.queue;
    } else {
      var cut := if Terminal(event.item) then |h.now.queue| else Surplus(h.now.queue);
      hide Surplus, Terminal;
      SendKeepsInOrder(h, next, h.now.queue[..cut], h.now.queue[cut..], Queued(event.item, |h.sent|));
    }
  }

  lemma SendKeepsInOrder(h: History, next: History, out: seq<Queued>, kept: seq<Queued>, queued: Queued)
    requires InOrder(h) && h.now.queue == out + kept && queued.serial == |h.sent|
    requires next.sent == h.sent + [queued] && next.delivered == h.delivered && next.now.queue == kept + [queued]
    ensures InOrder(next)
  {
    hide Increasing;
    var before, after := h.delivered + h.now.queue, next.delivered + next.now.queue;
    CutKeepsIncreasing(h.delivered, out, kept, queued);
    assert forall q :: q in after ==> q in before || q == queued;
  }

  lemma StepKeepsClosing(h: History, event: Event)
    requires Closing(h)
    ensures Closing(Step(h, event))
  {
    hide FramesIn;
    if event.Receive? {
      ReceivingKeepsClosing(h);
    } else if !h.now.closed && !Terminal(event.item) {
      var cut := Surplus(h.now.queue);
      FrameKeepsClosing(h, Step(h, event), h.now.queue[..cut], h.now.queue[cut..], Queued(event.item, |h.sent|));
    } else if !h.now.closed {
      LastKeepsClosing(h, event.item);
    }
  }

  lemma ReceivingKeepsClosing(h: History)
    requires Closing(h)
    ensures Closing(Step(h, Receive))
  {
    var next := Step(h, Receive);
    assert next.delivered + next.now.queue == h.delivered + h.now.queue;
  }

  lemma FrameKeepsClosing(h: History, next: History, out: seq<Queued>, kept: seq<Queued>, queued: Queued)
    requires Closing(h) && !h.now.closed && !Terminal(queued.item)
    requires h.now.queue == out + kept && |kept| < MEDIA_QUEUE_CAPACITY
    requires next == h.(now := next.now, sent := next.sent, dropped := h.dropped + out)
    requires next.now.queue == kept + [queued] && !next.now.closed
    ensures Closing(next)
  {
    hide Terminal;
    var before, after := h.delivered + h.now.queue, next.delivered + next.now.queue;
    assert forall i :: 0 <= i < |before| ==> !Terminal(before[i].item);
    assert forall q :: q in h.now.queue ==> q in before;
    assert forall q :: q in before ==> !Terminal(q.item);
    assert forall i :: 0 <= i < |after| - 1 ==> after[i] in before;
    assert after[|after| - 1] == queued;
    assert forall q :: q in next.dropped + next.cleared ==> q in h.dropped + h.cleared || q in h.now.queue;
  }

  lemma LastKeepsClosing(h: History, item: Item)
    requires Closing(h) && !h.now.closed && Terminal(item)
    ensures Closing(Step(h, Send(item)))
  {
    hide Terminal;
    var next := Step(h, Send(item));
    var before, after := h.delivered + h.now.queue, next.delivered + next.now.queue;
    assert forall i :: 0 <= i < |before| ==> !Terminal(before[i].item);
    assert forall q :: q in h.now.queue ==> q in before;
    assert forall q :: q in before ==> !Terminal(q.item);
    assert forall i :: 0 <= i < |after| - 1 ==> after[i] in before;
    assert forall q :: q in next.dropped + next.cleared ==> q in h.dropped + h.cleared || q in h.now.queue;
  }

  /** One step moves `moved` out of the queue to another fate and adds `last`. */
  predicate Moves(before: History, after: History, moved: seq<Queued>, kept: seq<Queued>, last: seq<Queued>)
  {
    && before.now.queue == moved + kept
    && after.sent == before.sent + last
    && (|| (after == before.(now := after.now, sent := after.sent, dropped := before.dropped + moved) && after.now.queue == kept + last)
        || (after == before.(now := after.now, sent := after.sent, cleared := before.cleared + moved) && after.now.queue == kept + last)
        || (after == before.(now := after.now, sent := after.sent, ignored := before.ignored + last) && after.now.queue == moved + kept)
        || (after == before.(now := after.now, sent := after.sent, delivered := before.delivered + moved)
            && after.now.queue == kept && last == []))
  }

  lemma MovesKeepAccounted(before: History, after: History, moved: seq<Queued>, kept: seq<Queued>, last: seq<Queued>)
    requires Moves(before, after, moved, kept, last) && Accounted(before)
    ensures Accounted(after)
  {
  }

  lemma MovesKeepCounted(before: History, after: History, moved: seq<Queued>, kept: seq<Queued>, last: seq<Queued>)
    requires Moves(before, after, moved, kept, last) && Counted(before)
    ensures Counted(after)
  {
    assert FramesIn([]) == 0;
    hide FramesIn;
    FramesInAppend(moved, kept);
    FramesInAppend(before.sent, last);
    FramesInAppend(kept, last);
    FramesInAppend(before.dropped, moved);
    FramesInAppend(before.cleared, moved);
    FramesInAppend(before.delivered, moved);
    FramesInAppend(before.ignored, last);
  }

  /** Every step is such a move. */
  lemma StepMoves(h: History, event: Event) returns (moved: seq<Queued>, kept: seq<Queued>, last: seq<Queued>)
    ensures Moves(h, Step(h, event), moved, kept, last)
  {
    hide FramesIn;
    var q := h.now.queue;
    match event
    case Receive =>
      last := [];
      moved, kept := if q == [] then [] else [q[0]], if q == [] then [] else q[1..];
    case Send(item) =>
      last := [Queued(item, |h.sent|)];
      var cut := if h.now.closed then 0 else if Terminal(item) then |q| else Surplus(q);
      moved, kept := q[..cut], q[cut..];
  }

  lemma StepKeepsCountsDrops(h: History, event: Event)
    requires CountsDrops(h)
    ensures CountsDrops(Step(h, event))
  {
    FramesInAppend(h.dropped, h.now.queue[..Surplus(h.now.queue)]);
    hide FramesIn;
  }

  /**
   * The queue over any run: at most two items wait; what is delivered is a
   * subsequence of what was sent; a terminal item is the last one delivered; and
   * everything sent was delivered, is waiting, was counted as dropped, was
   * cleared by a terminal item, or came after it.
   */
  lemma {:induction false} FreshnessConserves(events: seq<Event>)
    ensures var h := Run(events);
            && InOrder(h) && Closing(h) && Accounted(h) && Counted(h) && CountsDrops(h)
            && FramesIn(h.dropped) == |h.dropped|
  {
    hide AfterSend;
    hide InOrder;
    hide Closing;
    hide Accounted;
    hide Counted;
    hide CountsDrops;
    hide Moves;
    hide Step;
    if events == [] {
      EmptyHistory();
    } else {
      var h := Run(events[..|events| - 1]);
      FreshnessConserves(events[..|events| - 1]);
      StepKeepsInOrder(h, events[|events| - 1]);
      StepKeepsClosing(h, events[|events| - 1]);
      var moved, kept, last := StepMoves(h, events[|events| - 1]);
      MovesKeepAccounted(h, Run(events), moved, kept, last);
      MovesKeepCounted(h, Run(events), moved, kept, last);
      StepKeepsCountsDrops(h, events[|events| - 1]);
    }
    DroppedAreFrames(Run(events));
  }

  lemma EmptyHistory()
    ensures InOrder(Begin) && Closing(Begin) && Accounted(Begin) && Counted(Begin) && CountsDrops(Begin)
  {
  }

  lemma DroppedAreFrames(h: History)
    requires Closing(h)
    ensures FramesIn(h.dropped) == |h.dropped|
  {
    assert forall q :: q in h.dropped ==> q in h.dropped + h.cleared;
    AllFrames(h.dropped);
  }


  // -------------------------------------------------------- who gives way

  /** `t` items come before the first terminal one, or there is none and `t` is their number. */
  predicate EndsAt(items: seq<Queued>, t: nat)
  {
    && t <= |items| && (t < |items| ==> Terminal(items[t].item))
    && (forall i :: 0 <= i < t ==> !Terminal(items[i].item))
  }

  /**
   * The fate of each item by its place in what was sent, when `t` items came
   * before the first terminal one: a dropped item is followed by two more before
   * it, only the last two can be cleared, and what waits is the newest.
   */
  predicate FatesByPlace(h: History, t: nat)
  {
    && EndsAt(h.sent, t)
    && (h.now.closed <==> t < |h.sent|)
    && (forall q :: q in h.dropped ==> q.serial + 2 < t)
    && (forall q :: q in h.cleared ==> q.serial < t <= q.serial + 2)
    && h.ignored == (if t < |h.sent| then h.sent[t + 1..] else [])
    && (t == |h.sent| ==> |h.now.queue| <= t && h.now.queue == h.sent[t - |h.now.queue|..])
    && (t < |h.sent| ==> h.now.queue == [] || h.now.queue == [h.sent[t]])
    && (h.sent != [] ==>
          && h.delivered + h.now.queue != []
          && (h.delivered + h.now.queue)[|h.delivered + h.now.queue| - 1] == h.sent[if t < |h.sent| then t else t - 1])
  }

  /** What one more event does, told by what waited: the newest two frames are kept, and nothing else gives way. */
  predicate ActsRight(h: History, event: Event, next: History)
  {
    match event
    case Receive =>
      && next.sent == h.sent && next.dropped == h.dropped && next.cleared == h.cleared
      && next.delivered + next.now.queue == h.delivered + h.now.queue
      && |next.now.queue| == (if |h.now.queue| == 0 then 0 else |h.now.queue| - 1)
    case Send(item) =>
      var queued := Queued(item, |h.sent|);
      && next.sent == h.sent + [queued] && next.delivered == h.delivered
      && if (exists q :: q in h.sent && Terminal(q.item)) then
           next.now == h.now && next.dropped == h.dropped && next.cleared == h.cleared
         else if Terminal(item) then
           next.now.queue == [queued] && next.dropped == h.dropped && next.cleared == h.now.queue
         else
           && next.cleared == []
           && next.dropped + next.now.queue == h.dropped + h.now.queue + [queued]
           && |next.now.queue| == (if |h.now.queue| >= 2 then 2 else |h.now.queue| + 1)
  }

  lemma ReceivingKeepsFates(h: History, t: nat)
    requires FatesByPlace(h, t)
    ensures FatesByPlace(Step(h, Receive), t)
    ensures ActsRight(h, Receive, Step(h, Receive))
  {
    hide FramesIn, AfterSend, Surplus, Terminal;
  }

  lemma SendingTooLateKeepsFates(h: History, t: nat, item: Item)
    requires FatesByPlace(h, t) && t < |h.sent|
    ensures FatesByPlace(Step(h, Send(item)), t)
    ensures ActsRight(h, Send(item), Step(h, Send(item)))
  {
    hide FramesIn, Surplus;
    assert h.sent[t] in h.sent;
  }

  lemma SendingLastKeepsFates(h: History, t: nat, item: Item)
    requires FatesByPlace(h, t) && Closing(h) && InOrder(h) && t == |h.sent| && Terminal(item)
    ensures FatesByPlace(Step(h, Send(item)), t)
    ensures ActsRight(h, Send(item), Step(h, Send(item)))
  {
    hide FramesIn, Surplus;
    assert forall q :: q in h.sent ==> !Terminal(q.item);
  }

  lemma SendingFrameKeepsFates(h: History, t: nat, item: Item)
    requires FatesByPlace(h, t) && Closing(h) && InOrder(h) && t == |h.sent| && !Terminal(item)
    ensures FatesByPlace(Step(h, Send(item)), t + 1)
    ensures ActsRight(h, Send(item), Step(h, Send(item)))
  {
    hide FramesIn, Increasing;
    assert forall q :: q in h.sent ==> !Terminal(q.item);
    var q, next := h.now.queue, Step(h, Send(item));
    var cut := Surplus(q);
    var queued := Queued(item, t);
    assert next.now.queue == q[cut..] + [queued] && next.dropped == h.dropped + q[..cut];
    assert next.dropped + next.now.queue == h.dropped + q + [queued];
    hide Terminal, Surplus, ActsRight;
    OneMoreIsNewest(h, next, t, cut, queued);
  }

  lemma OneMoreIsNewest(h: History, next: History, t: nat, cut: nat, queued: Queued)
    requires FatesByPlace(h, t) && t == |h.sent| && (forall i :: 0 <= i < t ==> h.sent[i].serial == i)
    requires !Terminal(queued.item) && |h.now.queue| <= 2 && h.ignored == h.cleared == [] && !next.now.closed
    requires cut == if |h.now.queue| < 2 then 0 else 1
    requires next == h.(now := next.now, sent := h.sent + [queued], dropped := h.dropped + h.now.queue[..cut])
    requires next.now.queue == h.now.queue[cut..] + [queued]
    ensures FatesByPlace(next, t + 1)
  {
    hide Terminal;
    var q := h.now.queue;
    assert next.sent[t + 1 - |next.now.queue|..] == next.now.queue;
    assert cut == 1 ==> q[0] == h.sent[t - 2];
  }

  lemma SendingKeepsFates(h: History, t: nat, item: Item) returns (u: nat)
    requires FatesByPlace(h, t) && Closing(h) && InOrder(h)
    ensures FatesByPlace(Step(h, Send(item)), u)
    ensures ActsRight(h, Send(item), Step(h, Send(item)))
  {
    hide Step, ActsRight, Closing, InOrder;
    if t < |h.sent| {
      u := t;
      SendingTooLateKeepsFates(h, t, item);
    } else if Terminal(item) {
      u := t;
      SendingLastKeepsFates(h, t, item);
    } else {
      u := t + 1;
      SendingFrameKeepsFates(h, t, item);
    }
  }

  /** `t` of a whole run. */
  lemma {:induction false} FatesHold(events: seq<Event>) returns (t: nat)
    ensures FatesByPlace(Run(events), t)
  {
    hide AfterSend, FatesByPlace, ActsRight, Step, Closing, InOrder, Accounted, Counted, CountsDrops;
    if events == [] {
      t := 0;
      NothingHasNoFate();
    } else {
      var before := events[..|events| - 1];
      t := FatesHold(before);
      FreshnessConserves(before);
      if events[|events| - 1].Receive? {
        ReceivingKeepsFates(Run(before), t);
      } else {
        t := SendingKeepsFates(Run(before), t, events[|events| - 1].item);
      }
    }
  }

  lemma NothingHasNoFate()
    ensures FatesByPlace(Begin, 0)
  {
  }

  /**
   * Over any run, only what has two newer frames behind it gives way: a dropped
   * frame was followed by two more, a frame sent to an open queue leaves the
   * newest two of what waited and itself, and only a terminal item empties it.
   */
  lemma OnlyTheOldestGiveWay(events: seq<Event>, event: Event) returns (t: nat)
    ensures FatesByPlace(Run(events), t)
    ensures ActsRight(Run(events), event, Run(events + [event]))
  {
    hide AfterSend, FatesByPlace, ActsRight, Step, Closing, InOrder, Accounted, Counted, CountsDrops;
    assert (events + [event])[..|events|] == events;
    t := FatesHold(events);
    FreshnessConserves(events);
    if event.Receive? {
      ReceivingKeepsFates(Run(events), t);
    } else {
      var u := SendingKeepsFates(Run(events), t, event.item);
    }
  }

  /** Two receives bring the newest item sent, or the terminal one, to the receiver. */
  lemma TheNewestArrives(events: seq<Event>) returns (t: nat)
    requires Run(events).sent != []
    ensures var h, next := Run(events), Run(events + [Receive, Receive]);
            && EndsAt(h.sent, t) && next.now.queue == [] && next.delivered != []
            && next.delivered[|next.delivered| - 1] == h.sent[if t < |h.sent| then t else t - 1]
  {
    hide AfterSend, FatesByPlace, EndsAt, Step, Closing, InOrder, Accounted, Counted, CountsDrops;
    t := FatesHold(events);
    FreshnessConserves(events);
    FewWait(Run(events), t);
    assert (events + [Receive, Receive])[..|events| + 1] == events + [Receive];
    var u := OnlyTheOldestGiveWay(events, Receive);
    u := OnlyTheOldestGiveWay(events + [Receive], Receive);
    assert events + [Receive] + [Receive] == events + [Receive, Receive];
  }

  lemma FewWait(h: History, t: nat)
    requires FatesByPlace(h, t) && Closing(h)
    ensures |h.now.queue| <= 2 && EndsAt(h.sent, t)
    ensures h.sent != [] ==>
              && h.delivered + h.now.queue != []
              && (h.delivered + h.now.queue)[|h.delivered + h.now.queue| - 1] == h.sent[if t < |h.sent| then t else t - 1]
  {
  }
}
