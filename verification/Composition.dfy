/**
 * The media path from the network socket to the decoder: validated, thinned by
 * the freshness queue, renumbered, written to the service pipe, and executed.
 */
module Composition {
  import opened Wrappers
  import opened Bytes
  import opened Media
  import opened Validator
  import Queue = FreshQueue
  import opened OutputWorker
  import opened Forwarding
  import opened Service

  /** What the network reader puts in the queue: every record, then an error unless Stop ended it. */
  function SendsOf(records: seq<MediaRecord>): (r: seq<Queue.Item>)
    ensures |records| <= |r| <= |records| + 1
    ensures forall i :: 0 <= i < |records| ==> r[i] == Queue.Sent(records[i])
  {
    var items := seq(|records|, i requires 0 <= i < |records| => Queue.Sent(records[i]));
    if records != [] && records[|records| - 1].kind.StopRecord? then items else items + [Queue.Broken]
  }

  /** The queue after `items` were sent to it one after the other, from serial number `serial` on. */
  function SentAll(q: Queue.FreshState, serial: nat, items: seq<Queue.Item>): Queue.FreshState
    decreases |items|
  {
    if items == [] then q
    else SentAll(Queue.AfterSend(q, Queue.Queued(items[0], serial)), serial + 1, items[1..])
  }

  lemma {:induction false} SentAllAppend(q: Queue.FreshState, serial: nat, items: seq<Queue.Item>, last: Queue.Item)
    ensures SentAll(q, serial, items + [last]) == Queue.AfterSend(SentAll(q, serial, items), Queue.Queued(last, serial + |items|))
    decreases |items|
  {
    hide Queue.AfterSend;
    if items == [] {
      assert ([last])[1..] == [];
    } else {
      assert (items + [last])[1..] == items[1..] + [last];
      SentAllAppend(Queue.AfterSend(q, Queue.Queued(items[0], serial)), serial + 1, items[1..], last);
    }
  }

  function Frames(records: seq<MediaRecord>): (r: seq<Queue.Item>)
    ensures |r| == |records|
  {
    seq(|records|, i requires 0 <= i < |records| => Queue.Sent(records[i]))
  }

  /** One record of the authenticated stream; None when the stream ends, or breaks its rules. */
  method ReceiveRecord(stream: Reader, validator: MediaStreamValidator) returns (r: Option<MediaRecord>)
    requires !validator.invalidated
    modifies stream, validator
    ensures r.None? <==> !ReadNext(old(validator.State()), old(stream.rest)).Record?
    ensures r.Some? ==>
      ReadNext(old(validator.State()), old(stream.rest)) == Record(r.value, validator.State(), stream.rest)
  {
    hide ValidateHeader, FinishRecord;
    ghost var input := stream.rest;
    var header := new byte[104](i => 0);
    var ok := stream.ReadExact(header, 0);
    if !ok {
      return None;
    }
    assert header[..] == input[..MEDIA_HEADER_BYTES];
    var validated := validator.Validate(header);
    if validated.Err? {
      return None;
    }
    var payload := new byte[validated.value.payloadLength](i => 0);
    ok := stream.ReadExact(payload, 0);
    if !ok {
      return None;
    }
    assert payload[..] == input[MEDIA_HEADER_BYTES..MEDIA_HEADER_BYTES + validated.value.payloadLength];
    var finished := validator.Finish(validated.value, payload[..]);
    r := if finished.Ok? then Some(finished.value) else None;
  }

  lemma OneMoreFrame(done: seq<MediaRecord>, record: MediaRecord)
    ensures Frames(done + [record]) == Frames(done) + [Queue.Sent(record)]
  {
  }

  lemma SendsThenBreaks(done: seq<MediaRecord>)
    requires forall i :: 0 <= i < |done| ==> done[i].kind.H264AccessUnit?
    ensures SendsOf(done) == Frames(done) + [Queue.Broken]
  {
  }

  lemma SendsThenStops(done: seq<MediaRecord>, record: MediaRecord)
    requires record.kind.StopRecord?
    ensures SendsOf(done + [record]) == Frames(done + [record])
  {
  }

  /** A stream that gives no further record has delivered what it had. */
  lemma NothingFurther(v: ValidatorState, rest: seq<byte>, done: seq<MediaRecord>)
    requires !ReadNext(v, rest).Record?
    ensures DeliveredBy(Resumed(done, ReadStream(v, rest))) == done
  {
    hide ReadNext;
  }

  lemma OneRecordFurther(v: ValidatorState, rest: seq<byte>)
    requires ReadNext(v, rest).Record?
    ensures var step := ReadNext(v, rest);
            ReadStream(v, rest) == if step.record.kind.StopRecord? then Accepted([step.record], step.after, step.rest)
                                   else Resumed([step.record], ReadStream(step.after, step.rest))
  {
    hide ReadNext;
  }

  /**
   * The record loop of the authenticated media reader and what its caller
   * does when it fails: every record read is sent, and then an error unless
   * the last one was a Stop.
   */
  method ReceiveMedia(stream: Reader, binding: MediaBinding, sender: Queue.FreshMedia)
    modifies stream, sender
    ensures sender.State() ==
            SentAll(old(sender.State()), 0, SendsOf(DeliveredBy(ReadStream(NewValidator(binding), old(stream.rest)))))
  {
    hide ReadNext, RecordBytes, ReadStream, SendsOf, Frames, Queue.AfterSend, SentAll;
    var validator := new MediaStreamValidator(binding);
    ghost var outcome := ReadStream(validator.State(), stream.rest);
    ghost var done: seq<MediaRecord> := [];
    assert Resumed([], outcome) == outcome;
    NothingSent(sender.State());
    var serial := 0;
    while true
      invariant !validator.invalidated && serial == |done|
      invariant outcome == Resumed(done, ReadStream(validator.State(), stream.rest))
      invariant forall i :: 0 <= i < |done| ==> done[i].kind.H264AccessUnit?
      invariant sender.State() == SentAll(old(sender.State()), 0, Frames(done))
      decreases |stream.rest|
    {
      ghost var v, rest := validator.State(), stream.rest;
      var next := ReceiveRecord(stream, validator);
      if next.None? {
        NothingFurther(v, rest, done);
        SentAllAppend(old(sender.State()), 0, Frames(done), Queue.Broken);
        SendsThenBreaks(done);
        sender.Send(Queue.Queued(Queue.Broken, serial));
        return;
      }
      OneRecordFurther(v, rest);
      SentAllAppend(old(sender.State()), 0, Frames(done), Queue.Sent(next.value));
      OneMoreFrame(done, next.value);
      sender.Send(Queue.Queued(Queue.Sent(next.value), serial));
      if next.value.kind.StopRecord? {
        SendsThenStops(done, next.value);
        return;
      }
      NotInvalidated(v, rest);
      ResumedStep(done, next.value, ReadStream(validator.State(), stream.rest));
      done := done + [next.value];
      serial := serial + 1;
    }
  }

  lemma NothingSent(q: Queue.FreshState)
    ensures SentAll(q, 0, Frames([])) == q
  {
  }

  /** Only a Stop ends a stream. */
  lemma NotInvalidated(v: ValidatorState, input: seq<byte>)
    requires ReadNext(v, input).Record? && ReadNext(v, input).record.kind.H264AccessUnit? && !v.invalidated
    ensures !ReadNext(v, input).after.invalidated
  {
    PrintsRead(v, input);
  }

  /** The items of the Send events, in order. */
  function SentBy(events: seq<Queue.Event>): seq<Queue.Item>
  {
    if events == [] then []
    else
      var last := events[|events| - 1];
      SentBy(events[..|events| - 1]) + if last.Send? then [last.item] else []
  }

  /** Legal or not, whatever a reader delivered before it ended was in order. */
  lemma {:induction false} DeliveredFollows(v: ValidatorState, input: seq<byte>)
    requires !v.invalidated
    ensures FollowsAll(v, DeliveredBy(ReadStream(v, input)))
    decreases |input|
  {
    hide RecordBytes;
    hide ReadNext;
    var step := ReadNext(v, input);
    if step.Record? {
      PrintsRead(v, input);
      if step.record.kind.H264AccessUnit? {
        DeliveredFollows(step.after, step.rest);
        assert DeliveredBy(ReadStream(v, input)) == [step.record] + DeliveredBy(ReadStream(step.after, step.rest));
      } else {
        assert DeliveredBy(ReadStream(v, input))[1..] == [];
      }
    }
  }

  lemma {:induction false} HistoryRecordsSends(events: seq<Queue.Event>)
    ensures var h := Queue.Run(events);
            |h.sent| == |SentBy(events)| && forall i :: 0 <= i < |h.sent| ==> h.sent[i].item == SentBy(events)[i]
  {
    hide Queue.AfterSend;
    if events != [] {
      HistoryRecordsSends(events[..|events| - 1]);
    }
  }

  /** What survives the queue is still in order, whatever was dropped. */
  lemma ThinningKeepsOrder(binding: MediaBinding, records: seq<MediaRecord>, events: seq<Queue.Event>, count: nat)
    requires LegalStream(records) && SentBy(events) <= SendsOf(records)
    requires AllFrames(Queue.Run(events).delivered, count)
    ensures var delivered := Queue.Run(events).delivered;
            && Forwardable(Taken(delivered, count))
            && (forall i :: 0 <= i < count ==>
                  delivered[i].serial < |records| && delivered[i].item == Queue.Sent(records[delivered[i].serial]))
            && (forall i, j :: 0 <= i < j < count ==> delivered[i].serial < delivered[j].serial)
  {
    Queue.FreshnessConserves(events);
    HistoryRecordsSends(events);
    var h := Queue.Run(events);
    hide Queue.Run;
    hide Queue.Accounted;
    hide Queue.Counted;
    hide Queue.Closing;
    hide SentBy;
    var all := h.delivered + h.now.queue;
    forall i | 0 <= i < count
      ensures h.delivered[i].serial < |records|
      ensures h.delivered[i].item == Queue.Sent(records[h.delivered[i].serial])
    {
      assert all[i] == h.delivered[i] && all[i] in all;
      assert h.sent[h.delivered[i].serial] == h.delivered[i];
    }
    assert forall i, j :: 0 <= i < j < count ==> all[i] == h.delivered[i] && all[j] == h.delivered[j];
  }

  /**
   * End to end: take any bytes from the network, any interleaving of the
   * queue's two ends, and any number of delivered frames forwarded before the
   * capture ends. The service never refuses what it is sent, and the decoder
   * gets exactly those frames' payloads, which are payloads of distinct
   * network records in their original order.
   */
  lemma NetworkToDecoder(binding: MediaBinding, network: seq<byte>, events: seq<Queue.Event>, count: nat, reset: bool, closing: bool)
    requires binding.generation != 0 && count <= U64_MAX
    requires SentBy(events) <= SendsOf(DeliveredBy(ReadStream(NewValidator(binding), network)))
    requires AllFrames(Queue.Run(events).delivered, count)
    ensures var records := DeliveredBy(ReadStream(NewValidator(binding), network));
            var delivered := Queue.Run(events).delivered;
            var calls := CallsOf(binding, Taken(delivered, count), reset);
            && Perform(calls).Some?
            && var result := RunService(Unbound, Wire(calls, closing));
            && result.outcome.Pass?
            && |result.delivered| == count
            && (forall i :: 0 <= i < count ==>
                  && delivered[i].serial < |records|
                  && result.delivered[i] == Delivery(binding, records[delivered[i].serial].payload))
            && (forall i, j :: 0 <= i < j < count ==> delivered[i].serial < delivered[j].serial)
  {
    hide ReadStream;
    hide RunService;
    hide ForwardService;
    hide Perform;
    hide CallsOf;
    var records := DeliveredBy(ReadStream(NewValidator(binding), network));
    DeliveredFollows(NewValidator(binding), network);
    FreshStreamLegal(binding, records);
    ThinningKeepsOrder(binding, records, events, count);
    var delivered := Queue.Run(events).delivered;
    CallsAcceptedExactly(binding, Taken(delivered, count), reset);
    PipeDelivers(CallsOf(binding, Taken(delivered, count), reset), closing);
  }
}
