/**
 * The output worker told by the calls made to it, with the answer each health
 * check got: what it is bound to, when it is given up for good, why each call
 * fails, and every byte it writes.
 */
module WorkerHistory {
  import opened Wrappers
  import opened Bytes
  import opened Media
  import opened OutputWorker

  /** One call, with whether the child was alive if it looked; or the end of the pipe. */
  datatype Attempt =
    | Tries(call: WorkerCall, alive: bool)
    | Closes

  function Do(w: WorkerState, attempt: Attempt): WorkerState
  {
    match attempt
    case Tries(call, alive) => CallWorker(w, call, alive).0
    case Closes => w.(open := false, written := w.written + ClosingBytes(w))
  }

  function Work(attempts: seq<Attempt>): WorkerState
  {
    if attempts == [] then NewWorker else Do(Work(attempts[..|attempts| - 1]), attempts[|attempts| - 1])
  }

  predicate Passes(w: WorkerState, attempt: Attempt)
  {
    attempt.Tries? && CallWorker(w, attempt.call, attempt.alive).1.Pass?
  }

  predicate Succeeds(attempts: seq<Attempt>, i: nat)
    requires i < |attempts|
  {
    Passes(Work(attempts[..i]), attempts[i])
  }

  // -------------------------------------------------------- what is in force

  /** Attempt `i` bound the worker, and no reset has succeeded since. */
  predicate BoundAt(attempts: seq<Attempt>, i: nat)
    requires i < |attempts|
  {
    && attempts[i].Tries? && attempts[i].call.BindCall? && Succeeds(attempts, i)
    && forall j :: i < j < |attempts| ==> !(attempts[j].Tries? && attempts[j].call.ResetCall? && Succeeds(attempts, j))
  }

  predicate Names(attempt: Attempt, binding: MediaBinding)
  {
    attempt.Tries? && attempt.call.binding == binding
  }

  predicate IsBound(attempts: seq<Attempt>)
  {
    exists i :: 0 <= i < |attempts| && BoundAt(attempts, i)
  }

  predicate BoundTo(attempts: seq<Attempt>, binding: MediaBinding)
  {
    exists i :: 0 <= i < |attempts| && BoundAt(attempts, i) && Names(attempts[i], binding)
  }

  /** The call gets as far as the health check. */
  predicate Looks(before: seq<Attempt>, call: WorkerCall)
  {
    match call
    case BindCall(_) => !IsBound(before)
    case ResetCall(binding) => !IsBound(before) || BoundTo(before, binding)
    case WriteCall(_, _) => true
  }

  /** Some call has looked and found the child dead. */
  predicate FoundDead(attempts: seq<Attempt>)
  {
    exists i :: 0 <= i < |attempts| && FindsDead(attempts, i)
  }

  predicate FindsDead(attempts: seq<Attempt>, i: nat)
    requires i < |attempts|
  {
    attempts[i].Tries? && !attempts[i].alive && Looks(attempts[..i], attempts[i].call)
  }

  predicate Closed(attempts: seq<Attempt>)
  {
    Closes in attempts
  }

  /** Why a call fails, told by the attempts before it. */
  function WhyFails(before: seq<Attempt>, call: WorkerCall, alive: bool): Option<WorkerError>
  {
    var dead := FoundDead(before) || !alive;
    match call
    case BindCall(_) =>
      if IsBound(before) then Some(NeedsReset)
      else if dead then Some(Unhealthy)
      else if Closed(before) then Some(InputClosed)
      else None
    case ResetCall(binding) =>
      if IsBound(before) && !BoundTo(before, binding) then Some(OtherGeneration)
      else if dead then Some(Unhealthy)
      else if IsBound(before) && Closed(before) then Some(InputClosed)
      else None
    case WriteCall(binding, record) =>
      if dead then Some(Unhealthy)
      else if !BoundTo(before, binding) then Some(StaleBinding)
      else if !record.kind.H264AccessUnit? then Some(NotAccessUnit)
      else if Closed(before) then Some(InputClosed)
      else if Writable(record) then None
      else Some(Unwritable(Refusal(record).value))
  }

  /** What an attempt writes: the bytes of a call that does not fail, or a shutdown to a healthy open pipe. */
  function Leaves(before: seq<Attempt>, attempt: Attempt): seq<byte>
  {
    match attempt
    case Closes => if FoundDead(before) || Closed(before) then [] else ControlBytes(Shutdown)
    case Tries(call, alive) =>
      if WhyFails(before, call, alive).Some? then []
      else
        match call
        case BindCall(binding) => ControlBytes(Bind(binding))
        case ResetCall(binding) => if IsBound(before) then ControlBytes(Reset(binding)) else []
        case WriteCall(binding, record) => RecordBytes(binding, record)
  }

  function AllBytes(attempts: seq<Attempt>): seq<byte>
  {
    if attempts == [] then []
    else AllBytes(attempts[..|attempts| - 1]) + Leaves(attempts[..|attempts| - 1], attempts[|attempts| - 1])
  }

  // --------------------------------------------------------- one more attempt

  lemma OneMore(attempts: seq<Attempt>, attempt: Attempt)
    ensures var all := attempts + [attempt];
            && (forall j :: 0 <= j < |attempts| ==> all[j] == attempts[j] && (Succeeds(all, j) <==> Succeeds(attempts, j))
                                                    && (FindsDead(all, j) <==> FindsDead(attempts, j)))
            && (Succeeds(all, |attempts|) <==> Passes(Work(attempts), attempt))
            && (FindsDead(all, |attempts|) <==> attempt.Tries? && !attempt.alive && Looks(attempts, attempt.call))
            && Work(all) == Do(Work(attempts), attempt)
  {
    hide Passes, Looks, Do;
    var all := attempts + [attempt];
    assert all[..|attempts|] == attempts;
    forall j | 0 <= j < |attempts| ensures all[..j] == attempts[..j] {
    }
  }

  lemma BoundGrows(attempts: seq<Attempt>, attempt: Attempt, i: nat)
    requires i <= |attempts|
    ensures var passes := Passes(Work(attempts), attempt);
            BoundAt(attempts + [attempt], i) <==>
            if i == |attempts| then passes && attempt.call.BindCall?
            else BoundAt(attempts, i) && !(passes && attempt.call.ResetCall?)
  {
    hide Passes, Succeeds, Work, Looks;
    var all := attempts + [attempt];
    OneMore(attempts, attempt);
    assert all[|attempts|] == attempt;
    PassedTried(Work(attempts), attempt);
  }

  lemma PassedTried(w: WorkerState, attempt: Attempt)
    ensures Passes(w, attempt) ==> attempt.Tries?
  {
  }

  lemma DeadGrows(attempts: seq<Attempt>, attempt: Attempt)
    ensures FoundDead(attempts + [attempt]) <==>
            FoundDead(attempts) || (attempt.Tries? && !attempt.alive && Looks(attempts, attempt.call))
    ensures Closed(attempts + [attempt]) <==> Closed(attempts) || attempt.Closes?
  {
    hide Succeeds, Work, Looks, FindsDead;
    var all := attempts + [attempt];
    OneMore(attempts, attempt);
    if FoundDead(attempts) {
      var i :| 0 <= i < |attempts| && FindsDead(attempts, i);
      assert FindsDead(all, i);
    }
    if FindsDead(all, |attempts|) {
      assert FoundDead(all);
    }
    assert all[|attempts|] == attempt;
  }

  // --------------------------------------------------------------- the worker

  predicate BindingAsTold(attempts: seq<Attempt>, w: WorkerState)
  {
    && (w.binding.None? ==> forall i :: 0 <= i < |attempts| ==> !BoundAt(attempts, i))
    && (w.binding.Some? ==> exists i :: 0 <= i < |attempts| && BoundAt(attempts, i) && Names(attempts[i], w.binding.value))
    && (forall i, j :: 0 <= i < j < |attempts| && BoundAt(attempts, i) ==> !BoundAt(attempts, j))
  }

  /** The worker is what the attempts tell. */
  predicate AsTold(attempts: seq<Attempt>, w: WorkerState)
  {
    && BindingAsTold(attempts, w)
    && (w.failed <==> FoundDead(attempts))
    && (w.open <==> !FoundDead(attempts) && !Closed(attempts))
    && w.written == AllBytes(attempts)
  }

  lemma BindingTold(attempts: seq<Attempt>, w: WorkerState, binding: MediaBinding)
    requires BindingAsTold(attempts, w)
    ensures IsBound(attempts) <==> w.binding.Some?
    ensures BoundTo(attempts, binding) <==> w.binding == Some(binding)
  {
    hide BoundAt;
    if w.binding.Some? {
      var i :| 0 <= i < |attempts| && BoundAt(attempts, i) && Names(attempts[i], w.binding.value);
      if BoundTo(attempts, binding) {
        var j :| 0 <= j < |attempts| && BoundAt(attempts, j) && Names(attempts[j], binding);
        assert i == j;
      }
    }
  }

  /** Every call ends as the attempts before it tell. */
  lemma FailsAsTold(attempts: seq<Attempt>, w: WorkerState, call: WorkerCall, alive: bool)
    requires AsTold(attempts, w)
    ensures CallWorker(w, call, alive).1 ==
            match WhyFails(attempts, call, alive)
            case None => Pass
            case Some(error) => Fail(error)
    ensures Looks(attempts, call) <==> w.binding.None? || call.WriteCall? || (call.ResetCall? && w.binding == Some(call.binding))
  {
    BindingTold(attempts, w, call.binding);
    hide RecordBytes, ControlBytes, BindingAsTold, IsBound, BoundTo, FoundDead, Closed, AllBytes;
  }


  lemma StepBinding(attempts: seq<Attempt>, attempt: Attempt)
    requires BindingAsTold(attempts, Work(attempts))
    ensures BindingAsTold(attempts + [attempt], Work(attempts + [attempt]))
  {
    hide BoundAt, Work, RecordBytes, ControlBytes;
    var all, w := attempts + [attempt], Work(attempts);
    OneMore(attempts, attempt);
    forall i | 0 <= i <= |attempts|
      ensures BoundAt(all, i) <==>
              if i == |attempts| then Passes(w, attempt) && attempt.call.BindCall?
              else BoundAt(attempts, i) && !(Passes(w, attempt) && attempt.call.ResetCall?)
    {
      BoundGrows(attempts, attempt, i);
    }
    if Passes(w, attempt) && attempt.call.BindCall? {
      assert all[|attempts|] == attempt && Names(all[|attempts|], attempt.call.binding);
      assert BoundAt(all, |attempts|);
    } else if w.binding.Some? && !(Passes(w, attempt) && attempt.call.ResetCall?) {
      var i :| 0 <= i < |attempts| && BoundAt(attempts, i) && Names(attempts[i], w.binding.value);
      assert all[i] == attempts[i] && BoundAt(all, i) && Names(all[i], w.binding.value);
    }
  }

  /** A call that looks at a dead child, and nothing else, gives the worker up. */
  lemma CallGivesUp(w: WorkerState, call: WorkerCall, alive: bool)
    requires w.open ==> !w.failed
    ensures var next := CallWorker(w, call, alive).0;
            var looks := w.binding.None? || call.WriteCall? || (call.ResetCall? && w.binding == Some(call.binding));
            && (next.failed <==> w.failed || (looks && !alive))
            && (next.open <==> w.open && !next.failed)
  {
    hide RecordBytes, ControlBytes;
  }

  lemma StepGivesUp(attempts: seq<Attempt>, attempt: Attempt)
    requires AsTold(attempts, Work(attempts))
    ensures var all := attempts + [attempt];
            && (Work(all).failed <==> FoundDead(all))
            && (Work(all).open <==> !FoundDead(all) && !Closed(all))
  {
    hide Work, FoundDead, Closed, AllBytes, BindingAsTold, Looks, CallWorker;
    OneMore(attempts, attempt);
    DeadGrows(attempts, attempt);
    if attempt.Tries? {
      FailsAsTold(attempts, Work(attempts), attempt.call, attempt.alive);
      CallGivesUp(Work(attempts), attempt.call, attempt.alive);
    }
  }

  /** A call writes its own bytes when it passes, and nothing otherwise. */
  lemma CallWrites(w: WorkerState, call: WorkerCall, alive: bool)
    ensures var (next, outcome) := CallWorker(w, call, alive);
            next.written == w.written +
                            if outcome.Fail? then []
                            else
                              match call
                              case BindCall(binding) => ControlBytes(Bind(binding))
                              case ResetCall(binding) => if w.binding.Some? then ControlBytes(Reset(binding)) else []
                              case WriteCall(binding, record) => RecordBytes(binding, record)
  {
    hide RecordBytes, ControlBytes;
    assert w.written + [] == w.written;
  }

  lemma StepWrites(attempts: seq<Attempt>, attempt: Attempt)
    requires AsTold(attempts, Work(attempts))
    ensures Work(attempts + [attempt]).written == AllBytes(attempts + [attempt])
  {
    hide Work, FoundDead, Closed, AllBytes, BindingAsTold, CallWorker, WhyFails, IsBound, BoundTo, RecordBytes, ControlBytes;
    var w := Work(attempts);
    OneMore(attempts, attempt);
    LastLeaves(attempts, attempt);
    if attempt.Tries? {
      BindingTold(attempts, w, attempt.call.binding);
      FailsAsTold(attempts, w, attempt.call, attempt.alive);
      CallWrites(w, attempt.call, attempt.alive);
    }
  }

  lemma StepTold(attempts: seq<Attempt>, attempt: Attempt)
    requires AsTold(attempts, Work(attempts))
    ensures AsTold(attempts + [attempt], Work(attempts + [attempt]))
  {
    StepBinding(attempts, attempt);
    StepGivesUp(attempts, attempt);
    StepWrites(attempts, attempt);
    hide BindingAsTold, Work, FoundDead, Closed, AllBytes;
  }

  lemma NothingTold()
    ensures AsTold([], NewWorker)
  {
  }

  /** After any attempts the worker is bound, failed and open as they tell, and has written just what they leave. */
  lemma {:induction false} WorkerAsTold(attempts: seq<Attempt>)
    ensures AsTold(attempts, Work(attempts))
  {
    hide AsTold, Do;
    if attempts == [] {
      NothingTold();
    } else {
      WorkerAsTold(attempts[..|attempts| - 1]);
      StepTold(attempts[..|attempts| - 1], attempts[|attempts| - 1]);
      assert attempts[..|attempts| - 1] + [attempts[|attempts| - 1]] == attempts;
    }
  }

  /**
   * Every call succeeds or fails, with the error that comes first, for what the
   * attempts before it tell; in particular nothing succeeds or is written once a
   * call has looked and found the child dead.
   */
  lemma CallsFailExactly(attempts: seq<Attempt>, call: WorkerCall, alive: bool)
    ensures var (next, outcome) := CallWorker(Work(attempts), call, alive);
            && outcome == (match WhyFails(attempts, call, alive)
                           case None => Pass
                           case Some(error) => Fail(error))
            && next.written == AllBytes(attempts) + Leaves(attempts, Tries(call, alive))
            && (FoundDead(attempts) ==> outcome.Fail? && next.written == Work(attempts).written)
  {
    hide Work, AsTold, WhyFails, FoundDead;
    WorkerAsTold(attempts);
    var all := attempts + [Tries(call, alive)];
    OneMore(attempts, Tries(call, alive));
    LastLeaves(attempts, Tries(call, alive));
    FailsAsTold(attempts, Work(attempts), call, alive);
    WrittenAsTold(attempts);
    WrittenAsTold(all);
    if FoundDead(attempts) {
      DeadFails(attempts, call, alive);
    }
    assert AllBytes(attempts) + [] == AllBytes(attempts);
  }

  lemma LastLeaves(attempts: seq<Attempt>, attempt: Attempt)
    ensures AllBytes(attempts + [attempt]) == AllBytes(attempts) + Leaves(attempts, attempt)
  {
    hide Leaves;
    assert (attempts + [attempt])[..|attempts|] == attempts;
  }

  lemma WrittenAsTold(attempts: seq<Attempt>)
    ensures Work(attempts).written == AllBytes(attempts)
  {
    hide BindingAsTold, Work, FoundDead, Closed, AllBytes;
    WorkerAsTold(attempts);
  }

  lemma DeadFails(attempts: seq<Attempt>, call: WorkerCall, alive: bool)
    requires FoundDead(attempts)
    ensures WhyFails(attempts, call, alive).Some?
  {
    hide FoundDead;
  }
}
