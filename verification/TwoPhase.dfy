/**
 * Validation in two phases. Between checking a header and committing its
 * payload, a caller may make any other calls on the same validator; these
 * lemmas say what that can and cannot change.
 */
module TwoPhase {
  import opened Wrappers
  import opened Bytes
  import opened Media
  import opened Validator

  datatype Call =
    | Check(header: seq<byte>)
    | Commit(token: nat, payload: seq<byte>)

  /** A validated header in a caller's hands, with the state that validated it. */
  datatype Issued = Issued(at: ValidatorState, header: seq<byte>, pending: ValidatedMediaHeader)

  datatype Run = Run(now: ValidatorState, issued: seq<Issued>, committed: seq<MediaRecord>)

  function Start(binding: MediaBinding): Run
  {
    Run(NewValidator(binding), [], [])
  }

  /** One call; a call that fails leaves everything as it was. */
  function Step(run: Run, call: Call): Run
  {
    match call
    case Check(header) =>
      if |header| == MEDIA_HEADER_BYTES && ValidateHeader(run.now, header).Ok? then
        run.(issued := run.issued + [Issued(run.now, header, ValidateHeader(run.now, header).value)])
      else run
    case Commit(token, payload) =>
      if token < |run.issued| && FinishRecord(run.now, run.issued[token].pending, payload).Ok? then
        var (record, after) := FinishRecord(run.now, run.issued[token].pending, payload).value;
        run.(now := after, committed := run.committed + [record])
      else run
  }

  function Execute(run: Run, calls: seq<Call>): Run
    decreases |calls|
  {
    if calls == [] then run else Step(Execute(run, calls[..|calls| - 1]), calls[|calls| - 1])
  }

  /** How many sequence numbers have been used up. */
  function Progress(v: ValidatorState): nat
  {
    if v.lastSequence.Some? then v.lastSequence.value + 1 else 0
  }

  predicate Consistent(run: Run)
  {
    forall i :: 0 <= i < |run.issued| ==>
      var issued := run.issued[i];
      && |issued.header| == MEDIA_HEADER_BYTES
      && ValidateHeader(issued.at, issued.header) == Ok(issued.pending)
      && issued.pending.sequence == Progress(issued.at)
      && Progress(issued.at) <= Progress(run.now)
      && (Progress(issued.at) == Progress(run.now) ==> issued.at == run.now)
  }

  lemma StepKeepsConsistent(run: Run, call: Call)
    requires Consistent(run)
    ensures Consistent(Step(run, call))
    ensures Progress(run.now) <= Progress(Step(run, call).now)
  {
    match call
    case Check(header) =>
      if |header| == MEDIA_HEADER_BYTES && ValidateHeader(run.now, header).Ok? {
        SequenceOfValidated(run.now, header);
      }
    case Commit(token, payload) =>
      hide ValidateHeader;
  }

  lemma SequenceOfValidated(v: ValidatorState, header: seq<byte>)
    requires |header| == MEDIA_HEADER_BYTES && ValidateHeader(v, header).Ok?
    ensures ValidateHeader(v, header).value.sequence == Progress(v)
  {
  }

  lemma {:induction false} ReachableConsistent(binding: MediaBinding, calls: seq<Call>)
    ensures Consistent(Execute(Start(binding), calls))
  {
    if calls != [] {
      ReachableConsistent(binding, calls[..|calls| - 1]);
      StepKeepsConsistent(Execute(Start(binding), calls[..|calls| - 1]), calls[|calls| - 1]);
    }
  }

  /**
   * Whatever was called in between, a header whose sequence is below the largest
   * one commits only in the very state it was validated against.
   */
  lemma CommitsWhereValidated(binding: MediaBinding, calls: seq<Call>, token: nat, payload: seq<byte>)
    requires var run := Execute(Start(binding), calls);
             && token < |run.issued|
             && FinishRecord(run.now, run.issued[token].pending, payload).Ok?
    ensures var run := Execute(Start(binding), calls);
            var issued := run.issued[token];
            && (issued.pending.sequence < U64_MAX ==> run.now == issued.at)
            && (run.now != issued.at ==> run.now.lastSequence == Some(U64_MAX))
  {
    hide ValidateHeader;
    ReachableConsistent(binding, calls);
  }

  lemma {:induction false} ProgressGrows(run: Run, calls: seq<Call>)
    requires Consistent(run)
    ensures Consistent(Execute(run, calls))
    ensures Progress(run.now) <= Progress(Execute(run, calls).now)
    ensures |run.issued| <= |Execute(run, calls).issued|
    ensures forall i :: 0 <= i < |run.issued| ==> Execute(run, calls).issued[i] == run.issued[i]
  {
    hide ValidateHeader;
    hide FinishRecord;
    if calls != [] {
      ProgressGrows(run, calls[..|calls| - 1]);
      StepKeepsConsistent(Execute(run, calls[..|calls| - 1]), calls[|calls| - 1]);
    }
  }

  /** A header commits at most once, however many calls follow the commit. */
  lemma CommitsAtMostOnce(binding: MediaBinding, before: seq<Call>, token: nat, payload: seq<byte>,
                          between: seq<Call>, again: seq<byte>)
    requires var run := Execute(Start(binding), before);
             && token < |run.issued|
             && run.issued[token].pending.sequence < U64_MAX
             && FinishRecord(run.now, run.issued[token].pending, payload).Ok?
    ensures var run := Execute(Start(binding), before);
            var later := Execute(Step(run, Commit(token, payload)), between);
            && token < |later.issued| && later.issued[token] == run.issued[token]
            && FinishRecord(later.now, later.issued[token].pending, again).Err?
  {
    hide ValidateHeader;
    var run := Execute(Start(binding), before);
    ReachableConsistent(binding, before);
    StepKeepsConsistent(run, Commit(token, payload));
    ProgressGrows(Step(run, Commit(token, payload)), between);
  }

  /**
   * Committing one header twice in a row succeeds exactly when it is an access
   * unit with the largest sequence number, where the expected successor
   * saturates instead of being refused.
   */
  lemma ReplayExactly(v: ValidatorState, pending: ValidatedMediaHeader, payload: seq<byte>, again: seq<byte>)
    requires FinishRecord(v, pending, payload).Ok?
    ensures FinishRecord(FinishRecord(v, pending, payload).value.1, pending, again).Ok? <==>
            && pending.kind.H264AccessUnit?
            && pending.sequence == U64_MAX
            && |again| == pending.payloadLength
  {
  }

  function Unit(sequence: u64): (r: MediaRecord)
    ensures Writable(r)
  {
    MediaRecord(H264AccessUnit, false, sequence, 0, [0])
  }

  /** Validates and commits the access units numbered 0 .. n - 1. */
  function CallsThrough(binding: MediaBinding, n: nat): (r: seq<Call>)
    requires n <= U64_MAX + 1
  {
    if n == 0 then []
    else CallsThrough(binding, n - 1) + [Check(RecordHeader(binding, Unit(n - 1))), Commit(n - 1, [0])]
  }

  function AfterUnits(binding: MediaBinding, n: nat): ValidatorState
    requires n <= U64_MAX + 1
  {
    if n == 0 then NewValidator(binding) else ValidatorState(binding, Some(n - 1), Some(0), false)
  }

  lemma {:induction false} ReachesAnyLength(binding: MediaBinding, n: nat)
    requires n <= U64_MAX + 1
    ensures var run := Execute(Start(binding), CallsThrough(binding, n));
            && run.now == AfterUnits(binding, n) && |run.issued| == n
            && |run.committed| == n
            && (n > 0 ==> run.committed[n - 1] == Unit(n - 1)
                          && run.issued[n - 1].pending == ValidatedMediaHeader(H264AccessUnit, false, n - 1, 0, 1))
  {
    hide ValidateHeader;
    hide RecordHeader;
    if n > 0 {
      var calls := CallsThrough(binding, n);
      var header := RecordHeader(binding, Unit(n - 1));
      ReachesAnyLength(binding, n - 1);
      assert calls[..|calls| - 1] == CallsThrough(binding, n - 1) + [Check(header)];
      assert calls[..|calls| - 1][..|calls| - 2] == CallsThrough(binding, n - 1);
      ValidateExactly(AfterUnits(binding, n - 1), header, Unit(n - 1));
    }
  }

  /** The bound is tight: some run commits the header numbered U64_MAX twice. */
  lemma LargestSequenceReplays(binding: MediaBinding)
    ensures var calls := CallsThrough(binding, U64_MAX + 1) + [Commit(U64_MAX, [0])];
            var committed := Execute(Start(binding), calls).committed;
            && |committed| == U64_MAX + 2
            && committed[U64_MAX].sequence == U64_MAX && committed[U64_MAX + 1].sequence == U64_MAX
  {
    hide ValidateHeader;
    hide RecordHeader;
    var calls := CallsThrough(binding, U64_MAX + 1) + [Commit(U64_MAX, [0])];
    ReachesAnyLength(binding, U64_MAX + 1);
    assert calls[..|calls| - 1] == CallsThrough(binding, U64_MAX + 1);
  }

  /**
   * Two-phase validation refines validating and committing in one step: the
   * committed records are a legal stream, in whatever order calls were made,
   * and the state is the one that committing them atomically gives.
   */
  lemma {:induction false} RefinesAtomicValidation(binding: MediaBinding, calls: seq<Call>)
    requires Execute(Start(binding), calls).now.lastSequence != Some(U64_MAX)
    ensures var run := Execute(Start(binding), calls);
            && LegalStream(run.committed)
            && run.now == CommittedAll(NewValidator(binding), run.committed)
  {
    hide ValidateHeader;
    var run := Execute(Start(binding), calls);
    RefinesFollowing(binding, calls);
    FreshStreamLegal(binding, run.committed);
  }

  lemma {:induction false} RefinesFollowing(binding: MediaBinding, calls: seq<Call>)
    requires Execute(Start(binding), calls).now.lastSequence != Some(U64_MAX)
    ensures var run := Execute(Start(binding), calls);
            && FollowsAll(NewValidator(binding), run.committed)
            && run.now == CommittedAll(NewValidator(binding), run.committed)
  {
    hide ValidateHeader;
    if calls != [] {
      var before := Execute(Start(binding), calls[..|calls| - 1]);
      var call := calls[|calls| - 1];
      ReachableConsistent(binding, calls[..|calls| - 1]);
      StepKeepsConsistent(before, call);
      assert Step(before, call) == Execute(Start(binding), calls);
      RefinesFollowing(binding, calls[..|calls| - 1]);
      if call.Commit? && Step(before, call) != before {
        CommitFollows(before, call.token, call.payload);
        NextCommits(NewValidator(binding), before.committed, Step(before, call).committed[|before.committed|]);
      }
    }
  }

  lemma CommitFollows(run: Run, token: nat, payload: seq<byte>)
    requires Consistent(run) && token < |run.issued|
    requires FinishRecord(run.now, run.issued[token].pending, payload).Ok?
    requires run.issued[token].pending.sequence < U64_MAX
    ensures Follows(run.now, FinishRecord(run.now, run.issued[token].pending, payload).value.0)
  {
    var issued := run.issued[token];
    assert run.now == issued.at by { hide ValidateHeader; }
    FinishAccepted(run.now, issued.header, payload);
  }
}
