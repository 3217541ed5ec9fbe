// One native model transaction around a block of work: what the wrapper asks of the
// host, and whether what it reports about the commit is true.
module Transaction {
  import opened Options

  // What the host says to a call: true, anything else, or an exception.
  datatype Reply = Confirms | Declines | Raises

  datatype Call = Start(reply: Reply) | Commit(reply: Reply) | Abort(reply: Reply)

  // What has really become of the transaction.
  datatype Fate = Untouched | Open | Kept | RolledBack

  datatype CommitState = NotStarted | NotCommitted | OutcomeUnknown | Committed | Unstated

  datatype Phase = AtStart | PrecommitExecution | PrecommitSerialization | AtCommit | PostcommitFinalize | OfTheBlock

  datatype Details = Details(phase: Phase, commitState: CommitState, abortSucceeded: Option<bool>)

  // How the block ends: with a value, with an error of the bridge and what that
  // says, with another error, or with something the wrapper does not rescue.
  datatype Block =
    | Yields(isHash: bool, isJson: bool)
    | RaisesBridgeError(details: Option<Details>)
    | RaisesOther
    | Escapes

  datatype Outcome =
    | Returned(receipt: bool)
    | Failed(details: Option<Details>)
    | Escaped

  ghost predicate Truthful(claim: CommitState, fate: Fate) {
    match claim
    case NotStarted => fate == Untouched
    case NotCommitted => fate != Kept
    case Committed => fate == Kept
    case OutcomeUnknown => true
    case Unstated => true
  }

  ghost predicate SaysTrue(details: Option<Details>, fate: Fate) {
    details.Some? ==> Truthful(details.value.commitState, fate)
  }

  ghost predicate ClaimsTooMuch(details: Option<Details>) {
    details.Some? && (details.value.commitState == Committed || details.value.commitState == NotStarted)
  }

  // The host's model. Only a confirming reply says what was done: a call that is
  // declined or raises may have had its effect all the same.
  class NativeModel {
    var fate: Fate
    var calls: seq<Call>

    constructor ()
      ensures fate == Untouched && calls == []
    {
      fate, calls := Untouched, [];
    }

    method StartOperation() returns (reply: Reply)
      requires fate == Untouched
      modifies this
      ensures calls == old(calls) + [Start(reply)]
      ensures (fate == Untouched || fate == Open) && (reply.Confirms? ==> fate == Open)
    {
      reply := *;
      var begun: bool := *;
      if reply.Confirms? || begun {
        fate := Open;
      }
      calls := calls + [Start(reply)];
    }

    method CommitOperation() returns (reply: Reply)
      requires fate == Open
      modifies this
      ensures calls == old(calls) + [Commit(reply)]
      ensures fate != Untouched && (reply.Confirms? ==> fate == Kept)
    {
      reply := *;
      var end: Fate := *;
      if reply.Confirms? {
        fate := Kept;
      } else if end != Untouched {
        fate := end;
      }
      calls := calls + [Commit(reply)];
    }

    method AbortOperation() returns (reply: Reply)
      requires fate == Open
      modifies this
      ensures calls == old(calls) + [Abort(reply)]
      ensures (fate == RolledBack || fate == Open) && (reply.Confirms? ==> fate == RolledBack)
    {
      reply := *;
      var undone: bool := *;
      if reply.Confirms? || undone {
        fate := RolledBack;
      }
      calls := calls + [Abort(reply)];
    }
  }

  // What the wrapper asks of the host: a transaction is started once, and then
  // committed, exactly when the block gives a value that can be sent, or aborted,
  // exactly when the block fails before that, or neither.
  ghost predicate AsksInOrder(calls: seq<Call>, block: Block) {
    && 1 <= |calls| <= 2 && calls[0].Start? && (|calls| == 2 ==> calls[0] == Start(Confirms) && !calls[1].Start?)
    && (Committing(calls) <==> calls[0] == Start(Confirms) && block.Yields? && block.isJson)
    && (Aborting(calls) <==> calls[0] == Start(Confirms) && !(block.Yields? && block.isJson) && !block.Escapes?)
  }

  ghost predicate Committing(calls: seq<Call>) {
    |calls| == 2 && calls[1].Commit?
  }

  ghost predicate Aborting(calls: seq<Call>) {
    |calls| == 2 && calls[1].Abort?
  }

  // Success is reported exactly for a confirmed commit whose receipt could be written
  // into the result, if that is a hash. What is not rescued goes by unreported.
  ghost predicate ReportsSuccess(calls: seq<Call>, fate: Fate, block: Block, finalizes: bool, outcome: Outcome) {
    && (outcome.Returned? <==>
          |calls| == 2 && calls[1] == Commit(Confirms) && block.Yields? && (block.isHash ==> finalizes))
    && (outcome.Returned? ==> fate == Kept && (outcome.receipt <==> block.isHash))
    && (outcome.Escaped? <==> calls == [Start(Confirms)] && block.Escapes?)
  }

  // What a failure says of the commit is true, but for two cases. A declined start is
  // reported as not started: true exactly when the host had begun nothing. An error
  // that the block raised in the bridge's own form is passed on: true exactly when it
  // claimed neither a commit nor that nothing was started.
  ghost predicate ReportsTruly(calls: seq<Call>, fate: Fate, block: Block, outcome: Outcome)
    requires calls != []
  {
    outcome.Failed? ==>
      if calls[0] == Start(Declines) then
        && outcome.details == Some(Details(AtStart, NotStarted, None))
        && (SaysTrue(outcome.details, fate) <==> fate == Untouched)
      else if calls[0] == Start(Confirms) && block.RaisesBridgeError? then
        SaysTrue(outcome.details, fate) <==> !ClaimsTooMuch(block.details)
      else
        outcome.details.Some? && SaysTrue(outcome.details, fate)
  }

  // An unknown outcome is reported exactly for a commit that was not confirmed, and an
  // abort is said to have succeeded exactly when the host confirmed it.
  ghost predicate ReportsReplies(calls: seq<Call>, block: Block, outcome: Outcome) {
    outcome.Failed? && outcome.details.Some? ==>
      && (!block.RaisesBridgeError? ==>
            (outcome.details.value.commitState == OutcomeUnknown <==> Committing(calls) && !calls[1].reply.Confirms?))
      && (Aborting(calls) ==> outcome.details.value.abortSucceeded == Some(calls[1].reply.Confirms?))
  }

  // A failure names the phase in which it arose; an error of the block in the bridge's
  // own form keeps what it says.
  ghost predicate NamesPhase(calls: seq<Call>, block: Block, outcome: Outcome)
    requires calls != []
  {
    outcome.Failed? ==>
      if calls[0] == Start(Confirms) && block.RaisesBridgeError? then
        && (outcome.details.None? <==> block.details.None?)
        && (outcome.details.Some? ==>
              outcome.details.value.phase == block.details.value.phase
              && outcome.details.value.commitState == block.details.value.commitState)
      else
        && outcome.details.Some?
        && outcome.details.value.phase ==
          if calls[0] == Start(Declines) then AtStart
          else if Committing(calls) then (if calls[1].reply.Confirms? then PostcommitFinalize else AtCommit)
          else if calls[0] == Start(Confirms) && block.Yields? then PrecommitSerialization
          else PrecommitExecution
  }

  ghost predicate Settled(calls: seq<Call>, fate: Fate, block: Block, finalizes: bool, outcome: Outcome) {
    && AsksInOrder(calls, block) && ReportsSuccess(calls, fate, block, finalizes, outcome)
    && ReportsTruly(calls, fate, block, outcome) && ReportsReplies(calls, block, outcome)
    && NamesPhase(calls, block, outcome)
  }

  // A block that is reported to have succeeded was run and committed, and one that
  // nothing was reported of was run and left as it was.
  lemma HowItSettles(calls: seq<Call>, fate: Fate, block: Block, finalizes: bool, outcome: Outcome)
    requires Settled(calls, fate, block, finalizes, outcome)
    ensures calls != [] && calls[0].Start?
    ensures !outcome.Failed? ==> calls[0] == Start(Confirms)
    ensures outcome.Returned? ==> block.Yields? && fate == Kept
    ensures outcome.Escaped? ==> block.Escapes? && |calls| == 1
  {
  }

  // The bridge, as far as a transaction touches it: whether it holds the state of
  // the document in its cache.
  class Bridge {
    var cached: bool

    constructor (cached: bool)
      ensures this.cached == cached
    {
      this.cached := cached;
    }

    // Runs the block in a transaction. finalizes says whether the receipt can be
    // written into the result once it is committed. A failure leaves nothing of the
    // document in the cache.
    method WithAtomicModelTransaction(model: NativeModel, block: Block, finalizes: bool) returns (outcome: Outcome)
      requires model.fate == Untouched && model.calls == []
      modifies this, model
      ensures Settled(model.calls, model.fate, block, finalizes, outcome)
      ensures cached == (old(cached) && !outcome.Failed?)
    {
      var startReply := model.StartOperation();
      outcome := Conclude(model, startReply, block, finalizes);
    }

    // The wrapper from the reply to the start on. When that confirms, the block has
    // been run by now, and this is how it ended.
    method Conclude(model: NativeModel, startReply: Reply, block: Block, finalizes: bool) returns (outcome: Outcome)
      requires model.calls == [Start(startReply)]
      requires (model.fate == Untouched || model.fate == Open) && (startReply.Confirms? ==> model.fate == Open)
      modifies this, model
      ensures Settled(model.calls, model.fate, block, finalizes, outcome)
      ensures old(model.calls) <= model.calls && (model.calls == old(model.calls) ==> model.fate == old(model.fate))
      ensures cached == (old(cached) && !outcome.Failed?)
    {
      var operationStarted, commitAttempted, committed := false, false, false;
      var error: Option<Details> := None;
      var ofTheBridge := false;

      if startReply.Declines? {
        error, ofTheBridge := Some(Details(AtStart, NotStarted, None)), true;
      } else if startReply.Confirms? {
        operationStarted := true;
        match block {
          case Escapes => return Escaped;
          case RaisesBridgeError(details) => error, ofTheBridge := details, true;
          case RaisesOther =>
          case Yields(isHash, isJson) =>
            if !isJson {
              error, ofTheBridge := Some(Details(PrecommitSerialization, NotCommitted, None)), true;
            } else {
              commitAttempted, operationStarted := true, false;
              var commitReply := model.CommitOperation();
              if commitReply.Declines? {
                error, ofTheBridge := Some(Details(AtCommit, OutcomeUnknown, None)), true;
              } else if commitReply.Confirms? {
                committed := true;
                if !isHash || finalizes {
                  return Returned(isHash);
                }
              }
            }
        }
      }

      // the rescue
      var abortSucceeded: Option<bool> := None;
      if operationStarted && !commitAttempted {
        var abortReply := model.AbortOperation();
        abortSucceeded := Some(abortReply.Confirms?);
      }
      cached := false;
      if ofTheBridge {
        if error.Some? && abortSucceeded.Some? {
          error := Some(error.value.(abortSucceeded := abortSucceeded));
        }
        return Failed(error);
      }
      if committed {
        return Failed(Some(Details(PostcommitFinalize, Committed, None)));
      }
      if commitAttempted && !committed {
        return Failed(Some(Details(AtCommit, OutcomeUnknown, None)));
      }
      outcome := Failed(Some(Details(PrecommitExecution, NotCommitted, abortSucceeded)));
    }
  }
}
