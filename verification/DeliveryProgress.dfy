/** What an answer of the server does: a batch that was not taken stays where it is and is sent again. */
module DeliveryProgress {
  import opened GoText
  import opened SpoolNames
  import opened SpoolQueue
  import opened Delivery
  import opened DeliveryProofs
  import opened DeliveryLimits

  // ---------------------------------------------------------------- no lease is left behind

  /** A drain worker that waits holds no lease. */
  predicate LeaseInUse(s: State) {
    s.up && s.drain.Waiting? ==> s.mem.lease.None?
  }

  lemma DrainStepUsesLease(c: Config, s: State, step: Step)
    requires DrainStep(step) && AtHead(s) && LeaseInUse(s) && Enabled(c, s, step) && step != Unmark(false)
    ensures LeaseInUse(Apply(c, s, step))
  {
  }

  lemma StepUsesLease(c: Config, s: State, step: Step)
    requires AtHead(s) && LeaseInUse(s) && Enabled(c, s, step) && step != Unmark(false)
    ensures LeaseInUse(Apply(c, s, step))
  {
    if DrainStep(step) { DrainStepUsesLease(c, s, step); }
  }

  lemma {:induction false} RunUsesLease(c: Config, s: State, steps: seq<Step>)
    requires AtHead(s) && LeaseInUse(s) && Legal(c, s, steps) && Unmark(false) !in steps
    ensures LeaseInUse(Exec(c, s, steps))
    decreases |steps|
  {
    if steps != [] {
      StepKeepsHead(c, s, steps[0]);
      StepUsesLease(c, s, steps[0]);
      RunUsesLease(c, Apply(c, s, steps[0]), steps[1..]);
    }
  }

  /** On every run whose reverts could rename, crashes and all other failures included, a waiting drain
      worker holds no lease: the next round can lease the head. */
  lemma WaitingHoldsNoLease(c: Config, steps: seq<Step>)
    requires Legal(c, Init(), steps) && Unmark(false) !in steps
    ensures var s := Exec(c, Init(), steps); s.up && s.drain.Waiting? ==> s.mem.lease.None?
  {
    RunUsesLease(c, Init(), steps);
  }

  // ---------------------------------------------------------------- answers to the drain worker

  predicate Retryable(outcome: Outcome) {
    outcome == AckLost || outcome == NotDelivered
  }

  /** Step `i` is an answer of the server to the leased head, and the drain worker has done nothing since. */
  predicate LastAnswer(steps: seq<Step>, i: nat, outcome: Outcome) {
    && i < |steps| && steps[i] == SendLease(outcome)
    && forall j :: i < j < |steps| ==> !DrainStep(steps[j]) && !RestartStep(steps[j])
  }

  /** Steps of the other worker leave the leased head and the drain worker alone. */
  lemma OtherWorkerKeepsLease(c: Config, s: State, step: Step)
    requires AtHead(s) && s.mem.lease.Some? && Enabled(c, s, step) && BatchStep(step)
    ensures var t := Apply(c, s, step);
      t.up && t.drain == s.drain && t.mem.lease == s.mem.lease && t.mem.files != [] && t.mem.files[0] == s.mem.files[0]
  {
    if step.TrimOne? { TrimKeepsHead(s, step.removed); }
  }

  /** The server's answer itself. */
  lemma AnswerTaken(c: Config, s: State, outcome: Outcome)
    requires AtHead(s) && Enabled(c, s, SendLease(outcome))
    ensures var t := Apply(c, s, SendLease(outcome));
      && t.mem == s.mem && t.disk == s.disk && s.mem.lease == Some(s.mem.files[0])
      && t.log == s.log + (if outcome == Acked || outcome == AckLost then [s.mem.files[0].path.stem.id] else [])
      && (if Retryable(outcome) then t.drain.Reverting? else t.drain == Committing(outcome == Acked))
  {
  }

  /** After a retryable failure the same head stays leased until the drain worker reverts it, whatever the
      other worker does meanwhile. */
  lemma {:induction false} RetryableKeepsHead(c: Config, steps: seq<Step>, i: nat, outcome: Outcome)
    requires Legal(c, Init(), steps) && LastAnswer(steps, i, outcome) && Retryable(outcome)
    ensures Legal(c, Init(), steps[..i])
    ensures var before, s := Exec(c, Init(), steps[..i]), Exec(c, Init(), steps);
      && s.up && s.drain.Reverting? && before.mem.files != [] && s.mem.files != [] && s.mem.files[0] == before.mem.files[0]
      && s.mem.lease == Some(s.mem.files[0])
    decreases |steps|
  {
    var n := |steps| - 1;
    LegalSplit(c, Init(), steps, n);
    RunKeepsHead(c, Init(), steps[..n]);
    var t := Exec(c, Init(), steps[..n]);
    if i == n {
      AnswerTaken(c, t, outcome);
    } else {
      assert steps[..n][..i] == steps[..i];
      RetryableKeepsHead(c, steps[..n], i, outcome);
      OtherWorkerKeepsLease(c, t, steps[n]);
    }
  }

  /** The head is back in the queue under its pending name, and can be leased again. */
  predicate BackInQueue(before: Mem, after: Mem) {
    && before.files != [] && after.lease.None?
    && after.files == [before.files[0].(path := MarkPending(before.files[0].path))] + before.files[1..]
  }

  lemma RevertEnablesPeek(c: Config, s: State)
    requires s.up && s.drain.Reverting? && MutexFree(s) && s.mem.files != [] && Describes(s.mem.files[0], s.disk)
    ensures Enabled(c, s, Unmark(true))
    ensures var t := Apply(c, s, Unmark(true)); BackInQueue(s.mem, t.mem) && t.log == s.log && Enabled(c, t, Peek)
  {
  }

  /** A retryable failure puts the head back and leads to its being sent again: the only step the drain worker
      can take is to revert, and once the rename works the head can be leased again. */
  lemma RetryableSendsAgain(c: Config, steps: seq<Step>, i: nat, outcome: Outcome)
    requires Legal(c, Init(), steps) && LastAnswer(steps, i, outcome) && Retryable(outcome)
    ensures var s := Exec(c, Init(), steps);
      && (forall step :: DrainStep(step) && Enabled(c, s, step) ==> step.Unmark?)
      && (MutexFree(s) && s.mem.files != [] && Describes(s.mem.files[0], s.disk) ==>
            && Enabled(c, s, Unmark(true))
            && var t := Apply(c, s, Unmark(true)); BackInQueue(s.mem, t.mem) && Enabled(c, t, Peek))
  {
    RetryableKeepsHead(c, steps, i, outcome);
    OnlyRevert(c, Exec(c, Init(), steps));
  }

  lemma OnlyRevert(c: Config, s: State)
    requires s.up && s.drain.Reverting?
    ensures forall step :: DrainStep(step) && Enabled(c, s, step) ==> step.Unmark?
    ensures MutexFree(s) && s.mem.files != [] && Describes(s.mem.files[0], s.disk) ==>
      && Enabled(c, s, Unmark(true))
      && var t := Apply(c, s, Unmark(true)); BackInQueue(s.mem, t.mem) && Enabled(c, t, Peek)
  {
    if MutexFree(s) && s.mem.files != [] && Describes(s.mem.files[0], s.disk) { RevertEnablesPeek(c, s); }
  }

  // ---------------------------------------------------------------- a revert that fails

  /** The drain worker waits for a lease it holds itself. */
  predicate Stuck(s: State) {
    s.up && AtHead(s) && s.drain.Waiting? && s.mem.lease.Some?
  }

  lemma StuckStep(c: Config, s: State, step: Step)
    requires Stuck(s) && Enabled(c, s, step)
    ensures !DrainStep(step) && (!step.Crash? ==> Stuck(Apply(c, s, step)))
  {
    if BatchStep(step) {
      BatchStepKeepsHead(c, s, step);
      OtherWorkerKeepsLease(c, s, step);
    }
  }

  /** Until the agent is restarted nothing is drained any more. */
  lemma {:induction false} StuckUntilRestart(c: Config, s: State, steps: seq<Step>)
    requires Stuck(s) && Legal(c, s, steps) && Crash !in steps
    ensures Stuck(Exec(c, s, steps)) && forall i :: 0 <= i < |steps| ==> !DrainStep(steps[i])
    decreases |steps|
  {
    if steps != [] {
      StuckStep(c, s, steps[0]);
      StuckUntilRestart(c, Apply(c, s, steps[0]), steps[1..]);
      assert forall i :: 1 <= i < |steps| ==> steps[i] == steps[1..][i - 1];
    }
  }

  /** The head can be leased again before a restart. */
  ghost predicate CanDrainAgain(c: Config, s: State) {
    exists steps :: Legal(c, s, steps) && Crash !in steps && Enabled(c, Exec(c, s, steps), Peek)
  }

  lemma StuckForGood(c: Config, s: State)
    requires Stuck(s)
    ensures !CanDrainAgain(c, s)
  {
    forall steps | Legal(c, s, steps) && Crash !in steps ensures !Enabled(c, Exec(c, s, steps), Peek) {
      StuckUntilRestart(c, s, steps);
    }
  }

  /** After a retryable failure the head can be leased again, without a restart, if and only if the rename of the
      revert works. */
  lemma RevertDecides(c: Config, s: State, renamed: bool)
    requires AtHead(s) && Enabled(c, s, Unmark(renamed)) && Describes(s.mem.files[0], s.disk)
    ensures CanDrainAgain(c, Apply(c, s, Unmark(renamed))) <==> renamed
  {
    var t := Apply(c, s, Unmark(renamed));
    if renamed {
      RevertEnablesPeek(c, s);
      assert Legal(c, t, []) && Exec(c, t, []) == t && Crash !in [];
    } else {
      DrainStepKeepsHead(c, s, Unmark(renamed));
      StuckForGood(c, t);
    }
  }

  // ---------------------------------------------------------------- answers to a live send

  /** What a live send leaves: an acknowledged batch is done, a rejected one dropped, and any other is still
      in hand with nothing left to do but push it. */
  ghost predicate LiveAnswered(c: Config, b: nat, outcome: Outcome, s: State, t: State) {
    && t.mem == s.mem && t.disk == s.disk
    && t.log == s.log + (if outcome == Acked || outcome == AckLost then [b] else [])
    && (outcome == Acked ==> Hand(t).None? && b in t.acked && t.dropped == s.dropped)
    && (outcome == Permanent ==> Hand(t).None? && t.dropped == s.dropped[b := Rejected] && t.acked == s.acked)
    && (Retryable(outcome) ==>
          && Hand(t) == Some(b) && t.acked == s.acked && t.dropped == s.dropped
          && forall step :: BatchStep(step) && Enabled(c, t, step) ==> step.WriteTemp? || step.PushError?)
  }

  lemma LiveSendAnswered(c: Config, s: State, outcome: Outcome)
    requires Enabled(c, s, SendLive(outcome))
    ensures Hand(s).Some? && LiveAnswered(c, Hand(s).value, outcome, s, Apply(c, s, SendLive(outcome)))
  {
  }

  /** A batch in hand that must be pushed: written and renamed it is the last segment of the queue and on disk. */
  lemma PushedBatchIsQueued(c: Config, s: State, b: nat, stamp: nat, size: nat, events: nat) returns (t: State)
    requires s.up && s.batch == Pushing(b) && MutexFree(s) && s.clock < stamp <= MAX_NANO
    ensures Leads(c, s, [WriteTemp(stamp), RenameTemp(size, events)], t)
    ensures var f := SpoolFile(Path(Stem(stamp, b), [Json]), size, events);
      t.mem.files == s.mem.files + [f] && Describes(f, t.disk) && t.dropped == s.dropped && Hand(t).None?
  {
    LegalAppend(c, s, [], WriteTemp(stamp));
    LegalAppend(c, s, [WriteTemp(stamp)], RenameTemp(size, events));
    assert [] + [WriteTemp(stamp)] == [WriteTemp(stamp)];
    assert [WriteTemp(stamp)] + [RenameTemp(size, events)] == [WriteTemp(stamp), RenameTemp(size, events)];
    t := Apply(c, Apply(c, s, WriteTemp(stamp)), RenameTemp(size, events));
  }

  /** On every run: a live batch that a retryable failure leaves in hand goes to the spool next, as soon as the
      mutex is free. */
  lemma LiveFailureIsSpooled(c: Config, steps: seq<Step>, outcome: Outcome, stamp: nat, size: nat, events: nat) returns (t: State, u: State)
    requires Legal(c, Init(), steps) && Enabled(c, Exec(c, Init(), steps), SendLive(outcome)) && Retryable(outcome)
    ensures var s := Exec(c, Init(), steps);
      && t == Apply(c, s, SendLive(outcome)) && Hand(s).Some? && Hand(t) == Hand(s) && t.dropped == s.dropped
      && (MutexFree(t) && t.clock < stamp <= MAX_NANO ==>
            && Leads(c, t, [WriteTemp(stamp), RenameTemp(size, events)], u) && u.mem.files != []
            && var last := u.mem.files[|u.mem.files| - 1]; last.path.stem.id == Hand(s).value && Describes(last, u.disk))
  {
    var s := Exec(c, Init(), steps);
    t := Apply(c, s, SendLive(outcome));
    u := t;
    LiveSendAnswered(c, s, outcome);
    if MutexFree(t) && t.clock < stamp <= MAX_NANO { u := PushedBatchIsQueued(c, t, Hand(s).value, stamp, size, events); }
  }

  // ---------------------------------------------------------------- why a batch was dropped

  /** The steps that may record a reason. */
  predicate Explains(s: State, step: Step, b: nat, reason: Reason) {
    match reason
    case Rejected =>
      || (step == SendLive(Permanent) && Hand(s) == Some(b))
      || (step.Unlink? && s.drain == Committing(false) && s.mem.files != [] && s.mem.files[0].path.stem.id == b)
    case PushFailed => step.PushError? && Hand(s) == Some(b)
    case Pruned => step.TrimOne? && b in QueuedIds(s)
    case Corrupt =>
      || (step.ReadCorrupt? && s.mem.files != [] && s.mem.files[0].path.stem.id == b)
      || (step.DiscardCorrupt? && step.stem.id == b)
    case LostInHand => step.Crash? && Hand(s) == Some(b)
  }

  /** A recorded reason is true: it was recorded by a step that explains it. */
  lemma DroppedForAReason(c: Config, s: State, step: Step, b: nat)
    requires Enabled(c, s, step)
    requires b in Apply(c, s, step).dropped && (b !in s.dropped || s.dropped[b] != Apply(c, s, step).dropped[b])
    ensures Explains(s, step, b, Apply(c, s, step).dropped[b])
  {
    if step.TrimOne? { assert s.mem.files[Victim(s.mem)].path.stem.id in QueuedIds(s); }
  }

  // ---------------------------------------------------------------- nothing is excluded

  /** The environment may do its worst: any answer, any failure, a crash at any moment. */
  ghost predicate Unrestricted(c: Config, s: State, outcome: Outcome) {
    && Enabled(c, s, Crash)
    && (s.batch.Gathering? ==> Enabled(c, s, Form))
    && (s.batch.Direct? ==> Enabled(c, s, SendLive(outcome)))
    && (s.batch.Pushing? || s.batch.TempWritten? ==> Enabled(c, s, PushError))
    && (s.drain.Marked? ==> Enabled(c, s, ReadSegment) && Enabled(c, s, ReadCorrupt(false)))
    && (s.drain.Sending? ==> Enabled(c, s, SendLease(outcome)))
    && (s.drain.Committing? && MutexFree(s) ==> Enabled(c, s, Unlink(false)))
    && (s.drain.Reverting? && MutexFree(s) ==> Enabled(c, s, Unmark(false)))
  }

  lemma BatchUnrestricted(c: Config, s: State, outcome: Outcome)
    requires s.up
    ensures Enabled(c, s, Crash) && (s.batch.Gathering? ==> Enabled(c, s, Form)) && (s.batch.Direct? ==> Enabled(c, s, SendLive(outcome)))
    ensures s.batch.Pushing? || s.batch.TempWritten? ==> Enabled(c, s, PushError)
  {
  }

  lemma DrainUnrestricted(c: Config, s: State, outcome: Outcome)
    requires AtHead(s) && s.up
    ensures s.drain.Marked? ==> Enabled(c, s, ReadSegment) && Enabled(c, s, ReadCorrupt(false))
    ensures s.drain.Sending? ==> Enabled(c, s, SendLease(outcome))
    ensures s.drain.Committing? && MutexFree(s) ==> Enabled(c, s, Unlink(false))
    ensures s.drain.Reverting? && MutexFree(s) ==> Enabled(c, s, Unmark(false))
  {
  }

  /** Nothing of that is excluded in any reachable state. */
  lemma AnythingCanHappen(c: Config, steps: seq<Step>, outcome: Outcome)
    requires Legal(c, Init(), steps) && Exec(c, Init(), steps).up
    ensures Unrestricted(c, Exec(c, Init(), steps), outcome)
  {
    RunKeepsHead(c, Init(), steps);
    BatchUnrestricted(c, Exec(c, Init(), steps), outcome);
    DrainUnrestricted(c, Exec(c, Init(), steps), outcome);
  }
}
