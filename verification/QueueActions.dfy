/**
  What the queue accepts, told by the actions of the run alone: who holds a job, how long, when a
  job is claimed again and when a reclaim succeeds.
 */
module QueueActions {
  import opened Wrappers
  import opened IndexingQueue
  import opened QueueInvariant
  import opened QueueRuns
  import opened QueueHistory

  /** The action took effect at its place in the run. */
  ghost predicate Took(s: State, run: seq<Action>, m: nat)
    requires m < |run|
  {
    Accepts(At(s, run, m), run[m])
  }

  /** The holder gives the job up, or the reclaim procedure takes it away. */
  ghost predicate Ends(a: Action, q: JobSeq) {
    ((a.Complete? || a.Fail? || a.RetryLater?) && a.tok.job == q) || (a.Reclaim? && a.c.job == q)
  }

  ghost predicate NotEnded(s: State, run: seq<Action>, i: nat, k: nat, q: JobSeq)
    requires k <= |run|
  {
    forall m: nat | i <= m < k :: !(Ends(run[m], q) && Took(s, run, m))
  }

  /** The number that a claim of this job would hand out. */
  ghost function NextEpoch(s: State, q: JobSeq): nat {
    if q in s.jobs && s.jobs[q].doc in s.docs then s.docs[s.jobs[q].doc].epoch + 1 else 0
  }

  /** The token comes from the claim at i, and nothing ended that holding before k. */
  ghost predicate HeldSince(s: State, run: seq<Action>, i: nat, k: nat, tok: Token)
    requires k <= |run|
  {
    && i < k
    && run[i] == Claim(tok.job, tok.worker)
    && Took(s, run, i)
    && NextEpoch(At(s, run, i), tok.job) == tok.epoch
    && NotEnded(s, run, i + 1, k, tok.job)
  }

  lemma JobsHaveDocuments(s: State)
    requires Inv(s)
    ensures forall q | q in s.jobs :: s.jobs[q].doc in s.docs
  {
  }

  // ----- one step -------------------------------------------------------------------------

  lemma ClaimHands(s: State, q: JobSeq, w: Worker, tok: Token)
    requires Accepts(s, Claim(q, w))
    ensures tok.job == q ==>
      (Owned(Apply(s, Claim(q, w)), tok) <==> tok.worker == w && tok.epoch == NextEpoch(s, q))
    ensures tok.job == q ==> !Owned(s, tok)
    ensures tok.job != q && tok.job in s.jobs && s.jobs[tok.job].doc != s.jobs[q].doc ==>
      (Owned(Apply(s, Claim(q, w)), tok) <==> Owned(s, tok))
  {
  }

  lemma SiblingNotHeld(s: State, q: JobSeq, tok: Token)
    requires SerialOrder(s) && RowsShaped(s) && Eligible(s, q)
    requires tok.job in s.jobs && s.jobs[tok.job].doc == s.jobs[q].doc
    ensures !Owned(s, tok)
  {
    ClaimIsAlone(s, q);
  }

  lemma SiblingStays(s: State, q: JobSeq, w: Worker, p: JobSeq)
    requires Accepts(s, Claim(q, w)) && p != q
    ensures p in Apply(s, Claim(q, w)).jobs <==> p in s.jobs
    ensures p in s.jobs ==> Apply(s, Claim(q, w)).jobs[p] == s.jobs[p]
  {
  }

  lemma OtherActions(s: State, a: Action, tok: Token)
    requires Accepts(s, a) && !a.Claim? && !a.Complete?
    requires forall q | q in s.jobs :: s.jobs[q].doc in s.docs
    ensures Owned(Apply(s, a), tok) <==> Owned(s, tok) && !Ends(a, tok.job)
  {
  }

  lemma CompletionEnds(s: State, done: Token, skip: bool, tok: Token)
    requires Accepts(s, Complete(done, skip))
    ensures Owned(Apply(s, Complete(done, skip)), tok) <==> Owned(s, tok) && done.job != tok.job
  {
    assert Apply(s, Complete(done, skip)) == CompleteJob(s, done.job, skip);
  }

  /** A token becomes valid only by its own claim and stays so until an action ends the holding. */
  lemma OwnedStep(s: State, a: Action, tok: Token)
    requires Inv(s)
    ensures Owned(Apply(s, a), tok) <==>
      || (Accepts(s, a) && a == Claim(tok.job, tok.worker) && NextEpoch(s, tok.job) == tok.epoch)
      || (Owned(s, tok) && !(Accepts(s, a) && Ends(a, tok.job)))
  {
    hide Apply, Accepts, Owned, Inv, SerialOrder, RowsShaped, NextEpoch, Eligible;
    QueueParts(s);
    JobsHaveDocuments(s);
    if !Accepts(s, a) {
      Refused(s, a);
    } else if a.Claim? {
      ClaimedEligible(s, a.q, a.worker);
      ClaimStep(s, a, tok);
    } else if a.Complete? {
      CompletionEnds(s, a.tok, a.skip, tok);
    } else {
      OtherActions(s, a, tok);
    }
  }

  lemma ClaimStep(s: State, a: Action, tok: Token)
    requires SerialOrder(s) && RowsShaped(s)
    requires a.Claim? && Accepts(s, a) && Eligible(s, a.q)
    ensures Owned(Apply(s, a), tok) <==>
      (a == Claim(tok.job, tok.worker) && NextEpoch(s, tok.job) == tok.epoch) || Owned(s, tok)
  {
    hide Apply, Accepts, SerialOrder, RowsShaped, Eligible;
    ClaimHands(s, a.q, a.worker, tok);
    if tok.job != a.q {
      SiblingStays(s, a.q, a.worker, tok.job);
      if tok.job in s.jobs {
        RowOfEligible(s, a.q);
        if s.jobs[tok.job].doc == s.jobs[a.q].doc {
          SiblingNotHeld(s, a.q, tok);
          SiblingRunsNot(s, a.q, tok.job);
        }
      }
    }
  }

  lemma RowOfEligible(s: State, q: JobSeq)
    requires Eligible(s, q)
    ensures q in s.jobs && s.jobs[q].doc in s.docs
  {
  }

  lemma SiblingRunsNot(s: State, q: JobSeq, p: JobSeq)
    requires SerialOrder(s) && RowsShaped(s) && Eligible(s, q)
    requires p in s.jobs && s.jobs[p].doc == s.jobs[q].doc
    ensures !s.jobs[p].status.Processing?
  {
    ClaimIsAlone(s, q);
  }

  // ----- who holds a job ------------------------------------------------------------------

  lemma HeldNext(s: State, run: seq<Action>, i: nat, k: nat, tok: Token)
    requires k < |run|
    ensures HeldSince(s, run, i, k + 1, tok) <==>
      || (i == k && run[k] == Claim(tok.job, tok.worker) && Took(s, run, k) && NextEpoch(At(s, run, k), tok.job) == tok.epoch)
      || (HeldSince(s, run, i, k, tok) && !(Took(s, run, k) && Ends(run[k], tok.job)))
  {
  }

  /** Some claim of the run handed the token out and nothing ended the holding since. */
  ghost predicate Holder(s: State, run: seq<Action>, k: nat, tok: Token)
    requires k <= |run|
  {
    exists i: nat :: HeldSince(s, run, i, k, tok)
  }

  /** A token is valid exactly for the holder. */
  lemma {:induction false} OwnedIffHolder(maxAttempts: nat, now: Time, boot: Boot, run: seq<Action>, k: nat, tok: Token)
    requires k <= |run|
    ensures Owned(At(Initial(maxAttempts, now, boot), run, k), tok) <==>
      Holder(Initial(maxAttempts, now, boot), run, k, tok)
    decreases k
  {
    hide At, Apply, Owned, Inv, Holder;
    var s := Initial(maxAttempts, now, boot);
    StartInv(maxAttempts, now, boot);
    if k == 0 {
      AtStart(s, run);
      NobodyHolds(maxAttempts, now, boot, run, tok);
    } else {
      OwnedIffHolder(maxAttempts, now, boot, run, k - 1, tok);
      InvAt(s, run, k - 1);
      AtNext(s, run, k - 1);
      OwnedStep(At(s, run, k - 1), run[k - 1], tok);
      HolderNext(s, run, k - 1, tok);
      hide Initial, NextEpoch, Accepts;
    }
  }

  lemma AtStart(s: State, run: seq<Action>)
    ensures At(s, run, 0) == s
  {
    assert run[..0] == [];
  }

  lemma NobodyHolds(maxAttempts: nat, now: Time, boot: Boot, run: seq<Action>, tok: Token)
    ensures !Owned(Initial(maxAttempts, now, boot), tok) && !Holder(Initial(maxAttempts, now, boot), run, 0, tok)
  {
  }

  lemma StartInv(maxAttempts: nat, now: Time, boot: Boot)
    ensures Inv(Initial(maxAttempts, now, boot))
  {
    InvInEveryState(maxAttempts, now, boot, []);
  }

  lemma HolderNext(s: State, run: seq<Action>, k: nat, tok: Token)
    requires k < |run|
    ensures Holder(s, run, k + 1, tok) <==>
      || (run[k] == Claim(tok.job, tok.worker) && Took(s, run, k) && NextEpoch(At(s, run, k), tok.job) == tok.epoch)
      || (Holder(s, run, k, tok) && !(Took(s, run, k) && Ends(run[k], tok.job)))
  {
    hide HeldSince, Took, NextEpoch;
    HeldNext(s, run, k, k, tok);
    if Holder(s, run, k + 1, tok) {
      var i: nat :| HeldSince(s, run, i, k + 1, tok);
      HeldNext(s, run, i, k, tok);
    }
    if Holder(s, run, k, tok) {
      var i: nat :| HeldSince(s, run, i, k, tok);
      HeldNext(s, run, i, k, tok);
    }
  }

  /** A heartbeat is accepted exactly from the holder, however late it comes. */
  lemma {:induction false} HeartbeatIff(maxAttempts: nat, now: Time, boot: Boot, run: seq<Action>, k: nat, tok: Token)
    requires k <= |run|
    ensures Accepts(At(Initial(maxAttempts, now, boot), run, k), Heartbeat(tok)) <==>
      Holder(Initial(maxAttempts, now, boot), run, k, tok)
  {
    OwnedIffHolder(maxAttempts, now, boot, run, k, tok);
  }

  // ----- how long -------------------------------------------------------------------------

  /** A minute is granted by the claim at i and by each accepted heartbeat of the holding. */
  ghost predicate Renewal(s: State, run: seq<Action>, i: nat, m: nat, k: nat, tok: Token)
    requires k <= |run|
  {
    i <= m < k && (m == i || (run[m] == Heartbeat(tok) && Took(s, run, m)))
  }

  ghost function LeaseOf(s: State, q: JobSeq): Time {
    if q in s.jobs && s.jobs[q].leaseUntil.Some? then s.jobs[q].leaseUntil.value else 0
  }

  lemma ClaimLeases(s: State, q: JobSeq, w: Worker)
    requires Accepts(s, Claim(q, w))
    ensures LeaseOf(Apply(s, Claim(q, w)), q) == s.now + 60
  {
  }

  lemma LeaseStep(s: State, a: Action, tok: Token)
    requires Owned(s, tok) && !(Accepts(s, a) && Ends(a, tok.job))
    ensures LeaseOf(Apply(s, a), tok.job) ==
      if a == Heartbeat(tok) && Accepts(s, a) then s.now + 60 else LeaseOf(s, tok.job)
  {
    if a.Complete? && Accepts(s, a) {
      assert Apply(s, a) == CompleteJob(s, a.tok.job, a.skip);
    }
  }

  /** The lease of a held job runs out a minute after its latest renewal. */
  lemma {:induction false} LeaseIsLatestRenewal(maxAttempts: nat, now: Time, boot: Boot, run: seq<Action>, i: nat, k: nat, tok: Token)
    requires k <= |run| && HeldSince(Initial(maxAttempts, now, boot), run, i, k, tok)
    ensures var s := Initial(maxAttempts, now, boot); var lease := LeaseOf(At(s, run, k), tok.job);
      && (exists m: nat :: Renewal(s, run, i, m, k, tok) && lease == At(s, run, m).now + 60)
      && (forall m: nat | Renewal(s, run, i, m, k, tok) :: At(s, run, m).now + 60 <= lease)
    decreases k
  {
    hide At, Apply, LeaseOf, Owned, Inv, Accepts;
    var s := Initial(maxAttempts, now, boot);
    StartInv(maxAttempts, now, boot);
    hide Initial;
    AtNext(s, run, k - 1);
    if k == i + 1 {
      ClaimLeases(At(s, run, i), tok.job, tok.worker);
      assert Renewal(s, run, i, i, k, tok);
    } else {
      HeldNext(s, run, i, k - 1, tok);
      assert Holder(s, run, k - 1, tok);
      LeaseIsLatestRenewal(maxAttempts, now, boot, run, i, k - 1, tok);
      OwnedIffHolder(maxAttempts, now, boot, run, k - 1, tok);
      LeaseStep(At(s, run, k - 1), run[k - 1], tok);
      RenewalsNext(s, run, i, k - 1, tok);
      forall m: nat | m < k
        ensures At(s, run, m).now <= At(s, run, k - 1).now
      {
        ClockRuns(s, run, m, k - 1);
      }
      hide Renewal, HeldSince;
    }
  }

  lemma RenewalsNext(s: State, run: seq<Action>, i: nat, k: nat, tok: Token)
    requires i < k < |run|
    ensures forall m: nat :: Renewal(s, run, i, m, k + 1, tok) <==>
      Renewal(s, run, i, m, k, tok) || (m == k && run[k] == Heartbeat(tok) && Took(s, run, k))
  {
    hide Took;
    forall m: nat
      ensures Renewal(s, run, i, m, k + 1, tok) <==>
        Renewal(s, run, i, m, k, tok) || (m == k && run[k] == Heartbeat(tok) && Took(s, run, k))
    {
    }
  }

  /** The holder renewed less than a minute ago. */
  ghost predicate LiveHolder(s: State, run: seq<Action>, k: nat, tok: Token)
    requires k <= |run|
  {
    exists i: nat, m: nat ::
      && HeldSince(s, run, i, k, tok) && Renewal(s, run, i, m, k, tok)
      && At(s, run, k).now < At(s, run, m).now + 60
  }

  /** A result write is accepted exactly from a holder that claimed or renewed within the last minute. */
  lemma {:induction false} ResultWriteIff(maxAttempts: nat, now: Time, boot: Boot, run: seq<Action>, k: nat, tok: Token, phase: Phase)
    requires k <= |run|
    ensures var s := Initial(maxAttempts, now, boot);
      && (Accepts(At(s, run, k), Fail(tok)) <==> LiveHolder(s, run, k, tok))
      && (Accepts(At(s, run, k), EnterPhase(tok, phase)) <==> LiveHolder(s, run, k, tok))
  {
    var s := Initial(maxAttempts, now, boot);
    OwnedIffHolder(maxAttempts, now, boot, run, k, tok);
    var e := At(s, run, k);
    assert Live(e, tok) <==> Owned(e, tok) && LeaseOf(e, tok.job) > e.now;
    hide LeaseOf, Owned, At, Initial;
    if Holder(s, run, k, tok) && LeaseOf(e, tok.job) > e.now {
      var i: nat :| HeldSince(s, run, i, k, tok);
      LeaseIsLatestRenewal(maxAttempts, now, boot, run, i, k, tok);
      var m: nat :| Renewal(s, run, i, m, k, tok) && LeaseOf(e, tok.job) == At(s, run, m).now + 60;
    }
    if LiveHolder(s, run, k, tok) {
      var i: nat, m: nat :| HeldSince(s, run, i, k, tok) && Renewal(s, run, i, m, k, tok) && e.now < At(s, run, m).now + 60;
      LeaseIsLatestRenewal(maxAttempts, now, boot, run, i, k, tok);
    }
  }

  lemma LiveTries(s: State, tok: Token, at: Time)
    ensures Accepts(s, RetryLater(tok, at)) <==> Live(s, tok) && s.jobs[tok.job].attempts < s.maxAttempts
    ensures Accepts(s, Fail(tok)) <==> Live(s, tok)
  {
  }

  /** Another try is scheduled exactly by such a holder while the job was claimed fewer times than the limit. */
  lemma {:induction false} RetryLaterIff(maxAttempts: nat, now: Time, boot: Boot, run: seq<Action>, k: nat, tok: Token, at: Time)
    requires k <= |run|
    ensures var s := Initial(maxAttempts, now, boot);
      Accepts(At(s, run, k), RetryLater(tok, at)) <==>
        LiveHolder(s, run, k, tok) && Claims(s, run[..k], tok.job) < maxAttempts
  {
    var s := Initial(maxAttempts, now, boot);
    ResultWriteIff(maxAttempts, now, boot, run, k, tok, Downloading);
    AttemptsCountClaims(maxAttempts, now, boot, run[..k], tok.job);
    StartInv(maxAttempts, now, boot);
    LimitFixed(s, run[..k]);
    LiveTries(At(s, run, k), tok, at);
    hide Accepts, LiveHolder, Claims, Exec;
  }

  // ----- the time of a retry --------------------------------------------------------------

  ghost predicate Waits(s: State, q: JobSeq, at: Time) {
    q in s.jobs && s.jobs[q].status.RetryWait? && s.jobs[q].nextRetryAt == Some(at)
  }

  lemma RetryStored(s: State, tok: Token, at: Time)
    requires Accepts(s, RetryLater(tok, at))
    ensures Waits(Apply(s, RetryLater(tok, at)), tok.job, at)
  {
  }

  lemma WaitStep(s: State, a: Action, q: JobSeq, at: Time)
    requires Waits(s, q, at)
    ensures Waits(Apply(s, a), q, at) || s.now >= at
    ensures a.Claim? && a.q == q && Accepts(s, a) ==> s.now >= at
  {
    hide Apply;
    if Accepts(s, a) {
      StepShape(s, a);
    } else {
      Refused(s, a);
    }
  }

  lemma {:induction false} WaitsUntil(s: State, run: seq<Action>, i: nat, k: nat, tok: Token, at: Time)
    requires Inv(s) && i < k <= |run|
    requires run[i] == RetryLater(tok, at) && Took(s, run, i)
    ensures Waits(At(s, run, k), tok.job, at) || At(s, run, k).now >= at
    decreases k
  {
    hide At, Accepts, Inv, Apply, Waits;
    AtNext(s, run, k - 1);
    if k == i + 1 {
      RetryStored(At(s, run, i), tok, at);
    } else {
      WaitsUntil(s, run, i, k - 1, tok, at);
      if Waits(At(s, run, k - 1), tok.job, at) {
        WaitStep(At(s, run, k - 1), run[k - 1], tok.job, at);
      }
      ClockRuns(s, run, k - 1, k);
    }
  }

  /** A job put off to a time is not claimed before it. */
  lemma {:induction false} RetryNotBeforeTime(s: State, run: seq<Action>, i: nat, k: nat, tok: Token, at: Time, w: Worker)
    requires Inv(s) && i < k < |run|
    requires run[i] == RetryLater(tok, at) && Took(s, run, i)
    requires run[k] == Claim(tok.job, w) && Took(s, run, k)
    ensures At(s, run, k).now >= at
  {
    WaitsUntil(s, run, i, k, tok, at);
    hide At, Inv, Waits;
    if Waits(At(s, run, k), tok.job, at) {
      WaitStep(At(s, run, k), run[k], tok.job, at);
    }
  }

  // ----- the document counter -------------------------------------------------------------

  /** Accepted claims of the document's jobs. */
  ghost function ClaimsOf(s: State, run: seq<Action>, d: DocId): nat {
    if run == [] then 0 else
      var pre, a := run[..|run| - 1], run[|run| - 1];
      ClaimsOf(s, pre, d)
      + if a.Claim? && Accepts(Exec(s, pre), a) && a.q in Exec(s, pre).jobs && Exec(s, pre).jobs[a.q].doc == d then 1 else 0
  }

  lemma EpochStep(s: State, a: Action, d: DocId)
    ensures var claimed := a.Claim? && Accepts(s, a) && a.q in s.jobs && s.jobs[a.q].doc == d;
      d in s.docs ==> d in Apply(s, a).docs && Apply(s, a).docs[d].epoch == s.docs[d].epoch + if claimed then 1 else 0
    ensures d !in s.docs && d in Apply(s, a).docs ==> Apply(s, a).docs[d].epoch == 0 && !a.Claim?
  {
    if a.Complete? && Accepts(s, a) {
      assert Apply(s, a) == CompleteJob(s, a.tok.job, a.skip);
    }
  }

  /** execution_epoch counts the claims of the document, so each claim has a number of its own. */
  lemma {:induction false} EpochCountsClaims(maxAttempts: nat, now: Time, boot: Boot, run: seq<Action>, d: DocId)
    ensures var s := Initial(maxAttempts, now, boot); var e := Exec(s, run);
      ClaimsOf(s, run, d) == if d in e.docs then e.docs[d].epoch else 0
  {
    var s := Initial(maxAttempts, now, boot);
    if run != [] {
      var pre := run[..|run| - 1];
      EpochCountsClaims(maxAttempts, now, boot, pre, d);
      InvInEveryState(maxAttempts, now, boot, pre);
      JobsHaveDocuments(Exec(s, pre));
      hide Apply, Accepts, Inv;
      EpochStep(Exec(s, pre), run[|run| - 1], d);
    }
  }

  // ----- when a reclaim succeeds ----------------------------------------------------------

  /** A heartbeat or the end of the holding. */
  ghost predicate Disturbs(a: Action, q: JobSeq) {
    Ends(a, q) || (a.Heartbeat? && a.tok.job == q)
  }

  ghost predicate Undisturbed(s: State, run: seq<Action>, i: nat, k: nat, q: JobSeq)
    requires k <= |run|
  {
    forall m: nat | i <= m < k :: !(Disturbs(run[m], q) && Took(s, run, m))
  }

  /** The row and the counter are as the candidate query read them. */
  ghost predicate AsRead(s: State, c: Candidate) {
    && c.job in s.jobs && c.doc in s.docs && s.jobs[c.job].status.Processing?
    && s.jobs[c.job].doc == c.doc && s.jobs[c.job].worker == c.worker && s.jobs[c.job].epoch == c.epoch
    && s.jobs[c.job].leaseUntil == c.leaseUntil && s.docs[c.doc].epoch == c.docEpoch
  }

  lemma AsReadStep(s: State, a: Action, c: Candidate)
    requires SerialOrder(s) && RowsShaped(s) && AsRead(s, c)
    requires !(Disturbs(a, c.job) && Accepts(s, a))
    ensures AsRead(Apply(s, a), c)
  {
    if a.Claim? && Accepts(s, a) {
      ClaimIsAlone(s, a.q);
    }
    if a.Complete? && Accepts(s, a) {
      assert Apply(s, a) == CompleteJob(s, a.tok.job, a.skip);
    }
  }

  lemma {:induction false} StaysAsRead(s: State, run: seq<Action>, i: nat, k: nat, q: JobSeq)
    requires Inv(s) && i <= k <= |run| && Expired(At(s, run, i), q)
    requires Undisturbed(s, run, i, k, q)
    ensures AsRead(At(s, run, k), ReadCandidate(At(s, run, i), q))
    decreases k
  {
    hide At, Apply, Inv, SerialOrder, RowsShaped, Accepts;
    if i < k {
      StaysAsRead(s, run, i, k - 1, q);
      InvAt(s, run, k - 1);
      QueueParts(At(s, run, k - 1));
      AtNext(s, run, k - 1);
      hide AsRead, Expired;
      AsReadStep(At(s, run, k - 1), run[k - 1], ReadCandidate(At(s, run, i), q));
    }
  }

  lemma DisturbedChanges(s: State, a: Action, q: JobSeq, c: Candidate)
    requires Disturbs(a, q) && Accepts(s, a) && c.job == q
    requires q in s.jobs && c.leaseUntil.Some? && c.leaseUntil.value <= s.now
    ensures q in Apply(s, a).jobs
    ensures !Apply(s, a).jobs[q].status.Processing? || Apply(s, a).jobs[q].leaseUntil != c.leaseUntil
  {
    if a.Complete? {
      assert Apply(s, a) == CompleteJob(s, a.tok.job, a.skip);
    }
  }

  lemma ReclaimNeeds(s: State, c: Candidate)
    ensures Accepts(s, Reclaim(c)) <==>
      MayRecover(s) && AsRead(s, c) && c.leaseUntil.Some? && c.leaseUntil.value <= s.now
  {
  }

  /**
    A candidate read at i is reclaimed at k exactly when recovery is allowed and no heartbeat of
    the holder was accepted and nothing ended the holding in between.
   */
  lemma {:induction false} ReclaimIff(s: State, run: seq<Action>, i: nat, k: nat, q: JobSeq)
    requires Inv(s) && i <= k <= |run| && Expired(At(s, run, i), q)
    ensures Accepts(At(s, run, k), Reclaim(ReadCandidate(At(s, run, i), q))) <==>
      MayRecover(At(s, run, k)) && Undisturbed(s, run, i, k, q)
  {
    var c := ReadCandidate(At(s, run, i), q);
    ReclaimNeeds(At(s, run, k), c);
    ClockRuns(s, run, i, k);
    assert c.leaseUntil.Some? && c.leaseUntil.value <= At(s, run, i).now;
    hide At, Inv, Apply, AsRead, MayRecover;
    if Undisturbed(s, run, i, k, q) {
      StaysAsRead(s, run, i, k, q);
    } else if Accepts(At(s, run, k), Reclaim(c)) {
      var m: nat :| i <= m < k && Disturbs(run[m], q) && Took(s, run, m);
      ReclaimSeesNoGap(s, run, i, m, k, q);
      ReclaimSeesNoGap(s, run, i, m + 1, k, q);
      AtNext(s, run, m);
      ClockRuns(s, run, i, m);
      DisturbedChanges(At(s, run, m), run[m], q, c);
      assert false;
    }
  }

  // ----- when recovery is allowed ---------------------------------------------------------

  ghost predicate NoReboot(s: State, run: seq<Action>, i: nat, k: nat)
    requires k <= |run|
  {
    forall m: nat | i <= m < k :: !(run[m].Reboot? && Took(s, run, m))
  }

  /** The start was recorded by the call at m, and the server has not started anew since. */
  ghost predicate MarkedSince(s: State, run: seq<Action>, m: nat, k: nat)
    requires k <= |run|
  {
    m < k && run[m].MarkPrimary? && NoReboot(s, run, m, k)
  }

  ghost predicate Marked(s: State) { s.marker.Some? && s.marker.value.boot == s.boot }

  lemma MarkStep(s: State, a: Action)
    requires MarkerFresh(s)
    ensures var s' := Apply(s, a);
      if a.MarkPrimary? then Marked(s') && (if Marked(s) then s'.marker == s.marker else s'.marker.value.writableSince == s.now)
      else if a.Reboot? && Accepts(s, a) then !Marked(s')
      else Marked(s') == Marked(s) && s'.marker == s.marker
  {
  }

  lemma {:induction false} MarkerIsFirstCall(maxAttempts: nat, now: Time, boot: Boot, run: seq<Action>, k: nat)
    requires k <= |run|
    ensures var s := Initial(maxAttempts, now, boot); var e := At(s, run, k);
      && (Marked(e) ==> exists m: nat :: MarkedSince(s, run, m, k) && At(s, run, m).now == e.marker.value.writableSince)
      && (forall m: nat | MarkedSince(s, run, m, k) :: Marked(e) && e.marker.value.writableSince <= At(s, run, m).now)
    decreases k
  {
    hide At, Apply, Inv, MarkerFresh;
    var s := Initial(maxAttempts, now, boot);
    if k == 0 {
      AtStart(s, run);
    } else {
      StartInv(maxAttempts, now, boot);
      hide Initial, Accepts;
      MarkerIsFirstCall(maxAttempts, now, boot, run, k - 1);
      InvAt(s, run, k - 1);
      FreshOf(At(s, run, k - 1));
      AtNext(s, run, k - 1);
      MarkStep(At(s, run, k - 1), run[k - 1]);
      MarkedNext(s, run, k);
      hide MarkedSince;
      if run[k - 1].MarkPrimary? && !Marked(At(s, run, k - 1)) {
        assert MarkedSince(s, run, k - 1, k);
      } else if Marked(At(s, run, k)) {
        var m: nat :| MarkedSince(s, run, m, k - 1)
          && At(s, run, m).now == At(s, run, k - 1).marker.value.writableSince;
        assert MarkedSince(s, run, m, k);
      }
    }
  }

  lemma FreshOf(s: State)
    requires Inv(s)
    ensures MarkerFresh(s) && (s.marker.Some? ==> s.marker.value.writableSince <= s.now)
  {
  }

  lemma MarkedNext(s: State, run: seq<Action>, k: nat)
    requires 0 < k <= |run|
    ensures forall m: nat :: MarkedSince(s, run, m, k) <==>
      || (m == k - 1 && run[k - 1].MarkPrimary?)
      || (MarkedSince(s, run, m, k - 1) && !(run[k - 1].Reboot? && Took(s, run, k - 1)))
  {
  }

  /** Recovery is allowed exactly 30 seconds after some call that recorded the present start. */
  lemma {:induction false} RecoveryIff(maxAttempts: nat, now: Time, boot: Boot, run: seq<Action>, k: nat)
    requires k <= |run|
    ensures var s := Initial(maxAttempts, now, boot);
      MayRecover(At(s, run, k)) <==>
        exists m: nat :: MarkedSince(s, run, m, k) && At(s, run, k).now >= At(s, run, m).now + 30
  {
    var s := Initial(maxAttempts, now, boot);
    MarkerIsFirstCall(maxAttempts, now, boot, run, k);
    hide At, Initial, MarkedSince;
    var e := At(s, run, k);
    if MayRecover(e) {
      var m: nat :| MarkedSince(s, run, m, k) && At(s, run, m).now == e.marker.value.writableSince;
      assert e.now >= At(s, run, m).now + 30;
    }
  }

  // ----- documents ------------------------------------------------------------------------

  lemma DeletedStep(s: State, a: Action, d: DocId)
    requires d in s.docs && s.docs[d].deletedAt.Some?
    ensures d in Apply(s, a).docs && Apply(s, a).docs[d] == s.docs[d].(epoch := Apply(s, a).docs[d].epoch)
  {
    if a.Complete? && Accepts(s, a) {
      assert Apply(s, a) == CompleteJob(s, a.tok.job, a.skip);
    }
  }

  /** Of a deleted document nothing but the claim counter changes: no upload, no promotion, no choice. */
  lemma {:induction false} DeletedIsFrozen(s: State, run: seq<Action>, i: nat, k: nat, d: DocId)
    requires i <= k <= |run|
    requires d in At(s, run, i).docs && At(s, run, i).docs[d].deletedAt.Some?
    ensures d in At(s, run, k).docs
    ensures At(s, run, k).docs[d] == At(s, run, i).docs[d].(epoch := At(s, run, k).docs[d].epoch)
    decreases k
  {
    hide At, Apply;
    if i < k {
      DeletedIsFrozen(s, run, i, k - 1, d);
      AtNext(s, run, k - 1);
      DeletedStep(At(s, run, k - 1), run[k - 1], d);
    }
  }

  lemma ChoiceTaken(s: State, d: DocId, v: VersionId)
    requires Accepts(s, SetSearchable(d, v))
    ensures v in s.versions && SearchNo(Apply(s, SetSearchable(d, v)), d) == s.versions[v].no
  {
  }

  /** A version chosen by hand is searched until a newer one is indexed or another is chosen. */
  lemma {:induction false} ChoiceStands(s: State, run: seq<Action>, i: nat, k: nat, d: DocId, v: VersionId)
    requires Inv(s) && i < k <= |run|
    requires run[i] == SetSearchable(d, v) && Took(s, run, i)
    requires forall m: nat | i < m < k :: !(run[m].SetSearchable? && run[m].d == d)
    ensures v in At(s, run, i).versions
    ensures SearchNo(At(s, run, k), d) >= At(s, run, i).versions[v].no
    ensures k == i + 1 ==> SearchNo(At(s, run, k), d) == At(s, run, i).versions[v].no
    decreases k
  {
    hide At, Apply, Accepts, Inv, SearchNo;
    AtNext(s, run, k - 1);
    if k == i + 1 {
      ChoiceTaken(At(s, run, i), d, v);
    } else {
      ChoiceStands(s, run, i, k - 1, d, v);
      InvAt(s, run, k - 1);
      WorkersNeverRollBack(At(s, run, k - 1), run[k - 1], d);
    }
  }
}
