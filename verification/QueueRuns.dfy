/** What the queue promises over whole runs: fencing, serial order, history, search and duplicates. */
module QueueRuns {
  import opened Wrappers
  import opened IndexingQueue
  import opened QueueInvariant

  // ----- how two states of one run are related --------------------------------------------

  /** A row of the job table between an earlier and a later state. */
  ghost predicate RowEvolves(s: State, j: Job, j': Job)
    requires j.doc in s.docs
  {
    && j'.doc == j.doc
    && j'.kind == j.kind
    && (!j.Unfinished() ==> j' == j)
    && j.epoch <= j'.epoch
    && j.attempts <= j'.attempts
    // a new epoch is above everything the document had handed out
    && (j.epoch < j'.epoch ==> s.docs[j.doc].epoch < j'.epoch)
    // the same epoch still running means the same holder all along, with a lease that only grew
    && (j'.status.Processing? && j'.epoch == j.epoch ==>
          && j.status.Processing?
          && j.worker == j'.worker
          && j.leaseUntil.Some? && j'.leaseUntil.Some?
          && j.leaseUntil.value <= j'.leaseUntil.value)
  }

  ghost predicate Evolves(s: State, s': State) {
    && s.now <= s'.now
    && s.bootAt <= s'.bootAt
    && s.maxAttempts == s'.maxAttempts
    && TablesGrow(s, s')
    && s.jobs.Keys <= s'.jobs.Keys
    && forall q | q in s.jobs :: s.jobs[q].doc in s.docs && RowEvolves(s, s.jobs[q], s'.jobs[q])
  }

  lemma MovedRowEvolves(s: State, a: Action)
    requires Accepts(s, a) && MovesJob(a)
    requires RowShape(s, s.jobs[JobOf(a)])
    requires s.jobs[JobOf(a)].doc in s.docs && s.jobs[JobOf(a)].epoch <= s.docs[s.jobs[JobOf(a)].doc].epoch
    ensures RowEvolves(s, s.jobs[JobOf(a)], Apply(s, a).jobs[JobOf(a)])
  {
  }

  lemma RowOf(s: State, q: JobSeq)
    requires RowsShaped(s) && EpochsFenced(s) && q in s.jobs
    ensures RowShape(s, s.jobs[q]) && s.jobs[q].doc in s.docs && s.jobs[q].epoch <= s.docs[s.jobs[q].doc].epoch
  {
  }

  lemma StepEvolves(s: State, a: Action)
    requires RowsShaped(s) && EpochsFenced(s) && MarkerFresh(s)
    ensures Evolves(s, Apply(s, a))
  {
    hide Apply, Accepts, RowEvolves, RowsShaped, EpochsFenced, MarkerFresh, TablesGrow;
    StepTables(s, a);
    ClockAndLimit(s, a);
    if Accepts(s, a) {
      StepShape(s, a);
      if MovesJob(a) {
        RowOf(s, JobOf(a));
        MovedRowEvolves(s, a);
        RowsEvolve(s, Apply(s, a), {JobOf(a)});
      } else {
        RowsEvolve(s, Apply(s, a), {});
      }
    } else {
      Refused(s, a);
      RowsEvolve(s, s, {});
    }
  }

  lemma RowsEvolve(s: State, s': State, moved: set<JobSeq>)
    requires RowsShaped(s) && EpochsFenced(s) && TablesGrow(s, s')
    requires s.now <= s'.now && s.bootAt <= s'.bootAt && s.maxAttempts == s'.maxAttempts
    requires s.jobs.Keys <= s'.jobs.Keys
    requires forall q | q in s.jobs && q !in moved :: s'.jobs[q] == s.jobs[q]
    requires forall q | q in s.jobs && q in moved :: RowEvolves(s, s.jobs[q], s'.jobs[q])
    ensures Evolves(s, s')
  {
  }

  lemma ClockAndLimit(s: State, a: Action)
    requires MarkerFresh(s)
    ensures s.now <= Apply(s, a).now && s.bootAt <= Apply(s, a).bootAt && Apply(s, a).maxAttempts == s.maxAttempts
  {
  }

  lemma EvolvesTransitively(s: State, m: State, e: State)
    requires Evolves(s, m) && Evolves(m, e)
    ensures Evolves(s, e)
  {
  }

  lemma {:induction false} InvAt(s: State, run: seq<Action>, i: nat)
    requires Inv(s) && i <= |run|
    ensures Inv(At(s, run, i))
  {
    hide Inv, Apply;
    if i > 0 {
      InvAt(s, run, i - 1);
      AtNext(s, run, i - 1);
      StepKeepsInv(At(s, run, i - 1), run[i - 1]);
    } else {
      assert run[..0] == [];
    }
  }

  /** Any two states of one run. */
  lemma {:induction false} RunEvolves(s: State, run: seq<Action>, i: nat, k: nat)
    requires Inv(s) && i <= k <= |run|
    ensures Evolves(At(s, run, i), At(s, run, k))
    decreases k
  {
    hide Evolves, Apply, At, SerialOrder, RetriesAfterFailure, DeleteCloses, DeletedQueued, ChunksExact, IndexedByJob,
      NumbersGapless, MarkerFresh, ReferencesHold, RowsShaped, EpochsFenced;
    if i < k {
      RunEvolves(s, run, i, k - 1);
      var m := At(s, run, k - 1);
      InvAt(s, run, k - 1);
      StepEvolves(m, run[k - 1]);
      AtNext(s, run, k - 1);
      EvolvesTransitively(At(s, run, i), m, At(s, run, k));
    } else {
      InvAt(s, run, i);
      var m := At(s, run, i);
      RowsEvolve(m, m, {});
    }
  }

  lemma AtNext(s: State, run: seq<Action>, i: nat)
    requires i < |run|
    ensures At(s, run, i + 1) == Apply(At(s, run, i), run[i])
  {
    assert run[..i + 1][..i] == run[..i];
  }

  // ----- fencing --------------------------------------------------------------------------

  /** A heartbeat or result write carrying the token. */
  ghost predicate WritesWith(a: Action, tok: Token) {
    (a.Heartbeat? || a.EnterPhase? || a.Complete? || a.Fail? || a.RetryLater?) && a.tok == tok
  }

  /** Once lost, a token is never valid again, whoever claims the job later. */
  lemma {:induction false} TokenNeverRevives(s: State, run: seq<Action>, i: nat, j: nat, k: nat, tok: Token)
    requires Inv(s) && i <= j <= k <= |run|
    requires Owned(At(s, run, i), tok) && !Owned(At(s, run, j), tok)
    ensures !Owned(At(s, run, k), tok)
  {
    hide At, Inv, Owned, Evolves;
    RunEvolves(s, run, i, j);
    RunEvolves(s, run, j, k);
    OwnershipIsOneInterval(At(s, run, i), At(s, run, j), At(s, run, k), tok);
  }

  lemma OwnershipIsOneInterval(s: State, m: State, e: State, tok: Token)
    requires Evolves(s, m) && Evolves(m, e)
    ensures Owned(s, tok) && Owned(e, tok) ==> Owned(m, tok)
  {
  }

  /** So every later write with it, heartbeats included, changes nothing. */
  lemma {:induction false} StaleWritesRefused(s: State, run: seq<Action>, i: nat, j: nat, k: nat, a: Action, tok: Token)
    requires Inv(s) && i <= j <= k <= |run|
    requires Owned(At(s, run, i), tok) && !Owned(At(s, run, j), tok)
    requires WritesWith(a, tok)
    ensures !Accepts(At(s, run, k), a) && Apply(At(s, run, k), a) == At(s, run, k)
  {
    hide At, Inv, Owned;
    TokenNeverRevives(s, run, i, j, k, tok);
    UnownedRefused(At(s, run, k), a, tok);
  }

  lemma UnownedRefused(s: State, a: Action, tok: Token)
    requires WritesWith(a, tok) && !Owned(s, tok)
    ensures !Accepts(s, a) && Apply(s, a) == s
  {
  }

  /** No two claims of a document hand out the same epoch; a later one is larger. */
  lemma {:induction false} ClaimEpochsIncrease(s: State, run: seq<Action>, i: nat, k: nat)
    requires Inv(s) && i < k < |run|
    requires run[i].Claim? && Accepts(At(s, run, i), run[i])
    requires run[k].Claim? && Accepts(At(s, run, k), run[k])
    requires At(s, run, i).jobs[run[i].q].doc == At(s, run, k).jobs[run[k].q].doc
    ensures run[i].q in At(s, run, i + 1).jobs && run[k].q in At(s, run, k + 1).jobs
    ensures At(s, run, i + 1).jobs[run[i].q].epoch < At(s, run, k + 1).jobs[run[k].q].epoch
  {
    hide At, Inv;
    AtNext(s, run, i);
    AtNext(s, run, k);
    RunEvolves(s, run, i + 1, k);
    ClaimedEpoch(At(s, run, i), run[i].q, run[i].worker);
    ClaimedEpoch(At(s, run, k), run[k].q, run[k].worker);
  }

  // ----- two-step reclaim -----------------------------------------------------------------

  ghost predicate SameHolder(j: Job, j': Job) {
    j'.status.Processing? && j'.worker == j.worker && j'.epoch == j.epoch && j'.leaseUntil == j.leaseUntil
  }

  /**
    A candidate read at i that is still accepted at k was never touched in between: there is
    no release and re-claim and no renewal that the re-validation could overlook.
   */
  lemma {:induction false} ReclaimSeesNoGap(s: State, run: seq<Action>, i: nat, m: nat, k: nat, q: JobSeq)
    requires Inv(s) && i <= m <= k <= |run|
    requires Expired(At(s, run, i), q)
    requires Accepts(At(s, run, k), Reclaim(ReadCandidate(At(s, run, i), q)))
    ensures q in At(s, run, m).jobs
    ensures SameHolder(At(s, run, i).jobs[q], At(s, run, m).jobs[q])
  {
    hide At, Inv;
    RunEvolves(s, run, i, m);
    RunEvolves(s, run, m, k);
  }

  /** Hence no heartbeat of the holder was accepted between the two steps of the reclaim. */
  lemma {:induction false} ReclaimLosesToHeartbeat(s: State, run: seq<Action>, i: nat, m: nat, k: nat, tok: Token)
    requires Inv(s) && i <= m < k <= |run|
    requires Expired(At(s, run, i), tok.job)
    requires run[m] == Heartbeat(tok) && Accepts(At(s, run, m), run[m])
    ensures !Accepts(At(s, run, k), Reclaim(ReadCandidate(At(s, run, i), tok.job)))
  {
    hide At, Inv;
    if Accepts(At(s, run, k), Reclaim(ReadCandidate(At(s, run, i), tok.job))) {
      ReclaimSeesNoGap(s, run, i, m + 1, k, tok.job);
      RunEvolves(s, run, i, m);
      AtNext(s, run, m);
    }
  }

  /** No job is reclaimed sooner than the grace period after the last start or promotion. */
  lemma {:induction false} ReclaimWaitsAfterReboot(s: State, run: seq<Action>, i: nat, k: nat)
    requires Inv(s) && i < k < |run|
    requires run[i].Reboot? && Accepts(At(s, run, i), run[i])
    requires run[k].Reclaim? && Accepts(At(s, run, k), run[k])
    ensures At(s, run, k).now >= At(s, run, i).now + GRACE
  {
    hide At, Inv;
    AtNext(s, run, i);
    ClockRuns(s, run, i + 1, k);
    InvAt(s, run, k);
    RecoveryWaits(At(s, run, k), run[k].c);
  }

  lemma RecoveryWaits(s: State, c: Candidate)
    requires Inv(s) && Accepts(s, Reclaim(c))
    ensures s.now >= s.bootAt + GRACE
  {
  }

  /** Within one start the grace period never moves: repeated calls leave the marker as it is. */
  lemma {:induction false} GraceStartsOnce(s: State, run: seq<Action>, i: nat, k: nat)
    requires i <= k <= |run|
    requires forall m | i <= m < k :: !run[m].Reboot?
    requires At(s, run, i).marker.Some? && At(s, run, i).marker.value.boot == At(s, run, i).boot
    ensures At(s, run, k).marker == At(s, run, i).marker && At(s, run, k).boot == At(s, run, i).boot
    ensures !Accepts(At(s, run, k), MarkPrimary)
    decreases k
  {
    hide At, Apply;
    if i < k {
      GraceStartsOnce(s, run, i, k - 1);
      AtNext(s, run, k - 1);
      MarkerKept(At(s, run, k - 1), run[k - 1]);
    }
  }

  lemma MarkerKept(s: State, a: Action)
    requires !a.Reboot? && !Accepts(s, MarkPrimary)
    ensures Apply(s, a).marker == s.marker && Apply(s, a).boot == s.boot
  {
  }

  // ----- a live lease protects its holder -------------------------------------------------

  ghost predicate Releases(a: Action, tok: Token) {
    (a.Complete? || a.Fail? || a.RetryLater?) && a.tok == tok
  }

  lemma LiveLeaseKept(s: State, a: Action, tok: Token)
    requires SerialOrder(s) && RowsShaped(s)
    requires Live(s, tok) && !Releases(a, tok)
    ensures Owned(Apply(s, a), tok)
    ensures Apply(s, a).jobs[tok.job].leaseUntil.value >= s.jobs[tok.job].leaseUntil.value
  {
    assert RowShape(s, s.jobs[tok.job]);
    if a.Claim? && Accepts(s, a) {
      ClaimIsAlone(s, a.q);
    }
    if a.Complete? && Accepts(s, a) {
      OtherCompletion(s, a.tok, a.skip, tok);
    }
  }

  lemma OtherCompletion(s: State, done: Token, skip: bool, tok: Token)
    requires Accepts(s, Complete(done, skip)) && Owned(s, tok) && done != tok
    ensures Owned(Apply(s, Complete(done, skip)), tok)
    ensures Apply(s, Complete(done, skip)).jobs[tok.job] == s.jobs[tok.job]
  {
  }

  lemma QueueParts(s: State)
    requires Inv(s)
    ensures SerialOrder(s) && RowsShaped(s)
  {
  }

  /** Until the lease it saw runs out, a holder loses the job only by its own result write. */
  lemma {:induction false} LeaseProtects(s: State, run: seq<Action>, i: nat, k: nat, tok: Token)
    requires Inv(s) && i <= k <= |run|
    requires Owned(At(s, run, i), tok)
    requires At(s, run, k).now < At(s, run, i).jobs[tok.job].leaseUntil.value
    requires forall m | i <= m < k :: !Releases(run[m], tok)
    ensures Live(At(s, run, k), tok)
    ensures At(s, run, k).jobs[tok.job].leaseUntil.value >= At(s, run, i).jobs[tok.job].leaseUntil.value
    decreases k
  {
    hide At, Inv, Apply;
    if i < k {
      AtNext(s, run, k - 1);
      ClockRuns(s, run, k - 1, k);
      LeaseProtects(s, run, i, k - 1, tok);
      InvAt(s, run, k - 1);
      QueueParts(At(s, run, k - 1));
      hide SerialOrder, RowsShaped;
      LiveLeaseKept(At(s, run, k - 1), run[k - 1], tok);
    }
  }

  lemma {:induction false} ClockRuns(s: State, run: seq<Action>, i: nat, k: nat)
    requires Inv(s) && i <= k <= |run|
    ensures At(s, run, i).now <= At(s, run, k).now && At(s, run, i).bootAt <= At(s, run, k).bootAt
  {
    hide At, Inv, RowEvolves, TablesGrow;
    RunEvolves(s, run, i, k);
  }
}
