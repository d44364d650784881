/** What every action of the queue keeps, and therefore what holds in every reachable state. */
module QueueInvariant {
  import opened Wrappers
  import opened IndexingQueue

  // ----- the invariant --------------------------------------------------------------------

  /** Foreign keys; a searchable version is an indexed version of its own document. */
  ghost predicate ReferencesHold(s: State) {
    && (forall v | v in s.versions :: s.versions[v].doc in s.docs)
    && (forall q | q in s.jobs :: s.jobs[q].doc in s.docs)
    && (forall q | q in s.jobs && s.jobs[q].kind.Index? :: VersionOf(s, s.jobs[q].doc, s.jobs[q].kind.version))
    && (forall d | d in s.docs && s.docs[d].searchable.Some? ::
          VersionOf(s, d, s.docs[d].searchable.value) && s.versions[s.docs[d].searchable.value].indexed)
  }

  /** The row checks: who may hold worker, lease, retry time and which outcome; a retry is scheduled only with attempts left. */
  ghost predicate RowShape(s: State, j: Job) {
    && (j.worker.Some? <==> j.status.Processing?)
    && (j.leaseUntil.Some? <==> j.status.Processing?)
    && (j.nextRetryAt.Some? <==> j.status.RetryWait?)
    && (j.leaseUntil.Some? ==> j.leaseUntil.value <= s.now + LEASE)
    && (j.attempts <= s.maxAttempts)
    && (j.attempts == 0 <==> j.epoch == 0)
    && (j.attempts == 0 ==> j.status.Pending?)
    && (match j.status
        case Pending => j.outcome == None
        case Processing => j.outcome == None
        case RetryWait => j.outcome == Some(RetryScheduled) && j.attempts < s.maxAttempts
        case Failed => j.outcome == Some(FailedProcessing)
        case Completed =>
          if j.kind.Delete? then j.outcome == Some(Deleted)
          else j.outcome == Some(Indexed) || j.outcome == Some(SkippedDocumentDeleted))
  }

  ghost predicate RowsShaped(s: State) {
    forall q | q in s.jobs :: RowShape(s, s.jobs[q])
  }

  /** The document counter bounds its jobs' epochs, and the running job carries the current one. */
  ghost predicate EpochsFenced(s: State) {
    forall q | q in s.jobs ::
      && s.jobs[q].doc in s.docs
      && s.jobs[q].epoch <= s.docs[s.jobs[q].doc].epoch
      && (s.jobs[q].status.Processing? ==> s.jobs[q].epoch == s.docs[s.jobs[q].doc].epoch)
  }

  /** Behind an unfinished job of a document every later job of it was never claimed. */
  ghost predicate SerialOrder(s: State) {
    forall p, q | p in s.jobs && q in s.jobs && p < q && s.jobs[p].doc == s.jobs[q].doc && s.jobs[p].Unfinished() ::
      s.jobs[q].Untouched()
  }

  /** A version's earlier INDEX jobs all failed. */
  ghost predicate RetriesAfterFailure(s: State) {
    forall p, q | p in s.jobs && q in s.jobs && p < q && s.jobs[p].kind.Index? && s.jobs[p].kind == s.jobs[q].kind ::
      s.jobs[p].status.Failed?
  }

  /** A DELETE job belongs to a deleted document and is the last job of it. */
  ghost predicate DeleteCloses(s: State) {
    && (forall q | q in s.jobs && s.jobs[q].kind.Delete? ::
          s.jobs[q].doc in s.docs && s.docs[s.jobs[q].doc].deletedAt.Some?)
    && (forall p, q | p in s.jobs && q in s.jobs && s.jobs[q].kind.Delete? && s.jobs[p].doc == s.jobs[q].doc :: p <= q)
  }

  /** Every deleted document has its DELETE job. */
  ghost predicate DeletedQueued(s: State) {
    forall d | d in s.docs && s.docs[d].deletedAt.Some? ::
      exists q | q in s.jobs :: s.jobs[q].doc == d && s.jobs[q].kind.Delete?
  }

  ghost predicate DeletionDone(s: State, d: DocId) {
    exists q | q in s.jobs :: CleansUp(s.jobs[q], d)
  }

  ghost predicate CleansUp(j: Job, d: DocId) {
    j.doc == d && j.kind.Delete? && j.status.Completed?
  }

  /** Chunks exist for exactly the indexed versions of documents that were not cleaned up. */
  ghost predicate ChunksExact(s: State) {
    && s.chunks <= s.versions.Keys
    && forall v | v in s.versions ::
         v in s.chunks <==> s.versions[v].indexed && !DeletionDone(s, s.versions[v].doc)
  }

  /** A version is indexed exactly when one of its jobs completed with INDEXED. */
  ghost predicate IndexedByJob(s: State) {
    forall v | v in s.versions ::
      s.versions[v].indexed <==>
      exists q | q in s.jobs :: Indexes(s.jobs[q], v)
  }

  ghost predicate Indexes(j: Job, v: VersionId) {
    j.IndexOf(v) && j.status.Completed? && j.outcome == Some(Indexed)
  }

  /** A document's version numbers are exactly 1..latestUpload, each once. */
  ghost predicate NumbersGapless(s: State) {
    && (forall v | v in s.versions ::
          s.versions[v].doc in s.docs && 1 <= s.versions[v].no <= s.docs[s.versions[v].doc].latestUpload)
    && (forall v, w | v in s.versions && w in s.versions
                      && s.versions[v].doc == s.versions[w].doc && s.versions[v].no == s.versions[w].no :: v == w)
    && AllNumbered(s)
  }

  ghost predicate AllNumbered(s: State) {
    forall d, n | d in s.docs && 1 <= n <= s.docs[d].latestUpload :: HasNumber(s, d, n)
  }

  ghost predicate HasNumber(s: State, d: DocId, n: nat) {
    exists v | v in s.versions :: s.versions[v].doc == d && s.versions[v].no == n
  }

  /** A recovery marker that names the current start was written during that start. */
  ghost predicate MarkerFresh(s: State) {
    && s.bootAt <= s.now
    && (s.marker.Some? ==>
          var m := s.marker.value;
          && m.writableSince <= s.now
          && (m.boot == s.boot || LaterBoot(m.boot, s.boot))
          && (m.boot == s.boot ==> s.bootAt <= m.writableSince))
  }

  ghost predicate Inv(s: State) {
    && ReferencesHold(s)
    && RowsShaped(s)
    && EpochsFenced(s)
    && SerialOrder(s)
    && RetriesAfterFailure(s)
    && DeleteCloses(s)
    && DeletedQueued(s)
    && ChunksExact(s)
    && IndexedByJob(s)
    && NumbersGapless(s)
    && MarkerFresh(s)
  }

  // ----- the three shapes of a step on the job table --------------------------------------

  ghost predicate JobAdded(s: State, s': State, q: JobSeq, d: DocId, kind: Kind) {
    && FreshSeq(s, d, q)
    && s'.jobs == s.jobs[q := NewJob(d, kind)]
  }

  /** One row changes, and only if it was claimable or running. */
  ghost predicate JobMoved(s: State, s': State, q: JobSeq) {
    && q in s.jobs && q in s'.jobs
    && s'.jobs == s.jobs[q := s'.jobs[q]]
    && s'.jobs[q].doc == s.jobs[q].doc
    && s'.jobs[q].kind == s.jobs[q].kind
    && (Eligible(s, q) || s.jobs[q].status.Processing?)
  }

  ghost predicate Enqueues(a: Action) {
    a.CreateDocument? || a.AddVersion? || a.DeleteDocument? || a.Retry?
  }

  ghost predicate MovesJob(a: Action) {
    a.Claim? || a.Heartbeat? || a.EnterPhase? || a.Complete? || a.Fail? || a.RetryLater? || a.Reclaim?
  }

  ghost function JobOf(a: Action): JobSeq
    requires Enqueues(a) || MovesJob(a)
  {
    match a
    case CreateDocument(_, _, _, q) => q
    case AddVersion(_, _, _, q) => q
    case DeleteDocument(_, q) => q
    case Retry(_, _, q) => q
    case Claim(q, _) => q
    case Heartbeat(tok) => tok.job
    case EnterPhase(tok, _) => tok.job
    case Complete(tok, _) => tok.job
    case Fail(tok) => tok.job
    case RetryLater(tok, _) => tok.job
    case Reclaim(c) => c.job
  }

  ghost function KindOf(a: Action): Kind
    requires Enqueues(a)
  {
    match a
    case CreateDocument(_, v, _, _) => Index(v)
    case AddVersion(_, v, _, _) => Index(v)
    case DeleteDocument(_, _) => Kind.Delete
    case Retry(_, v, _) => Index(v)
  }

  lemma StepShape(s: State, a: Action)
    requires Accepts(s, a)
    ensures Enqueues(a) ==> JobAdded(s, Apply(s, a), JobOf(a), a.d, KindOf(a))
    ensures MovesJob(a) ==> JobMoved(s, Apply(s, a), JobOf(a))
    ensures !Enqueues(a) && !MovesJob(a) ==> Apply(s, a).jobs == s.jobs
  {
    match a
    case CreateDocument(_, _, _, _) =>
    case AddVersion(_, _, _, _) =>
    case DeleteDocument(_, _) =>
    case Retry(_, _, _) =>
    case Complete(tok, skip) =>
      assert Apply(s, a) == CompleteJob(s, tok.job, skip);
    case _ =>
  }

  // ----- preservation ---------------------------------------------------------------------

  /** Versions and documents are never lost, renumbered or undeleted. */
  ghost predicate TablesGrow(s: State, s': State) {
    && s.versions.Keys <= s'.versions.Keys
    && s.docs.Keys <= s'.docs.Keys
    && (forall v | v in s.versions ::
          && s'.versions[v].doc == s.versions[v].doc
          && s'.versions[v].no == s.versions[v].no
          && s'.versions[v].hash == s.versions[v].hash
          && (s.versions[v].indexed ==> s'.versions[v].indexed))
    && (forall d | d in s.docs ::
          && s.docs[d].epoch <= s'.docs[d].epoch
          && (s.docs[d].deletedAt.Some? ==> s'.docs[d].deletedAt == s.docs[d].deletedAt))
  }

  lemma StepTables(s: State, a: Action)
    ensures TablesGrow(s, Apply(s, a))
  {
    if Accepts(s, a) && a.Complete? {
      assert Apply(s, a) == CompleteJob(s, a.tok.job, a.skip);
    }
  }

  lemma Refused(s: State, a: Action)
    requires !Accepts(s, a)
    ensures Apply(s, a) == s
  {
  }

  lemma LimitAndClock(s: State, a: Action)
    ensures Apply(s, a).maxAttempts == s.maxAttempts && s.now <= Apply(s, a).now
  {
  }

  lemma RetryTarget(s: State, a: Action)
    requires Accepts(s, a) && a.Retry?
    ensures VersionOf(s, a.d, a.v) && LatestIsFailed(s, a.v)
  {
  }

  /** Every enqueued job refers to rows that exist afterwards. */
  lemma EnqueuedRefers(s: State, a: Action)
    requires Accepts(s, a) && Enqueues(a)
    ensures var s' := Apply(s, a);
      a.d in s'.docs && (KindOf(a).Index? ==> VersionOf(s', a.d, KindOf(a).version))
  {
    hide Apply, Accepts, LatestIsFailed;
    EnqueueTarget(s, a);
    if a.CreateDocument? || a.AddVersion? {
      UploadTables(s, a);
    }
    if a.Retry? {
      RetryTarget(s, a);
      StepTables(s, a);
    }
  }

  lemma ReferencesOfVersions(s: State, a: Action)
    requires ReferencesHold(s)
    ensures var s' := Apply(s, a); forall v | v in s'.versions :: s'.versions[v].doc in s'.docs
  {
    hide Apply, Accepts;
    StepTables(s, a);
    if Accepts(s, a) {
      StepColumns(s, a);
      if a.CreateDocument? || a.AddVersion? {
        UploadTables(s, a);
      }
    } else {
      Refused(s, a);
    }
  }

  lemma ReferencesOfJobs(s: State, a: Action)
    requires ReferencesHold(s)
    ensures var s' := Apply(s, a); forall q | q in s'.jobs :: JobRefers(s', s'.jobs[q])
  {
    hide Apply, Accepts, Eligible, FreshSeq, TablesGrow, JobRefers, ReferencesHold;
    var s' := Apply(s, a);
    StepTables(s, a);
    JobsStillRefer(s, s');
    if Accepts(s, a) {
      StepShape(s, a);
      if Enqueues(a) {
        EnqueuedRefers(s, a);
        NewJobRefers(s', a.d, KindOf(a));
      } else if MovesJob(a) {
        MovedJobRefers(s', s.jobs[JobOf(a)], s'.jobs[JobOf(a)]);
      }
    } else {
      Refused(s, a);
    }
  }

  ghost predicate JobRefers(s: State, j: Job) {
    j.doc in s.docs && (j.kind.Index? ==> VersionOf(s, j.doc, j.kind.version))
  }

  lemma JobsStillRefer(s: State, s': State)
    requires ReferencesHold(s) && TablesGrow(s, s')
    ensures forall q | q in s.jobs :: JobRefers(s', s.jobs[q])
  {
  }

  lemma NewJobRefers(s: State, d: DocId, kind: Kind)
    requires d in s.docs && (kind.Index? ==> VersionOf(s, d, kind.version))
    ensures JobRefers(s, NewJob(d, kind))
  {
  }

  lemma MovedJobRefers(s: State, j: Job, j': Job)
    requires JobRefers(s, j) && j'.doc == j.doc && j'.kind == j.kind
    ensures JobRefers(s, j')
  {
  }

  lemma ReferencesOfDocuments(s: State, a: Action)
    requires ReferencesHold(s)
    ensures var s' := Apply(s, a); forall d | d in s'.docs && s'.docs[d].searchable.Some? ::
      VersionOf(s', d, s'.docs[d].searchable.value) && s'.versions[s'.docs[d].searchable.value].indexed
  {
    if Accepts(s, a) {
      StepTables(s, a);
      var s' := Apply(s, a);
      forall d | d in s'.docs && s'.docs[d].searchable.Some?
        ensures VersionOf(s', d, s'.docs[d].searchable.value) && s'.versions[s'.docs[d].searchable.value].indexed
      {
        var v := s'.docs[d].searchable.value;
        if d in s.docs && s.docs[d].searchable == Some(v) {
          assert VersionOf(s, d, v);
        } else if a.Complete? {
          assert s' == CompleteJob(s, a.tok.job, a.skip);
        }
      }
    }
  }

  lemma StepReferences(s: State, a: Action)
    requires ReferencesHold(s)
    ensures ReferencesHold(Apply(s, a))
  {
    ReferencesOfVersions(s, a);
    ReferencesOfJobs(s, a);
    ReferencesOfDocuments(s, a);
  }

  lemma RowAfterMove(s: State, a: Action)
    requires MovesJob(a) && Accepts(s, a)
    requires RowShape(s, s.jobs[JobOf(a)])
    requires s.jobs[JobOf(a)].doc in s.docs && s.jobs[JobOf(a)].epoch <= s.docs[s.jobs[JobOf(a)].doc].epoch
    ensures JobOf(a) in Apply(s, a).jobs
    ensures RowShape(Apply(s, a), Apply(s, a).jobs[JobOf(a)])
  {
  }

  lemma StepRows(s: State, a: Action)
    requires RowsShaped(s) && EpochsFenced(s)
    ensures RowsShaped(Apply(s, a))
  {
    hide Apply, Accepts;
    LimitAndClock(s, a);
    if Accepts(s, a) {
      StepShape(s, a);
      if MovesJob(a) {
        RowAfterMove(s, a);
      }
    } else {
      Refused(s, a);
    }
  }

  lemma SerialAfterAdd(s: State, s': State, q: JobSeq, d: DocId, kind: Kind)
    requires SerialOrder(s) && JobAdded(s, s', q, d, kind)
    ensures SerialOrder(s')
  {
  }

  lemma SerialAfterMove(s: State, s': State, q: JobSeq)
    requires SerialOrder(s) && RowsShaped(s) && JobMoved(s, s', q)
    ensures SerialOrder(s')
  {
    forall p, r | p in s'.jobs && r in s'.jobs && p < r && s'.jobs[p].doc == s'.jobs[r].doc && s'.jobs[p].Unfinished()
      ensures s'.jobs[r].Untouched()
    {
      assert s.jobs[p].Unfinished();
    }
  }

  lemma StepSerial(s: State, a: Action)
    requires SerialOrder(s) && RowsShaped(s)
    ensures SerialOrder(Apply(s, a))
  {
    if Accepts(s, a) {
      StepShape(s, a);
      if Enqueues(a) {
        SerialAfterAdd(s, Apply(s, a), JobOf(a), a.d, KindOf(a));
      } else if MovesJob(a) {
        SerialAfterMove(s, Apply(s, a), JobOf(a));
      }
    }
  }

  /** Which action writes which document column. */
  lemma StepColumns(s: State, a: Action)
    requires Accepts(s, a)
    ensures var s' := Apply(s, a);
      && TablesGrow(s, s')
      && (!a.CreateDocument? ==> s'.docs.Keys == s.docs.Keys)
      && (!a.CreateDocument? && !a.AddVersion? ==> s'.versions.Keys == s.versions.Keys)
      && (forall d | d in s.docs ::
            && (!(a.Claim? && s.jobs[a.q].doc == d) ==> s'.docs[d].epoch == s.docs[d].epoch)
            && (!(a.DeleteDocument? && a.d == d) ==> s'.docs[d].deletedAt == s.docs[d].deletedAt)
            && (!(a.AddVersion? && a.d == d) ==> s'.docs[d].latestUpload == s.docs[d].latestUpload))
  {
    StepTables(s, a);
    if a.Complete? {
      assert Apply(s, a) == CompleteJob(s, a.tok.job, a.skip);
    }
  }

  lemma EpochsAfterMove(s: State, s': State, q: JobSeq)
    requires EpochsFenced(s) && JobMoved(s, s', q) && s.docs.Keys <= s'.docs.Keys
    requires forall d | d in s.docs :: s.docs[d].epoch <= s'.docs[d].epoch
    requires s'.jobs[q].doc in s'.docs && s'.jobs[q].epoch <= s'.docs[s'.jobs[q].doc].epoch
    requires s'.jobs[q].status.Processing? ==> s'.jobs[q].epoch == s'.docs[s'.jobs[q].doc].epoch
    requires forall p | p in s.jobs && p != q && s.jobs[p].status.Processing? && s.jobs[p].doc in s.docs ::
      s'.docs[s.jobs[p].doc].epoch == s.docs[s.jobs[p].doc].epoch
    ensures EpochsFenced(s')
  {
  }

  lemma EpochAt(s: State, q: JobSeq)
    requires EpochsFenced(s) && q in s.jobs
    ensures s.jobs[q].doc in s.docs && s.jobs[q].epoch <= s.docs[s.jobs[q].doc].epoch
    ensures s.jobs[q].status.Processing? ==> s.jobs[q].epoch == s.docs[s.jobs[q].doc].epoch
  {
  }

  /** Old rows and their documents' counters as before, new rows unclaimed. */
  lemma EpochsUnmoved(s: State, s': State)
    requires EpochsFenced(s) && s.docs.Keys <= s'.docs.Keys
    requires forall d | d in s.docs :: s'.docs[d].epoch == s.docs[d].epoch
    requires forall q | q in s'.jobs && q in s.jobs :: s'.jobs[q] == s.jobs[q]
    requires forall q | q in s'.jobs && q !in s.jobs :: s'.jobs[q].doc in s'.docs && s'.jobs[q].Untouched()
    ensures EpochsFenced(s')
  {
  }

  lemma StepEpochs(s: State, a: Action)
    requires Accepts(s, a) && EpochsFenced(s) && SerialOrder(s) && RowsShaped(s)
    ensures EpochsFenced(Apply(s, a))
  {
    hide Apply, Accepts, Eligible, SerialOrder, RowsShaped, EpochsFenced;
    var s' := Apply(s, a);
    StepShape(s, a);
    StepColumns(s, a);
    if a.Claim? {
      ClaimedEligible(s, a.q, a.worker);
      ClaimIsAlone(s, a.q);
      ClaimedEpoch(s, a.q, a.worker);
      EpochsAfterMove(s, s', a.q);
    } else if MovesJob(a) {
      MovedEpoch(s, a);
      EpochAt(s, JobOf(a));
      EpochsAfterMove(s, s', JobOf(a));
    } else {
      if Enqueues(a) {
        EnqueueTarget(s, a);
      }
      EpochsUnmoved(s, s');
    }
  }

  lemma ClaimedEligible(s: State, q: JobSeq, w: Worker)
    requires Accepts(s, Claim(q, w))
    ensures Eligible(s, q)
  {
  }

  lemma ClaimedEpoch(s: State, q: JobSeq, w: Worker)
    requires Eligible(s, q)
    ensures var s' := Apply(s, Claim(q, w));
      && s'.jobs[q].epoch == s.docs[s.jobs[q].doc].epoch + 1 == s'.docs[s.jobs[q].doc].epoch
  {
  }

  /** No sibling of a claimable job is running. */
  lemma ClaimIsAlone(s: State, q: JobSeq)
    requires SerialOrder(s) && RowsShaped(s) && Eligible(s, q)
    ensures forall p | p in s.jobs && s.jobs[p].doc == s.jobs[q].doc :: !s.jobs[p].status.Processing?
  {
    forall p | p in s.jobs && s.jobs[p].doc == s.jobs[q].doc
      ensures !s.jobs[p].status.Processing?
    {
      assert RowShape(s, s.jobs[q]);
    }
  }

  lemma MovedEpoch(s: State, a: Action)
    requires MovesJob(a) && !a.Claim? && Accepts(s, a)
    ensures Apply(s, a).jobs[JobOf(a)].epoch == s.jobs[JobOf(a)].epoch
    ensures s.jobs[JobOf(a)].status.Processing?
  {
  }

  lemma RetriesUnmoved(s: State, s': State)
    requires RetriesAfterFailure(s) && s'.jobs == s.jobs
    ensures RetriesAfterFailure(s')
  {
  }

  lemma RetriesAfterMove(s: State, s': State, q: JobSeq)
    requires RetriesAfterFailure(s) && JobMoved(s, s', q)
    ensures RetriesAfterFailure(s')
  {
  }

  lemma RetriesAfterAdd(s: State, s': State, q: JobSeq, d: DocId, kind: Kind)
    requires RetriesAfterFailure(s) && JobAdded(s, s', q, d, kind)
    requires kind.Index? ==> forall p | p in s.jobs && s.jobs[p].kind == kind :: s.jobs[p].status.Failed? && p < q
    ensures RetriesAfterFailure(s')
  {
  }

  lemma LatestFailedMeansAll(s: State, v: VersionId)
    requires RetriesAfterFailure(s) && LatestIsFailed(s, v)
    ensures forall p | p in s.jobs && s.jobs[p].kind == Index(v) :: s.jobs[p].status.Failed?
  {
    var latest :| latest in s.jobs && IsLatest(s, v, latest) && s.jobs[latest].status.Failed?;
    assert forall p | p in s.jobs && s.jobs[p].kind == Index(v) :: s.jobs[p].IndexOf(v);
  }

  /** A version gets an INDEX job only as a new version or after all its earlier ones failed. */
  lemma EarlierJobsFailed(s: State, a: Action)
    requires Accepts(s, a) && Enqueues(a) && KindOf(a).Index?
    requires RetriesAfterFailure(s) && ReferencesHold(s)
    ensures forall p | p in s.jobs && s.jobs[p].kind == KindOf(a) :: s.jobs[p].status.Failed? && p < JobOf(a)
  {
    StepShape(s, a);
    hide Apply, Accepts, LatestIsFailed, RetriesAfterFailure;
    if a.Retry? {
      RetryTarget(s, a);
      LatestFailedMeansAll(s, a.v);
    } else {
      UploadTables(s, a);
    }
  }

  lemma StepRetries(s: State, a: Action)
    requires RetriesAfterFailure(s) && RowsShaped(s) && ReferencesHold(s)
    ensures RetriesAfterFailure(Apply(s, a))
  {
    hide Apply, Accepts, LatestIsFailed, RetriesAfterFailure, RowsShaped;
    if !Accepts(s, a) {
      Refused(s, a);
    } else {
      StepShape(s, a);
      if Enqueues(a) {
        if KindOf(a).Index? {
          EarlierJobsFailed(s, a);
        }
        RetriesAfterAdd(s, Apply(s, a), JobOf(a), a.d, KindOf(a));
      } else if MovesJob(a) {
        RetriesAfterMove(s, Apply(s, a), JobOf(a));
      } else {
        RetriesUnmoved(s, Apply(s, a));
      }
    }
  }

  lemma DeleteIsLastAdded(s: State, s': State, q: JobSeq, d: DocId, kind: Kind)
    requires JobAdded(s, s', q, d, kind) && TablesGrow(s, s') && DeleteCloses(s)
    requires d in s.docs ==> s.docs[d].deletedAt.None?
    requires d in s'.docs && (kind.Delete? ==> s'.docs[d].deletedAt.Some?)
    ensures DeleteCloses(s')
  {
  }

  /** A job is enqueued for an undeleted document, which a DELETE job leaves deleted. */
  lemma EnqueueTarget(s: State, a: Action)
    requires Accepts(s, a) && Enqueues(a)
    ensures a.d in s.docs ==> s.docs[a.d].deletedAt.None?
    ensures a.d !in s.docs ==> a.CreateDocument?
    ensures var s' := Apply(s, a); a.d in s'.docs && (KindOf(a).Delete? ==> s'.docs[a.d].deletedAt.Some?)
  {
  }

  lemma DeleteStaysLast(s: State, s': State)
    requires DeleteCloses(s) && TablesGrow(s, s') && s'.jobs.Keys == s.jobs.Keys
    requires forall q | q in s.jobs :: s'.jobs[q].doc == s.jobs[q].doc && s'.jobs[q].kind == s.jobs[q].kind
    ensures DeleteCloses(s')
  {
  }

  lemma StepDelete(s: State, a: Action)
    requires Accepts(s, a) && DeleteCloses(s) && ReferencesHold(s)
    ensures DeleteCloses(Apply(s, a))
  {
    hide Apply, Accepts, Eligible, FreshSeq, DeleteCloses;
    StepShape(s, a);
    StepTables(s, a);
    var s' := Apply(s, a);
    if Enqueues(a) {
      EnqueueTarget(s, a);
      DeleteIsLastAdded(s, s', JobOf(a), a.d, KindOf(a));
    } else {
      assert s'.jobs.Keys == s.jobs.Keys;
      DeleteStaysLast(s, s');
    }
  }

  lemma StepDeletedQueued(s: State, a: Action)
    requires Accepts(s, a) && DeletedQueued(s)
    ensures DeletedQueued(Apply(s, a))
  {
    var s' := Apply(s, a);
    StepShape(s, a);
    StepColumns(s, a);
    forall d | d in s'.docs && s'.docs[d].deletedAt.Some?
      ensures exists q | q in s'.jobs :: s'.jobs[q].doc == d && s'.jobs[q].kind.Delete?
    {
      if d in s.docs && s.docs[d].deletedAt.Some? {
        var q :| q in s.jobs && s.jobs[q].doc == d && s.jobs[q].kind.Delete?;
        assert s'.jobs[q].doc == d && s'.jobs[q].kind.Delete?;
      } else if a.DeleteDocument? {
        assert s'.jobs[a.q].doc == a.d && s'.jobs[a.q].kind.Delete?;
      }
    }
  }

  /** The document table and the version table of an upload. */
  lemma UploadTables(s: State, a: Action)
    requires Accepts(s, a) && (a.CreateDocument? || a.AddVersion?)
    ensures var s' := Apply(s, a);
      && a.v !in s.versions
      && a.d in s'.docs
      && s'.docs[a.d].latestUpload == (if a.CreateDocument? then 1 else s.docs[a.d].latestUpload + 1)
      && s'.versions == s.versions[a.v := Version(a.d, s'.docs[a.d].latestUpload, a.hash, false)]
      && s'.docs.Keys == s.docs.Keys + {a.d}
      && (a.CreateDocument? <==> a.d !in s.docs)
  {
  }

  lemma NumbersUnmoved(s: State, s': State)
    requires NumbersGapless(s) && TablesGrow(s, s') && AllNumbered(s')
    requires s'.versions.Keys == s.versions.Keys
    requires forall d | d in s.docs :: s'.docs[d].latestUpload == s.docs[d].latestUpload
    ensures NumbersGapless(s')
  {
  }

  lemma NumbersAfterUpload(s: State, s': State, d: DocId, v: VersionId, row: Version)
    requires NumbersGapless(s) && AllNumbered(s') && s.docs.Keys <= s'.docs.Keys
    requires v !in s.versions && s'.versions == s.versions[v := row]
    requires row.doc == d && d in s'.docs && row.no == s'.docs[d].latestUpload >= 1
    requires d in s.docs ==> row.no == s.docs[d].latestUpload + 1
    requires forall e | e in s.docs && e != d :: s'.docs[e].latestUpload == s.docs[e].latestUpload
    ensures NumbersGapless(s')
  {
    hide HasNumber;
  }

  lemma StepNumbers(s: State, a: Action)
    requires Accepts(s, a) && NumbersGapless(s)
    ensures NumbersGapless(Apply(s, a))
  {
    hide Apply, Accepts, HasNumber, NumbersGapless;
    var s' := Apply(s, a);
    StepColumns(s, a);
    NumbersCovered(s, s', a);
    if a.CreateDocument? || a.AddVersion? {
      UploadTables(s, a);
      NumbersAfterUpload(s, s', a.d, a.v, s'.versions[a.v]);
    } else {
      NumbersUnmoved(s, s');
    }
  }

  lemma NumbersCovered(s: State, s': State, a: Action)
    requires NumbersGapless(s) && Accepts(s, a) && s' == Apply(s, a)
    ensures AllNumbered(s')
  {
    hide Apply, Accepts;
    StepColumns(s, a);
    if a.CreateDocument? || a.AddVersion? {
      UploadTables(s, a);
    }
    forall d, n | d in s'.docs && 1 <= n <= s'.docs[d].latestUpload
      ensures HasNumber(s', d, n)
    {
      if d in s.docs && n <= s.docs[d].latestUpload {
        assert HasNumber(s, d, n);
        var v :| v in s.versions && s.versions[v].doc == d && s.versions[v].no == n;
        assert s'.versions[v].no == n;
      } else {
        assert s'.versions[a.v].doc == d && s'.versions[a.v].no == n;
      }
    }
  }

  lemma StepMarker(s: State, a: Action)
    requires MarkerFresh(s)
    ensures MarkerFresh(Apply(s, a))
  {
  }

  // ----- chunks and completion ------------------------------------------------------------

  /** Only a completion touches chunks or marks a version indexed. */
  lemma QuietForChunks(s: State, a: Action)
    requires Accepts(s, a) && !a.Complete?
    ensures var s' := Apply(s, a);
      && s'.chunks == s.chunks
      && (forall v | v in s.versions :: s'.versions[v] == s.versions[v])
      && (forall v | v in s'.versions && v !in s.versions :: !s'.versions[v].indexed && FreshDocument(s, s'.versions[v].doc))
  {
  }

  ghost predicate FreshDocument(s: State, d: DocId) {
    d in s.docs ==> s.docs[d].deletedAt.None?
  }

  /** Finished rows are frozen, so whether a deletion is done changes only by completing it. */
  lemma FinishedFrozen(s: State, a: Action)
    requires RowsShaped(s)
    ensures forall q | q in s.jobs && !s.jobs[q].Unfinished() ::
      q in Apply(s, a).jobs && Apply(s, a).jobs[q] == s.jobs[q]
  {
    if Accepts(s, a) {
      StepShape(s, a);
      hide Apply, Accepts;
    }
  }

  /** Which rows may become finished. */
  lemma FinishedBy(s: State, a: Action)
    requires RowsShaped(s)
    ensures forall q | q in Apply(s, a).jobs && !Apply(s, a).jobs[q].Unfinished() ::
      q in s.jobs && (Apply(s, a).jobs[q] == s.jobs[q] || ((a.Complete? || a.Fail?) && a.tok.job == q && Accepts(s, a)))
  {
    if Accepts(s, a) {
      StepShape(s, a);
      if MovesJob(a) && !a.Complete? && !a.Fail? {
        MoveStaysOpen(s, a);
      }
      hide Apply, Accepts;
    }
  }

  lemma MoveStaysOpen(s: State, a: Action)
    requires Accepts(s, a) && MovesJob(a) && !a.Complete? && !a.Fail?
    ensures Apply(s, a).jobs[JobOf(a)].Unfinished()
  {
  }

  ghost predicate CompletesCleanUp(s: State, a: Action, d: DocId) {
    Accepts(s, a) && a.Complete? && s.jobs[a.tok.job].kind.Delete? && s.jobs[a.tok.job].doc == d
  }

  lemma CompletedRow(s: State, tok: Token, skip: bool)
    requires Accepts(s, Complete(tok, skip))
    ensures tok.job in s.jobs && s.jobs[tok.job].status.Processing?
    ensures tok.job in Apply(s, Complete(tok, skip)).jobs
    ensures var j' := Apply(s, Complete(tok, skip)).jobs[tok.job];
      && j'.status.Completed? && j'.kind == s.jobs[tok.job].kind && j'.doc == s.jobs[tok.job].doc
      && j'.outcome == Some(if j'.kind.Delete? then Deleted else if skip then SkippedDocumentDeleted else Indexed)
  {
  }

  lemma DeletionDoneBy(s: State, a: Action, d: DocId)
    requires RowsShaped(s)
    ensures DeletionDone(Apply(s, a), d) <==> DeletionDone(s, d) || CompletesCleanUp(s, a, d)
  {
    hide Apply, Accepts;
    var s' := Apply(s, a);
    FinishedFrozen(s, a);
    FinishedBy(s, a);
    if Accepts(s, a) && a.Complete? {
      CompletedRow(s, a.tok, a.skip);
    }
    if Accepts(s, a) && a.Fail? {
      FailedRow(s, a.tok);
    }
    if DeletionDone(s, d) {
      var q :| q in s.jobs && CleansUp(s.jobs[q], d);
      assert CleansUp(s'.jobs[q], d);
    } else if CompletesCleanUp(s, a, d) {
      assert CleansUp(s'.jobs[a.tok.job], d);
    } else {
      forall q | q in s'.jobs
        ensures !CleansUp(s'.jobs[q], d)
      {
      }
    }
  }

  lemma FailedRow(s: State, tok: Token)
    requires Accepts(s, Fail(tok))
    ensures tok.job in Apply(s, Fail(tok)).jobs
    ensures Apply(s, Fail(tok)).jobs[tok.job].status.Failed?
  {
  }

  /** An unfinished INDEX job means the clean-up behind it has not run. */
  lemma UnfinishedBlocksDeletion(s: State, q: JobSeq)
    requires SerialOrder(s) && DeleteCloses(s)
    requires q in s.jobs && s.jobs[q].kind.Index? && s.jobs[q].Unfinished()
    ensures !DeletionDone(s, s.jobs[q].doc)
  {
  }

  lemma CompleteTables(s: State, tok: Token, skip: bool)
    requires Accepts(s, Complete(tok, skip))
    ensures var s' := Apply(s, Complete(tok, skip)); var j := s.jobs[tok.job];
      && (j.kind.Index? && !skip ==>
            && s'.chunks == s.chunks + {j.kind.version}
            && s'.versions == s.versions[j.kind.version := s.versions[j.kind.version].(indexed := true)]
            && s.versions[j.kind.version].doc == j.doc)
      && (j.kind.Index? && skip ==> s'.chunks == s.chunks && s'.versions == s.versions)
      && (j.kind.Delete? ==>
            && s'.versions == s.versions
            && forall v :: v in s'.chunks <==> v in s.chunks && !VersionOf(s, j.doc, v))
  {
  }

  lemma StepChunks(s: State, a: Action)
    requires Accepts(s, a) && ChunksExact(s) && RowsShaped(s) && SerialOrder(s) && DeleteCloses(s) && ReferencesHold(s)
    ensures ChunksExact(Apply(s, a))
  {
    hide Apply, Accepts, RowsShaped, SerialOrder, DeleteCloses, Eligible;
    var s' := Apply(s, a);
    if a.Complete? {
      CompletedRow(s, a.tok, a.skip);
      CompleteTables(s, a.tok, a.skip);
      if s.jobs[a.tok.job].kind.Index? {
        UnfinishedBlocksDeletion(s, a.tok.job);
      }
    } else {
      QuietForChunks(s, a);
    }
    StepTables(s, a);
    forall v | v in s'.versions
      ensures v in s'.chunks <==> s'.versions[v].indexed && !DeletionDone(s', s'.versions[v].doc)
    {
        DeletionDoneBy(s, a, s'.versions[v].doc);
    }
  }

  /** The run-time partner of INDEXED: the row that says so. */
  lemma StepIndexed(s: State, a: Action)
    requires Accepts(s, a) && IndexedByJob(s) && RowsShaped(s) && ReferencesHold(s)
    ensures IndexedByJob(Apply(s, a))
  {
    hide Apply, Accepts, RowsShaped, Eligible;
    var s' := Apply(s, a);
    FinishedFrozen(s, a);
    FinishedBy(s, a);
    if a.Complete? {
      CompletedRow(s, a.tok, a.skip);
      CompleteTables(s, a.tok, a.skip);
    } else {
      QuietForChunks(s, a);
    }
    if a.Fail? {
      FailedRow(s, a.tok);
    }
    forall v | v in s'.versions
      ensures s'.versions[v].indexed <==> exists q | q in s'.jobs :: Indexes(s'.jobs[q], v)
    {
      if q :| q in s.jobs && Indexes(s.jobs[q], v) {
        assert Indexes(s'.jobs[q], v);
      }
      if a.Complete? && Indexes(s'.jobs[a.tok.job], v) {
        assert s'.versions[v].indexed;
      } else if q :| q in s'.jobs && Indexes(s'.jobs[q], v) {
        assert Indexes(s.jobs[q], v);
      }
    }
  }

  // ----- the whole invariant --------------------------------------------------------------

  lemma StepKeepsInv(s: State, a: Action)
    requires Inv(s)
    ensures Inv(Apply(s, a))
  {
    if Accepts(s, a) {
      StepReferences(s, a);
      StepRows(s, a);
      StepEpochs(s, a);
      StepSerial(s, a);
      StepRetries(s, a);
      StepDelete(s, a);
      StepDeletedQueued(s, a);
      StepChunks(s, a);
      StepIndexed(s, a);
      StepNumbers(s, a);
      StepMarker(s, a);
      hide Apply, Accepts, ReferencesHold, RowsShaped, EpochsFenced, SerialOrder, RetriesAfterFailure, DeleteCloses,
        DeletedQueued, ChunksExact, IndexedByJob, NumbersGapless, MarkerFresh;
    }
  }

  lemma {:induction false} InvInEveryState(maxAttempts: nat, now: Time, boot: Boot, run: seq<Action>)
    ensures Inv(Exec(Initial(maxAttempts, now, boot), run))
  {
    if run != [] {
      InvInEveryState(maxAttempts, now, boot, run[..|run| - 1]);
      StepKeepsInv(Exec(Initial(maxAttempts, now, boot), run[..|run| - 1]), run[|run| - 1]);
      hide Inv, Apply;
    }
  }
}
