/** Order, retry history, clean-up, search promotion and duplicate numbers over whole runs. */
module QueueHistory {
  import opened Wrappers
  import opened IndexingQueue
  import opened QueueInvariant
  import opened QueueRuns

  // ----- serial order ---------------------------------------------------------------------

  /** Jobs of one document run one at a time and finish in enqueue order. */
  ghost predicate InOrder(s: State) {
    forall p, q | p in s.jobs && q in s.jobs && p < q && s.jobs[p].doc == s.jobs[q].doc ::
      && (!s.jobs[q].Unfinished() ==> !s.jobs[p].Unfinished())
      && (s.jobs[q].status.Processing? ==> !s.jobs[p].Unfinished())
      && (s.jobs[q].attempts > 0 ==> !s.jobs[p].Unfinished())
  }

  lemma {:induction false} JobsRunInOrder(maxAttempts: nat, now: Time, boot: Boot, run: seq<Action>)
    ensures InOrder(Exec(Initial(maxAttempts, now, boot), run))
  {
    hide Exec;
    InvInEveryState(maxAttempts, now, boot, run);
  }

  // ----- attempts -------------------------------------------------------------------------

  /** How often the run claimed the job with effect. */
  ghost function Claims(s: State, run: seq<Action>, q: JobSeq): nat {
    if run == [] then 0 else
      var pre := run[..|run| - 1];
      var a := run[|run| - 1];
      Claims(s, pre, q) + (if a.Claim? && a.q == q && Accepts(Exec(s, pre), a) then 1 else 0)
  }

  lemma AttemptsStep(s: State, a: Action, q: JobSeq)
    requires q in Apply(s, a).jobs
    ensures Apply(s, a).jobs[q].attempts ==
      (if q in s.jobs then s.jobs[q].attempts else 0) + (if a.Claim? && a.q == q && Accepts(s, a) then 1 else 0)
  {
  }

  lemma UnknownNotClaimed(s: State, a: Action, q: JobSeq)
    requires q !in Apply(s, a).jobs
    ensures q !in s.jobs && !(a.Claim? && a.q == q && Accepts(s, a))
  {
  }

  /** attempt_count is the number of claims, and the limit bounds it. */
  lemma {:induction false} AttemptsCountClaims(maxAttempts: nat, now: Time, boot: Boot, run: seq<Action>, q: JobSeq)
    ensures var s := Exec(Initial(maxAttempts, now, boot), run); var n := Claims(Initial(maxAttempts, now, boot), run, q);
      n == (if q in s.jobs then s.jobs[q].attempts else 0) && n <= maxAttempts
  {
    hide Apply, Accepts;
    var s0 := Initial(maxAttempts, now, boot);
    if run != [] {
      var pre := run[..|run| - 1];
      AttemptsCountClaims(maxAttempts, now, boot, pre, q);
      if q in Exec(s0, run).jobs {
        AttemptsStep(Exec(s0, pre), run[|run| - 1], q);
      } else {
        UnknownNotClaimed(Exec(s0, pre), run[|run| - 1], q);
      }
    }
    AttemptsBounded(maxAttempts, now, boot, run, q);
  }

  lemma InitialInv(maxAttempts: nat, now: Time, boot: Boot)
    ensures Inv(Initial(maxAttempts, now, boot))
  {
    InvInEveryState(maxAttempts, now, boot, []);
  }

  lemma AttemptsWithin(s: State, q: JobSeq)
    requires Inv(s)
    ensures q in s.jobs ==> s.jobs[q].attempts <= s.maxAttempts
  {
    assert q in s.jobs ==> RowShape(s, s.jobs[q]);
  }

  lemma {:induction false} AttemptsBounded(maxAttempts: nat, now: Time, boot: Boot, run: seq<Action>, q: JobSeq)
    ensures var s := Exec(Initial(maxAttempts, now, boot), run); q in s.jobs ==> s.jobs[q].attempts <= maxAttempts
  {
    hide Apply, Accepts, Exec, Inv;
    InvInEveryState(maxAttempts, now, boot, run);
    InitialInv(maxAttempts, now, boot);
    LimitFixed(Initial(maxAttempts, now, boot), run);
    AttemptsWithin(Exec(Initial(maxAttempts, now, boot), run), q);
  }

  lemma {:induction false} LimitFixed(s: State, run: seq<Action>)
    requires Inv(s)
    ensures Exec(s, run).maxAttempts == s.maxAttempts
  {
    hide Inv, RowEvolves, TablesGrow, Apply;
    RunEvolves(s, run, 0, |run|);
    assert run[..0] == [] && run[..|run|] == run;
  }

  /** A job that was put back after its last permitted claim. */
  ghost predicate Exhausted(s: State, q: JobSeq) {
    q in s.jobs && s.jobs[q].status.Pending? && s.jobs[q].attempts >= s.maxAttempts
  }

  lemma ExhaustedStays(s: State, a: Action, q: JobSeq)
    requires Exhausted(s, q)
    ensures Exhausted(Apply(s, a), q) && Apply(s, a).jobs[q].doc == s.jobs[q].doc
  {
    hide Apply, Accepts;
    LimitKept(s, a);
    if Accepts(s, a) {
      StepShape(s, a);
    } else {
      Refused(s, a);
    }
  }

  lemma LimitKept(s: State, a: Action)
    ensures Apply(s, a).maxAttempts == s.maxAttempts
  {
  }

  /** It is never claimed again and holds up every later job of its document for good. */
  lemma {:induction false} ExhaustedJobBlocks(s: State, run: seq<Action>, i: nat, k: nat, q: JobSeq)
    requires i <= k <= |run|
    requires Exhausted(At(s, run, i), q)
    ensures Exhausted(At(s, run, k), q) && At(s, run, k).jobs[q].doc == At(s, run, i).jobs[q].doc
    ensures forall p | p >= q && p in At(s, run, k).jobs && At(s, run, k).jobs[p].doc == At(s, run, i).jobs[q].doc ::
      !Eligible(At(s, run, k), p)
    decreases k
  {
    hide At, Apply;
    if i < k {
      ExhaustedJobBlocks(s, run, i, k - 1, q);
      AtNext(s, run, k - 1);
      ExhaustedStays(At(s, run, k - 1), run[k - 1], q);
    }
  }

  /** The job at the head of its document: unfinished, with nothing unfinished before it. */
  ghost predicate AtHead(s: State, q: JobSeq) {
    q in s.jobs && s.jobs[q].Unfinished() && !BlockedByEarlier(s, q)
  }

  ghost predicate RetryDue(s: State, j: Job) {
    j.status.RetryWait? ==> j.nextRetryAt.Some? && j.nextRetryAt.value <= s.now
  }

  /** A head job that is not running is claimable once its retry time has come, unless a reclaim returned it exhausted. */
  lemma {:induction false} OnlyExhaustedJobsStall(maxAttempts: nat, now: Time, boot: Boot, run: seq<Action>, q: JobSeq)
    ensures var s := Exec(Initial(maxAttempts, now, boot), run);
      AtHead(s, q) && !s.jobs[q].status.Processing? && RetryDue(s, s.jobs[q]) ==>
        (Eligible(s, q) <==> !Exhausted(s, q))
  {
    hide Exec, BlockedByEarlier;
    InvInEveryState(maxAttempts, now, boot, run);
    assert q in Exec(Initial(maxAttempts, now, boot), run).jobs ==>
      RowShape(Exec(Initial(maxAttempts, now, boot), run), Exec(Initial(maxAttempts, now, boot), run).jobs[q]);
  }

  // ----- retries --------------------------------------------------------------------------

  /** The partial unique index: one unfinished INDEX job per version. */
  ghost predicate UniqueActive(s: State) {
    forall p, q | p in s.jobs && q in s.jobs && s.jobs[p].kind.Index? && s.jobs[p].kind == s.jobs[q].kind
                  && s.jobs[p].Unfinished() && s.jobs[q].Unfinished() :: p == q
  }

  lemma RetryHistory(s: State)
    requires Inv(s)
    ensures RetriesAfterFailure(s)
  {
  }

  lemma ActiveIsUnique(s: State)
    requires RetriesAfterFailure(s)
    ensures UniqueActive(s)
  {
  }

  lemma LatestDecides(s: State, v: VersionId)
    requires RetriesAfterFailure(s)
    ensures LatestIsFailed(s, v) <==>
      && (exists q | q in s.jobs :: s.jobs[q].IndexOf(v))
      && (forall q | q in s.jobs && s.jobs[q].IndexOf(v) :: s.jobs[q].status.Failed?)
  {
    if exists q | q in s.jobs :: s.jobs[q].IndexOf(v) {
      var q := LatestExists(s, v);
    }
  }

  /**
    Looking at the latest job alone is exact: it is FAILED iff the version has jobs and all of
    them failed. So a retry is never refused by the unique index, and never repeats finished work.
   */
  lemma {:induction false} RetryCheckIsExact(maxAttempts: nat, now: Time, boot: Boot, run: seq<Action>, v: VersionId)
    ensures var s := Exec(Initial(maxAttempts, now, boot), run);
      && UniqueActive(s)
      && (LatestIsFailed(s, v) <==>
            && (exists q | q in s.jobs :: s.jobs[q].IndexOf(v))
            && (forall q | q in s.jobs && s.jobs[q].IndexOf(v) :: s.jobs[q].status.Failed?))
  {
    hide Exec, Inv, UniqueActive, LatestIsFailed, RetriesAfterFailure;
    InvInEveryState(maxAttempts, now, boot, run);
    var s := Exec(Initial(maxAttempts, now, boot), run);
    RetryHistory(s);
    ActiveIsUnique(s);
    LatestDecides(s, v);
  }

  lemma LatestExists(s: State, v: VersionId) returns (q: JobSeq)
    requires exists q | q in s.jobs :: s.jobs[q].IndexOf(v)
    ensures IsLatest(s, v, q)
  {
    q :| q in s.jobs && s.jobs[q].IndexOf(v);
    var seen := {q};
    var rest := s.jobs.Keys - {q};
    while rest != {}
      invariant q in s.jobs && s.jobs[q].IndexOf(v)
      invariant seen + rest == s.jobs.Keys
      invariant forall k | k in seen && s.jobs[k].IndexOf(v) :: k <= q
      decreases rest
    {
      var k :| k in rest;
      if s.jobs[k].IndexOf(v) && q < k {
        q := k;
      }
      seen, rest := seen + {k}, rest - {k};
    }
  }

  // ----- deletion -------------------------------------------------------------------------

  /** Nothing of the document is left to search and nothing can be queued for it. */
  ghost predicate Gone(s: State, d: DocId) {
    && (forall v | v in s.chunks :: !VersionOf(s, d, v))
    && (forall q | q in s.jobs && s.jobs[q].doc == d :: !s.jobs[q].Unfinished())
    && (forall a: Action | Enqueues(a) && a.d == d :: !Accepts(s, a))
  }

  lemma CleanedIsGone(s: State, d: DocId)
    requires ChunksExact(s) && SerialOrder(s) && DeleteCloses(s) && DeletionDone(s, d)
    ensures Gone(s, d)
  {
    var c :| c in s.jobs && CleansUp(s.jobs[c], d);
  }

  lemma DeletionStays(s: State, s': State, d: DocId)
    requires Evolves(s, s') && DeletionDone(s, d)
    ensures DeletionDone(s', d)
  {
    var c :| c in s.jobs && CleansUp(s.jobs[c], d);
    assert CleansUp(s'.jobs[c], d);
  }

  /** Once the DELETE job completed, the document stays gone for the rest of the run. */
  lemma {:induction false} CleanUpIsFinal(s: State, run: seq<Action>, i: nat, k: nat, d: DocId)
    requires Inv(s) && i <= k <= |run|
    requires DeletionDone(At(s, run, i), d)
    ensures Gone(At(s, run, k), d)
  {
    hide At, Gone, DeletionDone, ReferencesHold, RowsShaped, EpochsFenced, SerialOrder, RetriesAfterFailure, DeleteCloses,
      DeletedQueued, ChunksExact, IndexedByJob, NumbersGapless, MarkerFresh, Evolves;
    RunEvolves(s, run, i, k);
    InvAt(s, run, k);
    DeletionStays(At(s, run, i), At(s, run, k), d);
    CleanedIsGone(At(s, run, k), d);
  }

  // ----- search promotion -----------------------------------------------------------------

  /** The number of the searchable version, 0 when there is none. */
  ghost function SearchNo(s: State, d: DocId): nat {
    if d in s.docs && s.docs[d].searchable.Some? && s.docs[d].searchable.value in s.versions
    then s.versions[s.docs[d].searchable.value].no else 0
  }

  /** The job whose completion may promote version v of document d. */
  ghost predicate Indexing(s: State, a: Action, d: DocId) {
    a.Complete? && Accepts(s, a) && !a.skip && s.jobs[a.tok.job].kind.Index? && s.jobs[a.tok.job].doc == d
  }

  lemma SearchColumn(s: State, a: Action, d: DocId)
    requires d in s.docs && !(a.SetSearchable? && a.d == d)
    ensures var s' := Apply(s, a);
      && d in s'.docs
      && (Indexing(s, a, d) ==>
            var v := s.jobs[a.tok.job].kind.version;
            References(s, d, v) && s'.docs[d] == Promote(s, d, v))
      && (!Indexing(s, a, d) ==> s'.docs[d].searchable == s.docs[d].searchable)
  {
  }

  /** A job that finishes late cannot roll the searchable version back. */
  lemma WorkersNeverRollBack(s: State, a: Action, d: DocId)
    requires Inv(s) && !(a.SetSearchable? && a.d == d)
    ensures SearchNo(s, d) <= SearchNo(Apply(s, a), d)
  {
    hide Apply, Accepts, RowsShaped, EpochsFenced, SerialOrder, RetriesAfterFailure, DeleteCloses, DeletedQueued,
      ChunksExact, IndexedByJob, MarkerFresh;
    StepTables(s, a);
    if d in s.docs {
      SearchColumn(s, a, d);
    }
  }

  /** An undeleted document is searched in its newest indexed version. */
  ghost predicate SearchesNewest(s: State, d: DocId) {
    Active(s, d) ==>
      && (s.docs[d].searchable.None? ==> forall v | v in s.versions && s.versions[v].doc == d :: !s.versions[v].indexed)
      && (forall v | v in s.versions && s.versions[v].doc == d && s.versions[v].indexed :: s.versions[v].no <= SearchNo(s, d))
  }

  /** Which versions an action marks indexed. */
  lemma IndexedColumn(s: State, a: Action, v: VersionId)
    requires v in Apply(s, a).versions && Apply(s, a).versions[v].indexed
    requires v in s.versions ==> !s.versions[v].indexed
    ensures v in s.versions && Indexing(s, a, s.versions[v].doc) && s.jobs[a.tok.job].kind.version == v
  {
  }

  lemma StepSearchesNewest(s: State, a: Action, d: DocId)
    requires Inv(s) && SearchesNewest(s, d) && !(a.SetSearchable? && a.d == d)
    ensures SearchesNewest(Apply(s, a), d)
  {
    hide Apply, Accepts, RowsShaped, EpochsFenced, SerialOrder, RetriesAfterFailure, DeleteCloses, DeletedQueued,
      ChunksExact, IndexedByJob, MarkerFresh;
    var s' := Apply(s, a);
    StepTables(s, a);
    WorkersNeverRollBack(s, a, d);
    if d in s.docs {
      SearchColumn(s, a, d);
    }
    forall v | v in s'.versions && s'.versions[v].doc == d && s'.versions[v].indexed && Active(s', d)
      ensures s'.docs[d].searchable.Some? && s'.versions[v].no <= SearchNo(s', d)
    {
      if v in s.versions && s.versions[v].indexed {
        assert Active(s, d);
      } else {
        IndexedColumn(s, a, v);
      }
    }
  }

  /** What search reads for an undeleted document is a version of it that has its chunks. */
  lemma {:induction false} SearchTargetHasChunks(maxAttempts: nat, now: Time, boot: Boot, run: seq<Action>, d: DocId)
    ensures var s := Exec(Initial(maxAttempts, now, boot), run);
      Active(s, d) && s.docs[d].searchable.Some? ==>
        VersionOf(s, d, s.docs[d].searchable.value) && s.docs[d].searchable.value in s.chunks
  {
    hide Exec;
    InvInEveryState(maxAttempts, now, boot, run);
  }

  /** Unless somebody picks a version by hand, search always uses the newest indexed one. */
  lemma {:induction false} SearchFollowsUploads(maxAttempts: nat, now: Time, boot: Boot, run: seq<Action>, d: DocId)
    requires forall i | 0 <= i < |run| :: !(run[i].SetSearchable? && run[i].d == d)
    ensures SearchesNewest(Exec(Initial(maxAttempts, now, boot), run), d)
  {
    if run != [] {
      var pre := run[..|run| - 1];
      SearchFollowsUploads(maxAttempts, now, boot, pre, d);
      InvInEveryState(maxAttempts, now, boot, pre);
      hide Inv, Apply, SearchesNewest;
      StepSearchesNewest(Exec(Initial(maxAttempts, now, boot), pre), run[|run| - 1], d);
    }
  }

  // ----- version numbers and duplicates ---------------------------------------------------

  /** r is MIN(version_no) over the document's versions with that content. */
  ghost predicate IsEarliest(s: State, d: DocId, hash: string, r: Option<nat>) {
    && (forall v | v in s.versions && s.versions[v].doc == d && s.versions[v].hash == hash ::
          r.Some? && r.value <= s.versions[v].no)
    && (r.Some? ==> exists v | v in s.versions ::
          s.versions[v].doc == d && s.versions[v].hash == hash && s.versions[v].no == r.value)
  }

  /** The number shown for a version: an earlier one with the same content, or none. */
  function DuplicateOf(no: nat, earliest: Option<nat>): Option<nat> {
    if earliest.Some? && earliest.value < no then earliest else None
  }

  /** Versions that appear between two states are numbered above all the earlier ones. */
  lemma LaterVersionsNumberedAbove(s: State, s': State, w: VersionId)
    requires NumbersGapless(s) && NumbersGapless(s') && TablesGrow(s, s')
    requires w in s'.versions && w !in s.versions && s'.versions[w].doc in s.docs
    ensures s'.versions[w].no > s.docs[s'.versions[w].doc].latestUpload
  {
    var d, n := s'.versions[w].doc, s'.versions[w].no;
    assert n <= s.docs[d].latestUpload ==> HasNumber(s, d, n);
  }

  lemma EarliestUnchanged(s: State, s': State, d: DocId, hash: string, v: VersionId, r: Option<nat>, r': Option<nat>)
    requires NumbersGapless(s) && NumbersGapless(s') && TablesGrow(s, s')
    requires d in s.docs && v !in s.versions && v in s'.versions
    requires s'.versions[v].doc == d && s'.versions[v].hash == hash && s'.versions[v].no == s.docs[d].latestUpload + 1
    requires IsEarliest(s, d, hash, r) && IsEarliest(s', d, hash, r')
    ensures DuplicateOf(s'.versions[v].no, r') == r
  {
    var w' :| w' in s'.versions && s'.versions[w'].doc == d && s'.versions[w'].hash == hash && s'.versions[w'].no == r'.value;
    if w' !in s.versions {
      LaterVersionsNumberedAbove(s, s', w');
    }
    if r.Some? {
      var w :| w in s.versions && s.versions[w].doc == d && s.versions[w].hash == hash && s.versions[w].no == r.value;
      assert s'.versions[w].no == r.value;
    }
  }

  /**
    The summary of a page fetches versions by any of the page's documents and any of their
    latest numbers at once, then keeps those whose own document has that number.
   */
  ghost predicate KeptForSummary(s: State, documents: seq<DocId>, v: VersionId) {
    && v in s.versions
    && s.versions[v].doc in documents
    && (exists e | e in documents :: e in s.docs && s.docs[e].latestUpload > 0 && s.docs[e].latestUpload == s.versions[v].no)
    && (exists e | e in documents :: e in s.docs && e == s.versions[v].doc && s.docs[e].latestUpload == s.versions[v].no)
  }

  /** What is kept for a document is its one latest version, whatever else is on the page. */
  lemma {:induction false} SummaryShowsLatestVersion(maxAttempts: nat, now: Time, boot: Boot, run: seq<Action>, documents: seq<DocId>, d: DocId)
    ensures var s := Exec(Initial(maxAttempts, now, boot), run);
      d in documents && d in s.docs ==>
        && (s.docs[d].latestUpload > 0 ==> exists v :: KeptForSummary(s, documents, v) && s.versions[v].doc == d)
        && (forall v, w | KeptForSummary(s, documents, v) && KeptForSummary(s, documents, w)
                          && s.versions[v].doc == d && s.versions[w].doc == d :: v == w)
        && (forall v | KeptForSummary(s, documents, v) && s.versions[v].doc == d ::
              forall w | VersionOf(s, d, w) :: s.versions[w].no <= s.versions[v].no)
  {
    hide Exec, ReferencesHold, RowsShaped, EpochsFenced, SerialOrder, RetriesAfterFailure, DeleteCloses, DeletedQueued,
      ChunksExact, IndexedByJob, MarkerFresh;
    InvInEveryState(maxAttempts, now, boot, run);
    var s := Exec(Initial(maxAttempts, now, boot), run);
    if d in documents && d in s.docs && s.docs[d].latestUpload > 0 {
      assert HasNumber(s, d, s.docs[d].latestUpload);
      var v :| v in s.versions && s.versions[v].doc == d && s.versions[v].no == s.docs[d].latestUpload;
      assert KeptForSummary(s, documents, v);
    }
  }

  /** The duplicate number answered at upload is the one every later query reports for that version. */
  lemma {:induction false} DuplicateNumberIsStable(s: State, run: seq<Action>, i: nat, k: nat, r: Option<nat>, r': Option<nat>)
    requires Inv(s) && i < k <= |run|
    requires run[i].AddVersion? && Accepts(At(s, run, i), run[i])
    requires IsEarliest(At(s, run, i), run[i].d, run[i].hash, r)
    requires IsEarliest(At(s, run, k), run[i].d, run[i].hash, r')
    ensures run[i].v in At(s, run, k).versions
    ensures DuplicateOf(At(s, run, k).versions[run[i].v].no, r') == r
  {
    hide At, Apply, Accepts, Evolves, IsEarliest, NumbersGapless, TablesGrow, ReferencesHold, RowsShaped, EpochsFenced,
      SerialOrder, RetriesAfterFailure, DeleteCloses, DeletedQueued, ChunksExact, IndexedByJob, MarkerFresh;
    var pre, post := At(s, run, i), At(s, run, k);
    AtNext(s, run, i);
    InvAt(s, run, i);
    InvAt(s, run, k);
    TablesOf(s, run, i, k);
    TablesOf(s, run, i + 1, k);
    UploadTables(pre, run[i]);
    UploadedRowStays(pre, At(s, run, i + 1), post, run[i]);
    EarliestUnchanged(pre, post, run[i].d, run[i].hash, run[i].v, r, r');
  }

  lemma {:induction false} TablesOf(s: State, run: seq<Action>, i: nat, k: nat)
    requires Inv(s) && i <= k <= |run|
    ensures TablesGrow(At(s, run, i), At(s, run, k))
  {
    hide At, Inv, TablesGrow;
    RunEvolves(s, run, i, k);
  }

  lemma UploadedRowStays(pre: State, mid: State, post: State, a: Action)
    requires a.AddVersion? && Accepts(pre, a) && mid == Apply(pre, a)
    requires TablesGrow(mid, post)
    ensures a.d in pre.docs && a.v !in pre.versions && a.v in post.versions
    ensures post.versions[a.v].doc == a.d && post.versions[a.v].hash == a.hash
    ensures post.versions[a.v].no == pre.docs[a.d].latestUpload + 1
  {
  }
}
