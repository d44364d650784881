/**
  The database tables as the services change them, row by row. Each method is one transaction
  (or one locked row of the reclaim procedure) and is tied to its action of the state machine.
 */
module QueueStore {
  import opened Wrappers
  import opened IndexingQueue
  import opened QueueInvariant
  import opened QueueHistory

  datatype Error = DocumentNotFound | DocumentVersionNotFound | IndexingRetryNotAllowed | SearchableVersionNotReady

  /** What a session of the recovery job finds on its server and its transaction. */
  datatype Session = Session(writable: bool, readCommitted: bool, markerLocked: bool)

  datatype Upload = Upload(versionNo: nat, duplicateOf: Option<nat>)

  class Store {
    const maxAttempts: nat
    var now: Time
    var boot: Boot
    var bootAt: Time
    var marker: Option<Marker>
    var docs: map<DocId, Document>
    var versions: map<VersionId, Version>
    var jobs: map<JobSeq, Job>
    var chunks: set<VersionId>

    ghost function Rows(): State
      reads this
    {
      State(maxAttempts, now, boot, bootAt, marker, docs, versions, jobs, chunks)
    }

    constructor (maxAttempts: nat, now: Time, boot: Boot)
      ensures Rows() == Initial(maxAttempts, now, boot)
    {
      this.maxAttempts, this.now, this.boot, this.bootAt, this.marker := maxAttempts, now, boot, now, None;
      docs, versions, jobs, chunks := map[], map[], map[], {};
    }

    // ----- API server -------------------------------------------------------------------

    /** The version and job keys are identities drawn by the database in this transaction. */
    method CreateDocument(d: DocId, v: VersionId, hash: string, q: JobSeq) returns (r: Upload)
      requires d !in docs && v !in versions && FreshSeq(Rows(), d, q)
      modifies this
      ensures Rows() == Apply(old(Rows()), Action.CreateDocument(d, v, hash, q))
      ensures docs == old(docs)[d := Document(None, 0, 1, None)]
      ensures versions == old(versions)[v := Version(d, 1, hash, false)]
      ensures jobs.Keys == old(jobs).Keys + {q} && Queued(jobs[q], d, Index(v))
      ensures r == Upload(1, None)
    {
      docs := docs[d := Document(None, 0, 1, None)];
      SaveVersion(d, v, 1, hash, q);
      r := Upload(1, None);
    }

    /** Insert of the version row; its trigger enqueues the INDEX job in the same transaction. */
    method SaveVersion(d: DocId, v: VersionId, no: nat, hash: string, q: JobSeq)
      modifies this`versions, this`jobs
      ensures versions == old(versions)[v := Version(d, no, hash, false)]
      ensures jobs == old(jobs)[q := NewJob(d, Index(v))]
    {
      versions := versions[v := Version(d, no, hash, false)];
      jobs := jobs[q := Job(d, Index(v), Pending, None, None, 0, 0, None, None, None)];
    }

    /** Upload of another version: the number is taken and the duplicate looked up before the insert. */
    method AddVersion(d: DocId, v: VersionId, hash: string, q: JobSeq) returns (r: Result<Upload, Error>)
      requires v !in versions && FreshSeq(Rows(), d, q)
      modifies this
      ensures Rows() == Apply(old(Rows()), Action.AddVersion(d, v, hash, q))
      ensures r.Err? <==> !Active(old(Rows()), d)
      ensures r.Err? ==> r.error == DocumentNotFound
      ensures r.Ok? ==>
        && r.value.versionNo == old(docs[d].latestUpload) + 1 == docs[d].latestUpload
        && versions == old(versions)[v := Version(d, r.value.versionNo, hash, false)]
        && jobs.Keys == old(jobs).Keys + {q} && Queued(jobs[q], d, Index(v))
        && IsEarliest(old(Rows()), d, hash, r.value.duplicateOf)
    {
      if d !in docs || docs[d].deletedAt.Some? {
        return Err(DocumentNotFound);
      }
      var no := docs[d].latestUpload + 1;
      docs := docs[d := docs[d].(latestUpload := no)];
      var earliest := EarliestVersionNo(d, hash);
      SaveVersion(d, v, no, hash, q);
      r := Ok(Upload(no, earliest));
    }

    /** SELECT MIN(version_no) for one content hash. */
    method EarliestVersionNo(d: DocId, hash: string) returns (r: Option<nat>)
      ensures IsEarliest(Rows(), d, hash, r)
    {
      r := None;
      var rest := versions.Keys;
      while rest != {}
        invariant rest <= versions.Keys
        invariant forall v | v in versions && v !in rest && versions[v].doc == d && versions[v].hash == hash ::
          r.Some? && r.value <= versions[v].no
        invariant r.Some? ==> exists v | v in versions ::
          versions[v].doc == d && versions[v].hash == hash && versions[v].no == r.value
        decreases rest
      {
        var v :| v in rest;
        if versions[v].doc == d && versions[v].hash == hash && (r.None? || versions[v].no < r.value) {
          r := Some(versions[v].no);
        }
        rest := rest - {v};
      }
    }

    /** The grouped query for a page of versions: one minimum per hash that occurs in the page. */
    method EarliestVersionNos(d: DocId, hashes: set<string>) returns (m: map<string, nat>)
      ensures m.Keys <= hashes
      ensures forall h | h in hashes :: IsEarliest(Rows(), d, h, if h in m then Some(m[h]) else None)
    {
      m := map[];
      var rest := versions.Keys;
      while rest != {}
        invariant rest <= versions.Keys && m.Keys <= hashes
        invariant forall v | v in versions && v !in rest && versions[v].doc == d && versions[v].hash in hashes ::
          versions[v].hash in m && m[versions[v].hash] <= versions[v].no
        invariant forall h | h in m :: exists v | v in versions ::
          versions[v].doc == d && versions[v].hash == h && versions[v].no == m[h]
        decreases rest
      {
        var v :| v in rest;
        var row := versions[v];
        if row.doc == d && row.hash in hashes && (row.hash !in m || row.no < m[row.hash]) {
          m := m[row.hash := row.no];
        }
        rest := rest - {v};
      }
    }

    /** One page of the version list: the batched duplicate numbers equal the single lookups. */
    method PageDuplicates(d: DocId, page: seq<VersionId>) returns (r: seq<Option<nat>>)
      requires forall v | v in page :: v in versions && versions[v].doc == d
      ensures |r| == |page|
      ensures forall i, e | 0 <= i < |page| && IsEarliest(Rows(), d, versions[page[i]].hash, e) ::
        r[i] == DuplicateOf(versions[page[i]].no, e)
    {
      var m := EarliestVersionNos(d, set v | v in page :: versions[v].hash);
      r := [];
      for i := 0 to |page|
        invariant |r| == i
        invariant forall k, e | 0 <= k < i && IsEarliest(Rows(), d, versions[page[k]].hash, e) ::
          r[k] == DuplicateOf(versions[page[k]].no, e)
      {
        var row := versions[page[i]];
        r := r + [DuplicateOf(row.no, if row.hash in m then Some(m[row.hash]) else None)];
      }
    }

    /** The trigger on deleted_at enqueues the DELETE job. */
    method DeleteDocument(d: DocId, q: JobSeq) returns (r: Result<(), Error>)
      requires FreshSeq(Rows(), d, q)
      modifies this
      ensures Rows() == Apply(old(Rows()), Action.DeleteDocument(d, q))
      ensures r == if Active(old(Rows()), d) then Ok(()) else Err(DocumentNotFound)
      ensures r.Ok? ==>
        && docs == old(docs)[d := old(docs)[d].(deletedAt := Some(now))]
        && jobs.Keys == old(jobs).Keys + {q} && Queued(jobs[q], d, Kind.Delete)
    {
      if d !in docs || docs[d].deletedAt.Some? {
        return Err(DocumentNotFound);
      }
      docs := docs[d := docs[d].(deletedAt := Some(now))];
      jobs := jobs[q := Job(d, Kind.Delete, Pending, None, None, 0, 0, None, None, None)];
      r := Ok(());
    }

    /** The INDEX job of the version with the largest enqueue_seq. */
    method LatestJob(v: VersionId) returns (r: Option<JobSeq>)
      ensures r.None? <==> forall q | q in jobs :: !jobs[q].IndexOf(v)
      ensures r.Some? ==> IsLatest(Rows(), v, r.value)
    {
      r := None;
      var rest := jobs.Keys;
      while rest != {}
        invariant rest <= jobs.Keys
        invariant forall q | q in jobs && q !in rest && jobs[q].IndexOf(v) :: r.Some? && q <= r.value
        invariant r.Some? ==> r.value in jobs && jobs[r.value].IndexOf(v)
        decreases rest
      {
        var q :| q in rest;
        if jobs[q].IndexOf(v) && (r.None? || r.value < q) {
          r := Some(q);
        }
        rest := rest - {q};
      }
    }

    /** The same choice for many versions at once, from one query grouped by version. */
    method LatestJobs(vs: set<VersionId>) returns (m: map<VersionId, JobSeq>)
      ensures forall v :: v in m <==> v in vs && exists q | q in jobs :: jobs[q].IndexOf(v)
      ensures forall v, q | v in vs && IsLatest(Rows(), v, q) :: v in m && m[v] == q
    {
      m := map[];
      var rest := jobs.Keys;
      while rest != {}
        invariant rest <= jobs.Keys && m.Keys <= vs
        invariant forall q, v | q in jobs && q !in rest && v in vs && jobs[q].IndexOf(v) :: v in m && q <= m[v]
        invariant forall v | v in m :: m[v] in jobs && jobs[m[v]].IndexOf(v)
        decreases rest
      {
        var q :| q in rest;
        if jobs[q].kind.Index? && jobs[q].kind.version in vs {
          var v := jobs[q].kind.version;
          if v !in m || m[v] < q {
            m := m[v := q];
          }
        }
        rest := rest - {q};
      }
    }

    method Retry(d: DocId, v: VersionId, q: JobSeq) returns (r: Result<(), Error>)
      requires FreshSeq(Rows(), d, q)
      modifies this
      ensures Rows() == Apply(old(Rows()), Action.Retry(d, v, q))
      ensures r == if !Active(old(Rows()), d) then Err(DocumentNotFound)
                   else if !VersionOf(old(Rows()), d, v) then Err(DocumentVersionNotFound)
                   else if !LatestIsFailed(old(Rows()), v) then Err(IndexingRetryNotAllowed)
                   else Ok(())
      ensures r.Ok? ==> jobs.Keys == old(jobs).Keys + {q} && Queued(jobs[q], d, Index(v))
    {
      if d !in docs || docs[d].deletedAt.Some? {
        return Err(DocumentNotFound);
      }
      if v !in versions || versions[v].doc != d {
        return Err(DocumentVersionNotFound);
      }
      var latest := LatestJob(v);
      if latest.None? || jobs[latest.value].status != Failed {
        return Err(IndexingRetryNotAllowed);
      }
      jobs := jobs[q := NewJob(d, Index(v))];
      r := Ok(());
    }

    method UpdateSearchableVersion(d: DocId, v: VersionId) returns (r: Result<nat, Error>)
      modifies this
      ensures Rows() == Apply(old(Rows()), SetSearchable(d, v))
      ensures r == if !Active(old(Rows()), d) then Err(DocumentNotFound)
                   else if !VersionOf(old(Rows()), d, v) then Err(DocumentVersionNotFound)
                   else if !old(versions)[v].indexed then Err(SearchableVersionNotReady)
                   else Ok(old(versions)[v].no)
      ensures r.Ok? ==>
        && versions == old(versions) && versions[v].doc == d && versions[v].indexed
        && docs == old(docs)[d := old(docs)[d].(searchable := Some(v))]
    {
      if d !in docs || docs[d].deletedAt.Some? {
        return Err(DocumentNotFound);
      }
      if v !in versions || versions[v].doc != d {
        return Err(DocumentVersionNotFound);
      }
      if !versions[v].indexed {
        return Err(SearchableVersionNotReady);
      }
      docs := docs[d := docs[d].(searchable := Some(v))];
      r := Ok(versions[v].no);
    }

    // ----- worker -----------------------------------------------------------------------

    /** The claim condition of one row, evaluated by a scan for an earlier unfinished job. */
    method Claimable(q: JobSeq) returns (ok: bool)
      requires q in jobs
      ensures ok <==> Eligible(Rows(), q)
    {
      var j := jobs[q];
      if j.doc !in docs || j.worker.Some? || j.leaseUntil.Some? || j.attempts >= maxAttempts {
        return false;
      }
      if !(j.status.Pending? || (j.status.RetryWait? && j.nextRetryAt.Some? && j.nextRetryAt.value <= now)) {
        return false;
      }
      var rest := jobs.Keys;
      while rest != {}
        invariant rest <= jobs.Keys
        invariant forall p | p in jobs && p !in rest :: !(p < q && jobs[p].doc == j.doc && jobs[p].Unfinished())
        decreases rest
      {
        var p :| p in rest;
        if p < q && jobs[p].doc == j.doc && jobs[p].Unfinished() {
          return false;
        }
        rest := rest - {p};
      }
      ok := true;
    }

    /** ORDER BY enqueue_seq LIMIT 1, skipping documents that another transaction has locked. */
    method FindClaimable(locked: set<DocId>) returns (r: Option<JobSeq>)
      ensures r.None? <==> forall q | Eligible(Rows(), q) :: jobs[q].doc in locked
      ensures r.Some? ==>
        && Eligible(Rows(), r.value) && jobs[r.value].doc !in locked
        && forall q | Eligible(Rows(), q) && jobs[q].doc !in locked :: r.value <= q
    {
      r := None;
      var rest := jobs.Keys;
      while rest != {}
        invariant rest <= jobs.Keys
        invariant r.Some? ==> Eligible(Rows(), r.value) && jobs[r.value].doc !in locked
        invariant forall q | q in jobs && q !in rest && Eligible(Rows(), q) && jobs[q].doc !in locked ::
          r.Some? && r.value <= q
        decreases rest
      {
        var q :| q in rest;
        if jobs[q].doc !in locked && (r.None? || q < r.value) {
          var ok := Claimable(q);
          if ok {
            r := Some(q);
          }
        }
        rest := rest - {q};
      }
    }

    /** Takes the next job unless another transaction holds its own row; then nothing is claimed. */
    method Claim(worker: Worker, locked: set<DocId>, lockedJobs: set<JobSeq>) returns (r: Option<Token>)
      modifies this
      ensures r.Some? <==> exists q | q in old(jobs) :: NextClaim(old(Rows()), locked, q) && q !in lockedJobs
      ensures r.None? ==> Rows() == old(Rows())
      ensures r.Some? ==>
        && NextClaim(old(Rows()), locked, r.value.job)
        && Rows() == Apply(old(Rows()), Action.Claim(r.value.job, worker))
        && r.value.worker == worker
        && Live(Rows(), r.value)
        && var j, j' := old(jobs)[r.value.job], jobs[r.value.job];
        && j'.leaseUntil == Some(now + 60) && j'.attempts == j.attempts + 1
        && r.value.epoch == j'.epoch == old(docs)[j.doc].epoch + 1
    {
      var found := FindClaimable(locked);
      if found.None? || found.value in lockedJobs {
        return None;
      }
      assert NextClaim(Rows(), locked, found.value);
      var q := found.value;
      var d := jobs[q].doc;
      docs := docs[d := docs[d].(epoch := docs[d].epoch + 1)];
      jobs := jobs[q := jobs[q].(status := Processing, worker := Some(worker), epoch := docs[d].epoch)];
      jobs := jobs[q := jobs[q].(attempts := jobs[q].attempts + 1, leaseUntil := Some(now + LEASE))];
      jobs := jobs[q := jobs[q].(nextRetryAt := None, outcome := None)];
      r := Some(Token(q, worker, docs[d].epoch));
    }

    /** The WHERE clause of every worker UPDATE. */
    method Holds(tok: Token, heartbeat: bool) returns (ok: bool)
      ensures ok <==> if heartbeat then Owned(Rows(), tok) else Live(Rows(), tok)
    {
      if tok.job !in jobs {
        return false;
      }
      var j := jobs[tok.job];
      if j.status != Processing || j.worker != Some(tok.worker) || j.epoch != tok.epoch || j.leaseUntil.None? {
        return false;
      }
      if j.doc !in docs || docs[j.doc].epoch != tok.epoch {
        return false;
      }
      ok := heartbeat || j.leaseUntil.value > now;
    }

    method Heartbeat(tok: Token) returns (rows: nat)
      modifies this
      ensures Rows() == Apply(old(Rows()), Action.Heartbeat(tok))
      ensures rows == if Owned(old(Rows()), tok) then 1 else 0
      ensures rows == 1 ==>
        tok.job in old(jobs) && jobs == old(jobs)[tok.job := old(jobs)[tok.job].(leaseUntil := Some(now + 60))]
    {
      var ok := Holds(tok, true);
      if !ok {
        return 0;
      }
      jobs := jobs[tok.job := jobs[tok.job].(leaseUntil := Some(now + LEASE))];
      rows := 1;
    }

    method EnterPhase(tok: Token, phase: Phase) returns (rows: nat)
      modifies this
      ensures Rows() == Apply(old(Rows()), Action.EnterPhase(tok, phase))
      ensures rows == if Live(old(Rows()), tok) then 1 else 0
      ensures rows == 1 ==>
        tok.job in old(jobs) && jobs == old(jobs)[tok.job := old(jobs)[tok.job].(phase := Some(phase))]
    {
      var ok := Holds(tok, false);
      if !ok {
        return 0;
      }
      jobs := jobs[tok.job := jobs[tok.job].(phase := Some(phase))];
      rows := 1;
    }

    method Fail(tok: Token) returns (rows: nat)
      modifies this
      ensures Rows() == Apply(old(Rows()), Action.Fail(tok))
      ensures rows == if Live(old(Rows()), tok) then 1 else 0
      ensures rows == 1 ==> tok.job in jobs && jobs[tok.job].status == Failed && jobs[tok.job].worker.None?
    {
      var ok := Holds(tok, false);
      if !ok {
        return 0;
      }
      Release(tok.job, Failed, Some(FailedProcessing), None);
      rows := 1;
    }

    /** A transient failure: another try while attempts are left, otherwise the final failure. */
    method FailTransiently(tok: Token, at: Time) returns (rows: nat)
      modifies this
      ensures Rows() == Apply(old(Rows()), if tok.job in old(jobs) && old(jobs)[tok.job].attempts < maxAttempts
                                           then RetryLater(tok, at) else Action.Fail(tok))
      ensures rows == if Live(old(Rows()), tok) then 1 else 0
      ensures rows == 1 ==>
        if old(jobs)[tok.job].attempts < maxAttempts
        then jobs[tok.job].status == RetryWait && jobs[tok.job].nextRetryAt == Some(at)
        else jobs[tok.job].status == Failed && jobs[tok.job].nextRetryAt.None?
    {
      var ok := Holds(tok, false);
      if !ok {
        return 0;
      }
      if jobs[tok.job].attempts < maxAttempts {
        Release(tok.job, RetryWait, Some(RetryScheduled), Some(at));
      } else {
        Release(tok.job, Failed, Some(FailedProcessing), None);
      }
      rows := 1;
    }

    method Release(q: JobSeq, status: Status, outcome: Option<Outcome>, retryAt: Option<Time>)
      requires q in jobs
      modifies this`jobs
      ensures jobs == old(jobs)[q := Released(old(jobs)[q], status, outcome).(nextRetryAt := retryAt)]
    {
      jobs := jobs[q := jobs[q].(status := status, outcome := outcome)];
      jobs := jobs[q := jobs[q].(worker := None, leaseUntil := None)];
      jobs := jobs[q := jobs[q].(nextRetryAt := retryAt)];
    }

    /** Chunks, version, promotion and job in one transaction. */
    method Complete(tok: Token, skip: bool) returns (rows: nat)
      requires tok.job in jobs && jobs[tok.job].kind.Index? ==> References(Rows(), jobs[tok.job].doc, jobs[tok.job].kind.version)
      requires skip && tok.job in jobs ==> jobs[tok.job].kind.Index? && !Active(Rows(), jobs[tok.job].doc)
      modifies this
      ensures Rows() == Apply(old(Rows()), Action.Complete(tok, skip))
      ensures rows == if Live(old(Rows()), tok) then 1 else 0
      ensures rows == 1 ==> tok.job in jobs && jobs[tok.job].status == Completed && jobs[tok.job].worker.None?
      ensures rows == 1 && jobs[tok.job].kind.Index? && !skip ==>
        jobs[tok.job].kind.version in chunks && versions[jobs[tok.job].kind.version].indexed
    {
      var ok := Holds(tok, false);
      if !ok {
        return 0;
      }
      var d := jobs[tok.job].doc;
      match jobs[tok.job].kind {
      case Delete =>
        chunks := set v | v in chunks && !(v in versions && versions[v].doc == d);
        Release(tok.job, Completed, Some(Deleted), None);
      case Index(v) =>
        if skip {
          Release(tok.job, Completed, Some(SkippedDocumentDeleted), None);
        } else {
          chunks := chunks + {v};
          if docs[d].deletedAt.None? && (docs[d].searchable.None? || versions[docs[d].searchable.value].no < versions[v].no) {
            docs := docs[d := docs[d].(searchable := Some(v))];
          }
          versions := versions[v := versions[v].(indexed := true)];
          Release(tok.job, Completed, Some(Indexed), None);
        }
      }
      rows := 1;
    }

    // ----- reclaim procedure ------------------------------------------------------------

    /** Recorded once per start and timeline; a repeated call does not restart the grace period. */
    method MarkPrimary(session: Session)
      modifies this
      ensures Rows() == if session.writable then Apply(old(Rows()), Action.MarkPrimary) else old(Rows())
    {
      if !session.writable {
        return;
      }
      if marker.None? || marker.value.boot != boot {
        marker := Some(Marker(boot, now));
      }
    }

    /** The expired job that comes first by (lease_until, enqueue_seq) among the given ones. */
    method FirstExpired(among: set<JobSeq>) returns (r: Option<JobSeq>)
      requires among <= jobs.Keys
      ensures r.None? <==> forall q | q in among :: !Expired(Rows(), q)
      ensures r.Some? ==>
        && r.value in among && Expired(Rows(), r.value)
        && forall q | q in among && Expired(Rows(), q) :: q == r.value || LeasedBefore(Rows(), r.value, q)
    {
      r := None;
      var rest := among;
      while rest != {}
        invariant rest <= among
        invariant r.Some? ==> r.value in among && Expired(Rows(), r.value)
        invariant forall q | q in among && q !in rest && Expired(Rows(), q) ::
          r.Some? && (q == r.value || LeasedBefore(Rows(), r.value, q))
        decreases rest
      {
        var q :| q in rest;
        var j := jobs[q];
        if j.doc in docs && j.status.Processing? && j.leaseUntil.Some? && j.leaseUntil.value <= now {
          if r.None? {
            r := Some(q);
          } else {
            var best := jobs[r.value].leaseUntil.value;
            if j.leaseUntil.value < best || (j.leaseUntil.value == best && q < r.value) {
              r := Some(q);
            }
          }
        }
        rest := rest - {q};
      }
    }

    /** The candidate query: the first `batch` expired jobs by (lease_until, enqueue_seq). */
    method SelectCandidates(batch: nat) returns (cs: seq<Candidate>)
      ensures IsBatch(Rows(), batch, cs)
    {
      cs := [];
      var rest := jobs.Keys;
      while |cs| < batch
        invariant rest <= jobs.Keys && |cs| <= batch
        invariant forall q | q in jobs :: q in rest <==> !Picked(cs, q)
        invariant forall c | c in cs :: Expired(Rows(), c.job) && c == ReadCandidate(Rows(), c.job)
        invariant forall i, k | 0 <= i < k < |cs| :: LeasedBefore(Rows(), cs[i].job, cs[k].job)
        invariant forall c, q | c in cs && q in rest && Expired(Rows(), q) :: LeasedBefore(Rows(), c.job, q)
        decreases batch - |cs|
      {
        var first := FirstExpired(rest);
        if first.None? {
          return;
        }
        var q := first.value;
        var c := Candidate(q, jobs[q].doc, jobs[q].worker, jobs[q].epoch, jobs[q].leaseUntil, docs[jobs[q].doc].epoch);
        ghost var before := cs;
        cs := cs + [c];
        rest := rest - {q};
        assert forall p :: Picked(cs, p) <==> Picked(before, p) || p == q by {
          assert cs[|before|] == c;
        }
      }
    }

    /** Lock, re-validate and return one candidate; a locked document or job row is skipped. */
    method ReclaimOne(c: Candidate, locked: bool) returns (taken: bool)
      requires MayRecover(Rows())
      modifies this
      ensures taken <==> !locked && StillReclaimable(old(Rows()), c)
      ensures Rows() == if taken then Apply(old(Rows()), Action.Reclaim(c)) else old(Rows())
      ensures taken ==> jobs == old(jobs)[c.job := old(jobs)[c.job].(
        status := Pending, worker := None, leaseUntil := None, nextRetryAt := None)]
    {
      if locked || c.doc !in docs || c.job !in jobs {
        return false;
      }
      var j := jobs[c.job];
      if j.status != Processing || j.doc != c.doc || j.worker != c.worker || j.epoch != c.epoch
         || docs[c.doc].epoch != c.docEpoch || j.leaseUntil != c.leaseUntil || j.leaseUntil.None?
         || j.leaseUntil.value > now {
        return false;
      }
      Release(c.job, Pending, j.outcome, None);
      taken := true;
    }

    /**
      The whole procedure when nothing interleaves: exactly the unlocked jobs of the batch go
      back to PENDING and every other row is as before.
     */
    method ReclaimExpired(session: Session, batch: Option<int>, lockedDocs: set<DocId>, lockedJobs: set<JobSeq>)
      returns (r: Result<seq<Candidate>, string>)
      modifies this
      ensures r.Err? <==>
        session.writable && !(session.readCommitted && batch.Some? && 1 <= batch.value <= 1000)
      ensures r.Err? || !session.writable || session.markerLocked || !MayRecover(old(Rows())) ==> Rows() == old(Rows())
      ensures r.Ok? && session.writable && !session.markerLocked && MayRecover(old(Rows())) ==>
        && IsBatch(old(Rows()), batch.value, r.value)
        && Returned(old(Rows()), Rows(), r.value, lockedDocs, lockedJobs)
    {
      if !session.writable {
        return Ok([]);
      }
      if !session.readCommitted {
        return Err("Recovery requires READ COMMITTED isolation");
      }
      if batch.None? || batch.value < 1 || batch.value > 1000 {
        return Err("Recovery batch size must be between 1 and 1000");
      }
      if session.markerLocked || marker.None? {
        return Ok([]);
      }
      if marker.value.boot != boot || now < marker.value.writableSince + GRACE {
        return Ok([]);
      }
      var cs := SelectCandidates(batch.value);
      ghost var s := Rows();
      for i := 0 to |cs|
        invariant Returned(s, Rows(), cs[..i], lockedDocs, lockedJobs)
      {
        ghost var m := Rows();
        var taken := ReclaimOne(cs[i], cs[i].doc in lockedDocs || cs[i].job in lockedJobs);
        ReturnNext(s, m, Rows(), batch.value, cs, i, lockedDocs, lockedJobs);
      }
      assert cs[..|cs|] == cs;
      r := Ok(cs);
    }
  }

  /** A job row as the triggers and the retry insert it. */
  predicate Queued(j: Job, d: DocId, kind: Kind) {
    && j.doc == d && j.kind == kind && j.status == Pending
    && j.worker.None? && j.leaseUntil.None? && j.epoch == 0 && j.attempts == 0
    && j.nextRetryAt.None? && j.outcome.None? && j.phase.None?
  }

  /** The claimable job of an unlocked document with the smallest enqueue_seq. */
  ghost predicate NextClaim(s: State, locked: set<DocId>, q: JobSeq) {
    && Eligible(s, q) && s.jobs[q].doc !in locked
    && forall p | Eligible(s, p) && s.jobs[p].doc !in locked :: q <= p
  }

  ghost predicate LeasedBefore(s: State, p: JobSeq, q: JobSeq)
    requires Expired(s, p) && Expired(s, q)
  {
    var lp, lq := s.jobs[p].leaseUntil.value, s.jobs[q].leaseUntil.value;
    lp < lq || (lp == lq && p < q)
  }

  ghost predicate Picked(cs: seq<Candidate>, q: JobSeq) {
    exists c | c in cs :: c.job == q
  }

  /** cs are the first `batch` expired jobs in order, each as it stands. */
  ghost predicate IsBatch(s: State, batch: nat, cs: seq<Candidate>) {
    && |cs| <= batch
    && (forall c | c in cs :: Expired(s, c.job) && c == ReadCandidate(s, c.job))
    && (forall i, k | 0 <= i < k < |cs| :: LeasedBefore(s, cs[i].job, cs[k].job))
    && (forall q | Expired(s, q) && !Picked(cs, q) ::
          |cs| == batch && forall c | c in cs :: LeasedBefore(s, c.job, q))
  }

  lemma PickedNext(s: State, batch: nat, cs: seq<Candidate>, i: nat)
    requires IsBatch(s, batch, cs) && i < |cs|
    ensures !Picked(cs[..i], cs[i].job)
    ensures forall q :: Picked(cs[..i + 1], q) <==> Picked(cs[..i], q) || q == cs[i].job
  {
    assert cs[..i + 1] == cs[..i] + [cs[i]];
    forall q
      ensures Picked(cs[..i + 1], q) <==> Picked(cs[..i], q) || q == cs[i].job
    {
      if q == cs[i].job {
        assert cs[..i + 1][i] == cs[i];
      }
      if Picked(cs[..i], q) {
        var c :| c in cs[..i] && c.job == q;
        assert c in cs[..i + 1];
      }
    }
  }

  /** Exactly the unlocked picked jobs went back to PENDING. */
  ghost predicate Returned(s: State, s': State, cs: seq<Candidate>, lockedDocs: set<DocId>, lockedJobs: set<JobSeq>) {
    && s' == s.(jobs := s'.jobs)
    && s'.jobs.Keys == s.jobs.Keys
    && forall q | q in s.jobs ::
         s'.jobs[q] == if Picked(cs, q) && q !in lockedJobs && s.jobs[q].doc !in lockedDocs
                       then Released(s.jobs[q], Pending, s.jobs[q].outcome) else s.jobs[q]
  }

  lemma ReturnNext(s: State, m: State, s': State, batch: nat, cs: seq<Candidate>, i: nat, lockedDocs: set<DocId>, lockedJobs: set<JobSeq>)
    requires IsBatch(s, batch, cs) && i < |cs| && MayRecover(s)
    requires Returned(s, m, cs[..i], lockedDocs, lockedJobs)
    requires s' == if cs[i].doc in lockedDocs || cs[i].job in lockedJobs then m else Apply(m, Action.Reclaim(cs[i]))
    ensures Returned(s, s', cs[..i + 1], lockedDocs, lockedJobs)
  {
    var c := cs[i];
    PickedNext(s, batch, cs, i);
    assert c in cs && Expired(s, c.job);
    assert m.jobs[c.job] == s.jobs[c.job];
    assert StillReclaimable(m, c);
    hide IsBatch, Picked, Apply;
    ReclaimEffect(m, c);
  }

  lemma ReclaimEffect(s: State, c: Candidate)
    requires StillReclaimable(s, c)
    ensures Apply(s, Action.Reclaim(c)) == s.(jobs := s.jobs[c.job := Released(s.jobs[c.job], Pending, s.jobs[c.job].outcome)])
  {
  }
}
