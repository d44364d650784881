/**
  The indexing-job queue as a state machine over committed transactions.

  Every transaction of the API server, the worker and the reclaim procedure takes the row
  lock of one document first, so each is one atomic action. `Apply` is total: an action whose
  guard fails is a rejected request or an UPDATE of zero rows and leaves the state alone.
  A run is any finite sequence of actions; an adversary picks the order, the clock, the
  fresh keys, stale tokens and stale reclaim candidates.
 */
module IndexingQueue {
  import opened Wrappers

  type DocId = nat
  type VersionId = nat
  type JobSeq = nat  // enqueue_seq: a unique key of the job row
  type Worker = string
  type Time = int

  const LEASE: int := 60            // seconds a claim or a heartbeat grants
  const GRACE: int := 30            // seconds after becoming writable before reclaiming

  datatype Status = Pending | Processing | RetryWait | Completed | Failed

  datatype Kind = Index(version: VersionId) | Delete

  datatype Outcome = Indexed | Deleted | SkippedDocumentDeleted | RetryScheduled | FailedProcessing

  datatype Phase = Downloading | Parsing | Chunking | Embedding

  datatype Job = Job(
    doc: DocId, kind: Kind, status: Status,
    worker: Option<Worker>, leaseUntil: Option<Time>,
    epoch: nat, attempts: nat,
    nextRetryAt: Option<Time>, outcome: Option<Outcome>, phase: Option<Phase>)
  {
    predicate Unfinished() { status.Pending? || status.Processing? || status.RetryWait? }

    predicate Untouched() { status.Pending? && attempts == 0 && epoch == 0 }

    predicate IndexOf(v: VersionId) { kind == Index(v) }
  }

  datatype Version = Version(doc: DocId, no: nat, hash: string, indexed: bool)

  datatype Document = Document(
    deletedAt: Option<Time>, epoch: nat, latestUpload: nat, searchable: Option<VersionId>)

  /** A server start: Patroni bumps the timeline on promotion, a restart moves the start time. */
  datatype Boot = Boot(timeline: nat, started: Time)

  datatype Marker = Marker(boot: Boot, writableSince: Time)

  datatype State = State(
    maxAttempts: nat, now: Time,
    boot: Boot, bootAt: Time, marker: Option<Marker>,
    docs: map<DocId, Document>,
    versions: map<VersionId, Version>,
    jobs: map<JobSeq, Job>,
    chunks: set<VersionId>)  // versions that have chunk rows

  /** What a worker holds after a claim. */
  datatype Token = Token(job: JobSeq, worker: Worker, epoch: nat)

  /** A row of the candidate query of the reclaim procedure. */
  datatype Candidate = Candidate(
    job: JobSeq, doc: DocId, worker: Option<Worker>, epoch: nat, leaseUntil: Option<Time>, docEpoch: nat)

  datatype Action =
    | Tick(t: Time)
    | Reboot(b: Boot)
    | MarkPrimary
    | CreateDocument(d: DocId, v: VersionId, hash: string, q: JobSeq)
    | AddVersion(d: DocId, v: VersionId, hash: string, q: JobSeq)
    | DeleteDocument(d: DocId, q: JobSeq)
    | Retry(d: DocId, v: VersionId, q: JobSeq)
    | SetSearchable(d: DocId, v: VersionId)
    | Claim(q: JobSeq, worker: Worker)
    | Heartbeat(tok: Token)
    | EnterPhase(tok: Token, phase: Phase)
    | Complete(tok: Token, skip: bool)
    | Fail(tok: Token)
    | RetryLater(tok: Token, at: Time)
    | Reclaim(c: Candidate)

  // ----- guards ---------------------------------------------------------------------------

  predicate Active(s: State, d: DocId) { d in s.docs && s.docs[d].deletedAt.None? }

  /** An identity value drawn under the document lock: new, and above the document's earlier ones. */
  predicate FreshSeq(s: State, d: DocId, q: JobSeq) {
    q !in s.jobs && forall k | k in s.jobs && s.jobs[k].doc == d :: k < q
  }

  predicate VersionOf(s: State, d: DocId, v: VersionId) { v in s.versions && s.versions[v].doc == d }

  /** The latest INDEX job of the version exists and is FAILED. */
  predicate LatestIsFailed(s: State, v: VersionId) {
    exists q | q in s.jobs :: IsLatest(s, v, q) && s.jobs[q].status.Failed?
  }

  predicate IsLatest(s: State, v: VersionId, q: JobSeq) {
    && q in s.jobs
    && s.jobs[q].IndexOf(v)
    && forall k | k in s.jobs && s.jobs[k].IndexOf(v) :: k <= q
  }

  predicate BlockedByEarlier(s: State, q: JobSeq)
    requires q in s.jobs
  {
    exists p | p in s.jobs :: p < q && s.jobs[p].doc == s.jobs[q].doc && s.jobs[p].Unfinished()
  }

  predicate Eligible(s: State, q: JobSeq) {
    && q in s.jobs
    && s.jobs[q].doc in s.docs
    && s.jobs[q].worker.None?
    && s.jobs[q].leaseUntil.None?
    && s.jobs[q].attempts < s.maxAttempts
    && (s.jobs[q].status.Pending?
        || (s.jobs[q].status.RetryWait? && s.jobs[q].nextRetryAt.Some? && s.jobs[q].nextRetryAt.value <= s.now))
    && !BlockedByEarlier(s, q)
  }

  /** The token condition of every worker UPDATE. */
  predicate Owned(s: State, tok: Token) {
    && tok.job in s.jobs
    && var j := s.jobs[tok.job];
    && j.status.Processing?
    && j.worker == Some(tok.worker)
    && j.epoch == tok.epoch
    && j.leaseUntil.Some?
    && j.doc in s.docs
    && s.docs[j.doc].epoch == tok.epoch
  }

  /** Result writes also need a live lease; a heartbeat does not. */
  predicate Live(s: State, tok: Token) {
    Owned(s, tok) && s.jobs[tok.job].leaseUntil.value > s.now
  }

  predicate Expired(s: State, q: JobSeq) {
    && q in s.jobs
    && s.jobs[q].doc in s.docs
    && s.jobs[q].status.Processing?
    && s.jobs[q].leaseUntil.Some?
    && s.jobs[q].leaseUntil.value <= s.now
  }

  /** What the candidate query reads for one expired job. */
  function ReadCandidate(s: State, q: JobSeq): Candidate
    requires Expired(s, q)
  {
    var j := s.jobs[q];
    Candidate(q, j.doc, j.worker, j.epoch, j.leaseUntil, s.docs[j.doc].epoch)
  }

  predicate MayRecover(s: State) {
    s.marker.Some? && s.marker.value.boot == s.boot && s.now >= s.marker.value.writableSince + GRACE
  }

  /** The re-validation after both row locks are held. */
  predicate StillReclaimable(s: State, c: Candidate) {
    && MayRecover(s)
    && c.job in s.jobs
    && c.doc in s.docs
    && var j := s.jobs[c.job];
    && j.status.Processing?
    && j.doc == c.doc
    && j.worker == c.worker
    && j.epoch == c.epoch
    && s.docs[c.doc].epoch == c.docEpoch
    && j.leaseUntil == c.leaseUntil
    && j.leaseUntil.Some?
    && j.leaseUntil.value <= s.now
  }

  /** The composite foreign keys that the completing transaction reads through. */
  predicate References(s: State, d: DocId, v: VersionId) {
    && d in s.docs
    && VersionOf(s, d, v)
    && (s.docs[d].searchable.Some? ==> VersionOf(s, d, s.docs[d].searchable.value))
  }

  predicate LaterBoot(a: Boot, b: Boot) {
    a.timeline < b.timeline || (a.timeline == b.timeline && a.started < b.started)
  }

  /** Whether the action takes effect; otherwise it is refused or updates no row. */
  predicate Accepts(s: State, a: Action) {
    match a
    case Tick(t) => s.now <= t
    case Reboot(b) => LaterBoot(s.boot, b)
    case MarkPrimary => s.marker.None? || s.marker.value.boot != s.boot
    case CreateDocument(d, v, _, q) => d !in s.docs && v !in s.versions && FreshSeq(s, d, q)
    case AddVersion(d, v, _, q) => Active(s, d) && v !in s.versions && FreshSeq(s, d, q)
    case DeleteDocument(d, q) => Active(s, d) && FreshSeq(s, d, q)
    case Retry(d, v, q) => Active(s, d) && VersionOf(s, d, v) && LatestIsFailed(s, v) && FreshSeq(s, d, q)
    case SetSearchable(d, v) => Active(s, d) && VersionOf(s, d, v) && s.versions[v].indexed
    case Claim(q, _) => Eligible(s, q)
    case Heartbeat(tok) => Owned(s, tok)
    case EnterPhase(tok, _) => Live(s, tok)
    case Complete(tok, skip) =>
      && Live(s, tok)
      && var j := s.jobs[tok.job];
      && (j.kind.Index? ==> References(s, j.doc, j.kind.version))
      && (skip ==> j.kind.Index? && !Active(s, j.doc))
    case Fail(tok) => Live(s, tok)
    case RetryLater(tok, _) => Live(s, tok) && s.jobs[tok.job].attempts < s.maxAttempts
    case Reclaim(c) => StillReclaimable(s, c)
  }

  // ----- effects --------------------------------------------------------------------------

  function NewJob(d: DocId, kind: Kind): Job {
    Job(d, kind, Pending, None, None, 0, 0, None, None, None)
  }

  function Enqueue(s: State, q: JobSeq, d: DocId, kind: Kind): State {
    s.(jobs := s.jobs[q := NewJob(d, kind)])
  }

  /** Release of the execution right into a given status. */
  function Released(j: Job, status: Status, outcome: Option<Outcome>): Job {
    j.(status := status, worker := None, leaseUntil := None, nextRetryAt := None, outcome := outcome)
  }

  /** A finished INDEX job raises the searchable version, never lowers it, and not on a deleted document. */
  function Promote(s: State, d: DocId, v: VersionId): Document
    requires d in s.docs && References(s, d, v)
  {
    var doc := s.docs[d];
    if doc.deletedAt.None?
       && (doc.searchable.None? || s.versions[doc.searchable.value].no < s.versions[v].no)
    then doc.(searchable := Some(v))
    else doc
  }

  /** Chunks, version completion, promotion and job completion in one transaction. */
  function CompleteJob(s: State, q: JobSeq, skip: bool): State
    requires q in s.jobs && s.jobs[q].doc in s.docs
    requires s.jobs[q].kind.Index? ==> References(s, s.jobs[q].doc, s.jobs[q].kind.version)
  {
    var j := s.jobs[q];
    match j.kind
    case Delete =>
      s.(jobs := s.jobs[q := Released(j, Completed, Some(Deleted))],
         chunks := set v | v in s.chunks && !VersionOf(s, j.doc, v))
    case Index(v) =>
      if skip then
        s.(jobs := s.jobs[q := Released(j, Completed, Some(SkippedDocumentDeleted))])
      else
        s.(jobs := s.jobs[q := Released(j, Completed, Some(Indexed))],
           versions := s.versions[v := s.versions[v].(indexed := true)],
           docs := s.docs[j.doc := Promote(s, j.doc, v)],
           chunks := s.chunks + {v})
  }

  function Apply(s: State, a: Action): State {
    if !Accepts(s, a) then s else
    match a
    case Tick(t) => s.(now := t)
    case Reboot(b) => s.(boot := b, bootAt := s.now)
    case MarkPrimary => s.(marker := Some(Marker(s.boot, s.now)))
    case CreateDocument(d, v, hash, q) =>
      Enqueue(s.(docs := s.docs[d := Document(None, 0, 1, None)],
                 versions := s.versions[v := Version(d, 1, hash, false)]), q, d, Index(v))
    case AddVersion(d, v, hash, q) =>
      var no := s.docs[d].latestUpload + 1;
      Enqueue(s.(docs := s.docs[d := s.docs[d].(latestUpload := no)],
                 versions := s.versions[v := Version(d, no, hash, false)]), q, d, Index(v))
    case DeleteDocument(d, q) =>
      Enqueue(s.(docs := s.docs[d := s.docs[d].(deletedAt := Some(s.now))]), q, d, Kind.Delete)
    case Retry(d, v, q) => Enqueue(s, q, d, Index(v))
    case SetSearchable(d, v) => s.(docs := s.docs[d := s.docs[d].(searchable := Some(v))])
    case Claim(q, w) =>
      var j := s.jobs[q];
      var e := s.docs[j.doc].epoch + 1;
      s.(docs := s.docs[j.doc := s.docs[j.doc].(epoch := e)],
         jobs := s.jobs[q := j.(status := Processing, worker := Some(w), leaseUntil := Some(s.now + LEASE),
                                epoch := e, attempts := j.attempts + 1, nextRetryAt := None, outcome := None)])
    case Heartbeat(tok) =>
      s.(jobs := s.jobs[tok.job := s.jobs[tok.job].(leaseUntil := Some(s.now + LEASE))])
    case EnterPhase(tok, p) =>
      s.(jobs := s.jobs[tok.job := s.jobs[tok.job].(phase := Some(p))])
    case Complete(tok, skip) => CompleteJob(s, tok.job, skip)
    case Fail(tok) =>
      s.(jobs := s.jobs[tok.job := Released(s.jobs[tok.job], Failed, Some(FailedProcessing))])
    case RetryLater(tok, at) =>
      s.(jobs := s.jobs[tok.job :=
           Released(s.jobs[tok.job], RetryWait, Some(RetryScheduled)).(nextRetryAt := Some(at))])
    case Reclaim(c) =>
      s.(jobs := s.jobs[c.job := Released(s.jobs[c.job], Pending, s.jobs[c.job].outcome)])
  }

  // ----- runs -----------------------------------------------------------------------------

  function Initial(maxAttempts: nat, now: Time, boot: Boot): State {
    State(maxAttempts, now, boot, now, None, map[], map[], map[], {})
  }

  /** The state after the whole run. */
  function Exec(s: State, run: seq<Action>): State {
    if run == [] then s else Apply(Exec(s, run[..|run| - 1]), run[|run| - 1])
  }

  /** The state before action i of the run. */
  function At(s: State, run: seq<Action>, i: nat): State
    requires i <= |run|
  {
    Exec(s, run[..i])
  }
}
