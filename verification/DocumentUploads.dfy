/**
 Files and rows of an upload batch (backend/app/services/document_uploads.py,
 lines 85-171). Any number of batches run at once, one visible step at a time; an
 exception, a cancellation or the end of the process can come after every step,
 an unlink can fail, and a commit that raised may or may not have taken effect,
 even later.
 */
module DocumentUploads {
  import opened Wrappers

  type Path = nat
  type DocId = nat
  type Data = seq<bv8>

  /** The file a row refers to, and the validated bytes that it was stored for. */
  datatype Row = Row(path: Path, data: Data)

  datatype Exc = NoError | HttpError | OtherError | Cancelled

  datatype Reply = Propagate(exc: Exc) | SaveFailed | OutcomeUncertain

  datatype Phase =
    | Open
    | Writing(path: Path, data: Data)
    | Committing
    | Leaving(exc: Exc)
    | Cleaning(next: nat, cause: Exc)
    | Closed(reply: Reply)
    | Crashed

  /** `held` are the paths of the batch that it has not unlinked; `effect` says whether
      the database has applied its transaction. */
  datatype Batch = Batch(
    phase: Phase, held: seq<Path>, staged: map<DocId, Row>,
    attempted: bool, committed: bool, effect: bool, unlinkFailed: bool)

  datatype World = World(files: map<Path, Data>, rows: map<DocId, Row>, batches: seq<Batch>)

  datatype Move =
    | Create(path: Path, data: Data)
    | WriteMore(written: nat)
    | Stage(doc: DocId)
    | Raise(exc: Exc)
    | Attempt
    | TakeEffect
    | Confirm
    | Leave
    | Unlink(ok: bool)
    | Crash

  datatype Step = Begin | By(batch: nat, move: Move) | DeleteRow(doc: DocId)

  /** What leaving the block answers. */
  function ExitReply(exc: Exc, attempted: bool, committed: bool): Reply {
    if committed then Propagate(exc)
    else if exc == Cancelled then Propagate(exc)
    else if exc == HttpError && !attempted then Propagate(exc)
    else if attempted then OutcomeUncertain
    else SaveFailed
  }

  /** Nothing is hidden once the commit is confirmed; before an attempt only the errors
      meant for the client and a cancellation pass, after one only a cancellation. */
  lemma {:induction false} ExitReplyMeaning(exc: Exc, attempted: bool, committed: bool)
    ensures var r := ExitReply(exc, attempted, committed);
            && (r == SaveFailed <==> !committed && !attempted && (exc == NoError || exc == OtherError))
            && (r == OutcomeUncertain <==> !committed && attempted && exc != Cancelled)
            && (r != SaveFailed && r != OutcomeUncertain ==> r == Propagate(exc))
  {
  }

  // ----- one step of one batch -----

  datatype Local = Local(files: map<Path, Data>, rows: map<DocId, Row>, batch: Batch)

  const FRESH := Batch(Open, [], map[], false, false, false, false)

  /** An exclusive create: a path that exists already is an error, and is not held. */
  function CreateFile(files: map<Path, Data>, rows: map<DocId, Row>, b: Batch, path: Path, data: Data): Local {
    if path in files then Local(files, rows, b.(phase := Leaving(OtherError)))
    else Local(files[path := []], rows, b.(phase := Writing(path, data), held := b.held + [path]))
  }

  function WriteFile(files: map<Path, Data>, rows: map<DocId, Row>, b: Batch, written: nat): Local
    requires b.phase.Writing? && written <= |b.phase.data|
  {
    Local(files[b.phase.path := b.phase.data[..written]], rows, b)
  }

  function UnlinkNext(files: map<Path, Data>, rows: map<DocId, Row>, b: Batch, ok: bool): Local
    requires b.phase.Cleaning? && b.phase.next < |b.held|
  {
    var k := b.phase.next;
    if ok then Local(files - {b.held[k]}, rows, b.(held := b.held[..k] + b.held[k + 1..]))
    else Local(files, rows, b.(phase := b.phase.(next := k + 1), unlinkFailed := true))
  }

  /** Leaving the block: keep everything after a commit attempt, clean up otherwise. */
  function LeaveBlock(b: Batch): Batch {
    match b.phase
    case Leaving(exc) =>
      if b.attempted then b.(phase := Closed(ExitReply(exc, true, b.committed)))
      else b.(phase := Cleaning(0, exc), staged := map[])
    case Cleaning(next, cause) =>
      if next == |b.held| then b.(phase := Closed(ExitReply(cause, false, false))) else b
    case _ => b
  }

  function StageFile(files: map<Path, Data>, b: Batch, doc: DocId): Batch
    requires b.phase.Writing?
  {
    var path, data := b.phase.path, b.phase.data;
    if path !in files || files[path] != data then b
    else b.(phase := Open, staged := b.staged[doc := Row(path, data)])
  }

  /** The steps that only change what the batch knows. */
  function Note(files: map<Path, Data>, b: Batch, m: Move): Batch {
    match m
    case Stage(doc) => if b.phase.Writing? then StageFile(files, b, doc) else b
    case Raise(exc) =>
      if b.phase.Open? || b.phase.Writing? || b.phase.Committing? then b.(phase := Leaving(exc)) else b
    case Attempt => if b.phase.Open? then b.(phase := Committing, attempted := true) else b
    case Confirm => if b.phase.Committing? && b.effect then b.(phase := Leaving(NoError), committed := true) else b
    case Leave => LeaveBlock(b)
    case Crash => if b.phase.Closed? then b else b.(phase := Crashed)
    case _ => b
  }

  /** A move that is not possible now leaves everything as it is. */
  function Act(files: map<Path, Data>, rows: map<DocId, Row>, b: Batch, m: Move): Local {
    match m
    case Create(path, data) =>
      if b.phase.Open? then CreateFile(files, rows, b, path, data) else Local(files, rows, b)
    case WriteMore(n) =>
      if b.phase.Writing? && n <= |b.phase.data| then WriteFile(files, rows, b, n) else Local(files, rows, b)
    case Unlink(ok) =>
      if b.phase.Cleaning? && b.phase.next < |b.held| then UnlinkNext(files, rows, b, ok) else Local(files, rows, b)
    case TakeEffect =>
      if b.attempted && !b.effect then Local(files, rows + b.staged, b.(effect := true)) else Local(files, rows, b)
    case _ => Local(files, rows, Note(files, b, m))
  }

  function Do(w: World, step: Step): World {
    match step
    case Begin => w.(batches := w.batches + [FRESH])
    case By(i, m) =>
      if i >= |w.batches| then w
      else
        var l := Act(w.files, w.rows, w.batches[i], m);
        World(l.files, l.rows, w.batches[i := l.batch])
    case DeleteRow(doc) => w.(rows := w.rows - {doc})
  }

  function Run(w: World, steps: seq<Step>): World {
    if steps == [] then w else Do(Run(w, steps[..|steps| - 1]), steps[|steps| - 1])
  }

  // ----- the invariant -----

  ghost predicate Complete(files: map<Path, Data>, row: Row) {
    row.path in files && files[row.path] == row.data
  }

  ghost predicate RowsComplete(files: map<Path, Data>, rows: map<DocId, Row>) {
    forall d :: d in rows ==> Complete(files, rows[d])
  }

  ghost predicate Distinct(paths: seq<Path>) {
    forall k, l :: 0 <= k < l < |paths| ==> paths[k] != paths[l]
  }

  /** A batch holds existing files that no row refers to before its commit attempt. */
  ghost predicate Holds(files: map<Path, Data>, rows: map<DocId, Row>, b: Batch) {
    && Distinct(b.held)
    && (forall p :: p in b.held ==> p in files)
    && (!b.attempted ==> forall d :: d in rows ==> rows[d].path !in b.held)
  }

  ghost predicate StagedComplete(files: map<Path, Data>, b: Batch) {
    forall d :: d in b.staged ==> b.staged[d].path in b.held && Complete(files, b.staged[d])
  }

  /** Flags and phases go together. */
  ghost predicate Coherent(b: Batch) {
    && (b.committed ==> b.effect) && (b.effect ==> b.attempted)
    && (b.phase.Open? || b.phase.Writing? || b.phase.Cleaning? ==> !b.attempted)
    && (b.phase.Committing? ==> b.attempted && !b.committed)
    && (b.phase.Writing? ==> b.phase.path in b.held && forall d :: d in b.staged ==> b.staged[d].path != b.phase.path)
    && (b.phase.Cleaning? ==> b.staged == map[] && b.phase.next <= |b.held| && (b.unlinkFailed || b.phase.next == 0))
    && (b.unlinkFailed ==> !b.attempted)
    && (b.phase.Closed? && !b.attempted && !b.unlinkFailed ==> b.held == [])
    && (b.phase.Closed? ==> Honest(b, b.phase.reply))
    && (b.phase.Leaving? && b.committed ==> b.phase.exc == NoError)
    && (!b.phase.Cleaning? && !b.phase.Closed? && !b.phase.Crashed? ==> !b.unlinkFailed)
  }

  /** What an answer says about the transaction. */
  ghost predicate Honest(b: Batch, reply: Reply) {
    match reply
    case Propagate(exc) => (exc == NoError <==> b.committed) && (exc != NoError && exc != Cancelled ==> !b.attempted)
    case SaveFailed => !b.attempted
    case OutcomeUncertain => b.attempted && !b.committed
  }

  ghost predicate LocalInv(files: map<Path, Data>, rows: map<DocId, Row>, b: Batch) {
    Coherent(b) && Holds(files, rows, b) && StagedComplete(files, b)
  }

  ghost predicate Apart(b: Batch, c: Batch) {
    forall p :: p in b.held ==> p !in c.held
  }

  ghost predicate Inv(w: World) {
    && RowsComplete(w.files, w.rows)
    && (forall i :: 0 <= i < |w.batches| ==> LocalInv(w.files, w.rows, w.batches[i]))
    && (forall i, j :: 0 <= i < j < |w.batches| ==> Apart(w.batches[i], w.batches[j]))
  }

  // ----- what a step touches -----

  /** A step changes a file only when the batch holds it before its commit attempt, or creates it. */
  ghost predicate Frame(files: map<Path, Data>, b: Batch, l: Local) {
    && (forall p :: p in files && !(p in b.held && !b.attempted) ==> p in l.files && l.files[p] == files[p])
    && (forall p :: p in l.files && p !in files ==> p in l.batch.held)
    && (forall p :: p in l.batch.held ==> p in b.held || p !in files)
    && (b.attempted ==> l.batch.attempted && l.batch.held == b.held)
  }

  lemma {:induction false} WithoutOne(held: seq<Path>, k: nat)
    requires k < |held| && Distinct(held)
    ensures var rest := held[..k] + held[k + 1..];
            && Distinct(rest) && held[k] !in rest
            && forall p :: p in rest <==> p in held && p != held[k]
  {
  }

  /** What a step keeps of one batch and the files it holds. */
  ghost predicate Keeps(files: map<Path, Data>, b: Batch, l: Local) {
    && Frame(files, b, l) && Coherent(l.batch) && Holds(l.files, l.rows, l.batch) && StagedComplete(l.files, l.batch)
  }

  lemma {:induction false} CreateKeeps(files: map<Path, Data>, rows: map<DocId, Row>, b: Batch, path: Path, data: Data)
    requires LocalInv(files, rows, b) && RowsComplete(files, rows) && b.phase.Open?
    ensures Keeps(files, b, CreateFile(files, rows, b, path, data))
  {
  }

  lemma {:induction false} WriteKeeps(files: map<Path, Data>, rows: map<DocId, Row>, b: Batch, n: nat)
    requires LocalInv(files, rows, b) && b.phase.Writing? && n <= |b.phase.data|
    ensures Keeps(files, b, WriteFile(files, rows, b, n))
  {
  }

  lemma {:induction false} UnlinkKeeps(files: map<Path, Data>, rows: map<DocId, Row>, b: Batch, ok: bool)
    requires LocalInv(files, rows, b) && b.phase.Cleaning? && b.phase.next < |b.held|
    ensures Keeps(files, b, UnlinkNext(files, rows, b, ok))
  {
    WithoutOne(b.held, b.phase.next);
  }

  lemma {:induction false} NoteKeeps(files: map<Path, Data>, rows: map<DocId, Row>, b: Batch, m: Move)
    requires LocalInv(files, rows, b)
    ensures Keeps(files, b, Local(files, rows, Note(files, b, m)))
  {
    assert Note(files, b, m).held == b.held;
  }

  lemma {:induction false} EffectKeeps(files: map<Path, Data>, rows: map<DocId, Row>, b: Batch)
    requires LocalInv(files, rows, b) && b.attempted
    ensures Keeps(files, b, Local(files, rows + b.staged, b.(effect := true)))
  {
  }

  lemma {:induction false} ActKeeps(files: map<Path, Data>, rows: map<DocId, Row>, b: Batch, m: Move)
    requires LocalInv(files, rows, b) && RowsComplete(files, rows)
    ensures Keeps(files, b, Act(files, rows, b, m))
  {
    match m
    case Create(path, data) =>
      if b.phase.Open? {
        CreateKeeps(files, rows, b, path, data);
      }
    case WriteMore(n) =>
      if b.phase.Writing? && n <= |b.phase.data| {
        WriteKeeps(files, rows, b, n);
      }
    case Unlink(ok) =>
      if b.phase.Cleaning? && b.phase.next < |b.held| {
        UnlinkKeeps(files, rows, b, ok);
      }
    case TakeEffect =>
      if b.attempted && !b.effect {
        EffectKeeps(files, rows, b);
      }
    case _ =>
      NoteKeeps(files, rows, b, m);
  }

  lemma {:induction false} OnlyEffectsWrite(files: map<Path, Data>, rows: map<DocId, Row>, b: Batch, m: Move)
    ensures var l := Act(files, rows, b, m);
            l.rows != rows ==> m == TakeEffect && b.attempted && l.rows == rows + b.staged && l.files == files
  {
  }

  lemma {:induction false} FrameKeepsRows(files: map<Path, Data>, rows: map<DocId, Row>, b: Batch, l: Local)
    requires LocalInv(files, rows, b) && RowsComplete(files, rows) && Keeps(files, b, l)
    requires l.rows == rows || (b.attempted && l.rows == rows + b.staged && l.files == files)
    ensures RowsComplete(l.files, l.rows)
    ensures forall d :: d in l.rows ==> (d in rows && l.rows[d] == rows[d]) || l.rows[d].path in b.held
  {
  }

  lemma {:induction false} ActRows(files: map<Path, Data>, rows: map<DocId, Row>, b: Batch, m: Move)
    requires LocalInv(files, rows, b) && RowsComplete(files, rows)
    ensures var l := Act(files, rows, b, m);
            && RowsComplete(l.files, l.rows)
            && (forall d :: d in l.rows ==> (d in rows && l.rows[d] == rows[d]) || l.rows[d].path in b.held)
            && (l.rows != rows ==> m == TakeEffect && l.rows == rows + b.staged && b.attempted)
  {
    ActKeeps(files, rows, b, m);
    OnlyEffectsWrite(files, rows, b, m);
    FrameKeepsRows(files, rows, b, Act(files, rows, b, m));
  }

  /** What one batch does leaves the others as they were. */
  lemma {:induction false} OthersKeep(files: map<Path, Data>, rows: map<DocId, Row>, b: Batch, l: Local, c: Batch)
    requires LocalInv(files, rows, c) && Apart(b, c) && Frame(files, b, l)
    requires forall d :: d in l.rows ==> (d in rows && l.rows[d] == rows[d]) || l.rows[d].path in b.held
    ensures LocalInv(l.files, l.rows, c) && Apart(l.batch, c)
  {
  }

  lemma {:induction false} StepKeepsInv(w: World, step: Step)
    requires Inv(w)
    ensures Inv(Do(w, step))
  {
    match step
    case Begin =>
      assert LocalInv(w.files, w.rows, FRESH);
    case DeleteRow(doc) =>
      forall i | 0 <= i < |w.batches| ensures LocalInv(w.files, w.rows - {doc}, w.batches[i]) {
        assert LocalInv(w.files, w.rows, w.batches[i]);
      }
    case By(i, m) =>
      if i < |w.batches| {
        MoveKeepsInv(w, i, m);
      }
  }

  lemma {:induction false} MoveKeepsInv(w: World, i: nat, m: Move)
    requires Inv(w) && i < |w.batches|
    ensures Inv(Do(w, By(i, m)))
  {
    var b := w.batches[i];
    var l := Act(w.files, w.rows, b, m);
    var w' := World(l.files, l.rows, w.batches[i := l.batch]);
    assert LocalInv(w.files, w.rows, b);
    ActKeeps(w.files, w.rows, b, m);
    ActRows(w.files, w.rows, b, m);
    forall j | 0 <= j < |w.batches| && j != i
      ensures LocalInv(l.files, l.rows, w.batches[j]) && Apart(l.batch, w.batches[j])
    {
      assert Apart(b, w.batches[j]) by {
        assert if i < j then Apart(w.batches[i], w.batches[j]) else Apart(w.batches[j], w.batches[i]);
      }
      OthersKeep(w.files, w.rows, b, l, w.batches[j]);
    }
    forall j, k | 0 <= j < k < |w'.batches| ensures Apart(w'.batches[j], w'.batches[k]) {
      if j != i && k != i {
        assert Apart(w.batches[j], w.batches[k]);
      }
    }
  }

  // ----- over whole runs -----

  /** Before any batch: rows whose files are there. */
  ghost predicate Start(w: World) {
    w.batches == [] && RowsComplete(w.files, w.rows)
  }

  lemma {:induction false} RunKeepsInv(w: World, steps: seq<Step>)
    requires Inv(w)
    ensures Inv(Run(w, steps))
  {
    if steps != [] {
      RunKeepsInv(w, steps[..|steps| - 1]);
      StepKeepsInv(Run(w, steps[..|steps| - 1]), steps[|steps| - 1]);
    }
  }

  /** Whatever fails and whenever, every committed row refers to a file that is there
      and holds exactly the bytes that were validated for it. */
  lemma {:induction false} CommittedRowsHaveTheirFiles(w: World, steps: seq<Step>, doc: DocId)
    requires Start(w) && doc in Run(w, steps).rows
    ensures Complete(Run(w, steps).files, Run(w, steps).rows[doc])
  {
    RunKeepsInv(w, steps);
  }

  /** Nobody is going to write or unlink this file: it is from before the batches that
      still run, or its batch has attempted its commit. */
  ghost predicate Settled(w: World, path: Path) {
    path in w.files && forall i :: 0 <= i < |w.batches| && path in w.batches[i].held ==> w.batches[i].attempted
  }

  lemma {:induction false} StepKeepsSettled(w: World, step: Step, path: Path)
    requires Inv(w) && Settled(w, path)
    ensures Settled(Do(w, step), path) && Do(w, step).files[path] == w.files[path]
  {
    if step.By? && step.batch < |w.batches| {
      var i := step.batch;
      assert LocalInv(w.files, w.rows, w.batches[i]);
      ActKeeps(w.files, w.rows, w.batches[i], step.move);
    }
  }

  /** Files from before a batch, and files whose commit was attempted, are never
      removed and never written again. */
  lemma {:induction false} SettledFilesStay(w: World, steps: seq<Step>, path: Path)
    requires Inv(w) && Settled(w, path)
    ensures Settled(Run(w, steps), path) && Run(w, steps).files[path] == w.files[path]
  {
    if steps != [] {
      SettledFilesStay(w, steps[..|steps| - 1], path);
      RunKeepsInv(w, steps[..|steps| - 1]);
      StepKeepsSettled(Run(w, steps[..|steps| - 1]), steps[|steps| - 1], path);
    }
  }

  /** Every file was there from the start or is held by the batch that created it. */
  ghost predicate Accounted(w: World, start: set<Path>) {
    forall p :: p in w.files ==> p in start || exists i :: 0 <= i < |w.batches| && p in w.batches[i].held
  }

  lemma {:induction false} StepKeepsAccounted(w: World, step: Step, start: set<Path>)
    requires Inv(w) && Accounted(w, start)
    ensures Accounted(Do(w, step), start)
  {
    var w' := Do(w, step);
    if step.By? && step.batch < |w.batches| {
      var i, b := step.batch, w.batches[step.batch];
      var l := Act(w.files, w.rows, b, step.move);
      assert LocalInv(w.files, w.rows, b);
      ActKeeps(w.files, w.rows, b, step.move);
      forall p | p in l.files ensures p in start || exists j :: 0 <= j < |w'.batches| && p in w'.batches[j].held {
        if p in w.files && p !in start {
          var j :| 0 <= j < |w.batches| && p in w.batches[j].held;
          if j == i {
            StillHeld(w.files, w.rows, b, step.move, p);
          }
          assert p in w'.batches[j].held;
        } else if p !in w.files {
          assert p in w'.batches[i].held;
        }
      }
    } else {
      forall p | p in w'.files ensures p in start || exists j :: 0 <= j < |w'.batches| && p in w'.batches[j].held {
        if p !in start {
          var j :| 0 <= j < |w.batches| && p in w.batches[j].held;
          assert p in w'.batches[j].held;
        }
      }
    }
  }

  /** A batch lets go of a path only by unlinking it. */
  lemma {:induction false} StillHeld(files: map<Path, Data>, rows: map<DocId, Row>, b: Batch, m: Move, p: Path)
    requires LocalInv(files, rows, b) && p in b.held && p in Act(files, rows, b, m).files
    ensures p in Act(files, rows, b, m).batch.held
  {
  }

  lemma {:induction false} RunKeepsAccounted(w: World, steps: seq<Step>)
    requires Start(w)
    ensures Accounted(Run(w, steps), w.files.Keys)
  {
    if steps != [] {
      RunKeepsAccounted(w, steps[..|steps| - 1]);
      RunKeepsInv(w, steps[..|steps| - 1]);
      StepKeepsAccounted(Run(w, steps[..|steps| - 1]), steps[|steps| - 1], w.files.Keys);
    }
  }

  /** A batch that ended before its commit attempt has had no effect on the rows and
      never will; when none of its unlinks failed it holds no file, so that every
      file there is comes from before or belongs to another batch. */
  lemma {:induction false} FailedBatchLeavesNothing(w: World, steps: seq<Step>, i: nat)
    requires Start(w) && i < |Run(w, steps).batches|
    requires var b := Run(w, steps).batches[i]; b.phase.Closed? && !b.attempted && !b.unlinkFailed
    ensures var w' := Run(w, steps);
            && !w'.batches[i].effect && w'.batches[i].held == []
            && forall p :: p in w'.files ==>
                 p in w.files || exists j :: 0 <= j < |w'.batches| && j != i && p in w'.batches[j].held
  {
    RunKeepsInv(w, steps);
    RunKeepsAccounted(w, steps);
    var w' := Run(w, steps);
    assert LocalInv(w'.files, w'.rows, w'.batches[i]);
    forall p | p in w'.files && p !in w.files
      ensures exists j :: 0 <= j < |w'.batches| && j != i && p in w'.batches[j].held
    {
      var j :| 0 <= j < |w'.batches| && p in w'.batches[j].held;
      assert j != i;
    }
  }

  /** And so it stays: nothing that comes later changes such a batch. */
  lemma {:induction false} FailedForGood(w: World, steps: seq<Step>, i: nat)
    requires i < |w.batches| && w.batches[i].phase.Closed? && !w.batches[i].attempted
    ensures i < |Run(w, steps).batches| && Run(w, steps).batches[i] == w.batches[i]
  {
    if steps != [] {
      FailedForGood(w, steps[..|steps| - 1], i);
    }
  }

  /** Rows change all at once with the transaction of a batch that attempted its
      commit, or when a row is deleted; never otherwise. */
  lemma {:induction false} RowsChangeWithAnEffect(w: World, step: Step)
    requires Inv(w)
    ensures Do(w, step).rows == w.rows || step.DeleteRow?
            || (step.By? && step.move == TakeEffect && step.batch < |w.batches| && w.batches[step.batch].attempted
                && !w.batches[step.batch].effect && Do(w, step).rows == w.rows + w.batches[step.batch].staged)
  {
    if step.By? && step.batch < |w.batches| {
      assert LocalInv(w.files, w.rows, w.batches[step.batch]);
      ActRows(w.files, w.rows, w.batches[step.batch], step.move);
    }
  }

  /** The answers tell the truth: success only when the transaction took effect; an
      ordinary error or "could not save" only when it never can; an uncertain
      outcome only when the commit was attempted and not confirmed, and then all
      its files are still there. */
  lemma {:induction false} AnswersAreHonest(w: World, steps: seq<Step>, i: nat)
    requires Start(w) && i < |Run(w, steps).batches| && Run(w, steps).batches[i].phase.Closed?
    ensures var w', b := Run(w, steps), Run(w, steps).batches[i];
            && (b.phase.reply == Propagate(NoError) ==> b.effect)
            && (b.phase.reply == SaveFailed || b.phase.reply == Propagate(HttpError) ==> !b.attempted && !b.effect)
            && (b.phase.reply == OutcomeUncertain ==>
                  b.attempted && !b.committed && forall p :: p in b.held ==> Settled(w', p))
  {
    RunKeepsInv(w, steps);
    var w' := Run(w, steps);
    var b := w'.batches[i];
    assert LocalInv(w'.files, w'.rows, b);
    if b.attempted {
      forall p | p in b.held ensures Settled(w', p) {
        forall j | 0 <= j < |w'.batches| && p in w'.batches[j].held ensures w'.batches[j].attempted {
          assert i < j ==> Apart(w'.batches[i], w'.batches[j]);
          assert j < i ==> Apart(w'.batches[j], w'.batches[i]);
        }
      }
    }
  }

  // ----- the clean-up, path by path -----

  /** The files after unlinking the paths in order, where `ok` says which unlinks work. */
  function Cleaned(files: map<Path, Data>, paths: seq<Path>, ok: seq<bool>): map<Path, Data>
    requires |ok| == |paths|
  {
    if paths == [] then files
    else
      var n := |paths| - 1;
      Cleaned(files, paths[..n], ok[..n]) - if ok[n] then {paths[n]} else {}
  }

  function Kept(paths: seq<Path>, ok: seq<bool>): seq<Path>
    requires |ok| == |paths|
  {
    if paths == [] then []
    else
      var n := |paths| - 1;
      Kept(paths[..n], ok[..n]) + if ok[n] then [] else [paths[n]]
  }

  /** One unlink step per path. */
  function UnlinkEach(files: map<Path, Data>, rows: map<DocId, Row>, b: Batch, ok: seq<bool>): Local {
    if ok == [] then Local(files, rows, b)
    else
      var l := UnlinkEach(files, rows, b, ok[..|ok| - 1]);
      Act(l.files, l.rows, l.batch, Unlink(ok[|ok| - 1]))
  }

  /** One unlink of a batch that keeps some paths and has the rest before it. */
  lemma {:induction false} UnlinkStep(files: map<Path, Data>, rows: map<DocId, Row>, b: Batch, cause: Exc,
                                      kept: seq<Path>, rest: seq<Path>, ok: bool)
    requires b.phase == Cleaning(|kept|, cause) && rest != [] && b.held == kept + rest
    ensures var l := Act(files, rows, b, Unlink(ok));
            var kept' := kept + if ok then [] else [rest[0]];
            && l.files == files - (if ok then {rest[0]} else {}) && l.rows == rows
            && l.batch.held == kept' + rest[1..] && l.batch.phase == Cleaning(|kept'|, cause)
  {
  }

  /** The loop of the clean-up is the unlink steps of its batch: the same files go,
      and the batch holds exactly the paths whose unlink failed. */
  lemma {:induction false} CleanupIsItsSteps(files: map<Path, Data>, rows: map<DocId, Row>, b: Batch, cause: Exc,
                                             ok: seq<bool>)
    requires b.phase == Cleaning(0, cause) && |ok| <= |b.held|
    ensures var l := UnlinkEach(files, rows, b, ok);
            var done := b.held[..|ok|];
            && l.files == Cleaned(files, done, ok) && l.rows == rows
            && l.batch.held == Kept(done, ok) + b.held[|ok|..]
            && l.batch.phase == Cleaning(|Kept(done, ok)|, cause)
  {
    if ok == [] {
      assert b.held == [] + b.held;
    } else {
      var n := |ok| - 1;
      CleanupIsItsSteps(files, rows, b, cause, ok[..n]);
      var l := UnlinkEach(files, rows, b, ok[..n]);
      assert b.held[..n + 1][..n] == b.held[..n] && b.held[n..][1..] == b.held[n + 1..];
      UnlinkStep(l.files, l.rows, l.batch, cause, Kept(b.held[..n], ok[..n]), b.held[n..], ok[n]);
    }
  }

  /** When every unlink works, exactly the paths of the batch are gone. */
  lemma {:induction false} CleanedRemovesExactly(files: map<Path, Data>, paths: seq<Path>, ok: seq<bool>)
    requires |ok| == |paths|
    ensures forall p :: p in Cleaned(files, paths, ok) ==> p in files && Cleaned(files, paths, ok)[p] == files[p]
    ensures forall p :: p in files && p !in paths ==> p in Cleaned(files, paths, ok)
    ensures (forall i :: 0 <= i < |ok| ==> ok[i]) ==> forall p :: p in paths ==> p !in Cleaned(files, paths, ok)
  {
    if paths != [] {
      var n := |paths| - 1;
      CleanedRemovesExactly(files, paths[..n], ok[..n]);
      assert paths == paths[..n] + [paths[n]];
      assert forall i :: 0 <= i < n ==> ok[..n][i] == ok[i];
    }
  }

  // ----- the moves of one commit and of one way out -----

  /** A flush that fails; or the attempt, the effect if there is one, and then the
      confirmation or an error. */
  function CommitMoves(files: map<Path, Data>, rows: map<DocId, Row>, b: Batch, flushes: bool, takesEffect: bool, confirms: bool): Local {
    if !flushes then Act(files, rows, b, Raise(OtherError))
    else
      var tried := Act(files, rows, b, Attempt);
      var done := if takesEffect then Act(tried.files, tried.rows, tried.batch, TakeEffect) else tried;
      Act(done.files, done.rows, done.batch, if confirms then Confirm else Raise(OtherError))
  }

  /** Leaving the block; before a commit attempt, one unlink per path and then the end. */
  function ExitMoves(files: map<Path, Data>, rows: map<DocId, Row>, b: Batch, ok: seq<bool>): Local {
    var left := Act(files, rows, b, Leave);
    if b.attempted then left
    else
      var cleaned := UnlinkEach(left.files, left.rows, left.batch, ok);
      Act(cleaned.files, cleaned.rows, cleaned.batch, Leave)
  }

  lemma {:induction false} ExitCleans(files: map<Path, Data>, rows: map<DocId, Row>, b: Batch, exc: Exc, ok: seq<bool>)
    requires b.phase == Leaving(exc) && !b.attempted && |ok| == |b.held|
    ensures var l := ExitMoves(files, rows, b, ok);
            && l.files == Cleaned(files, b.held, ok) && l.rows == rows
            && l.batch.phase == Closed(ExitReply(exc, false, false))
            && l.batch.held == Kept(b.held, ok)
  {
    var left := Act(files, rows, b, Leave);
    assert b.held[..|ok|] == b.held && b.held[|ok|..] == [];
    CleanupIsItsSteps(files, rows, left.batch, exc, ok);
    assert Kept(b.held, ok) + [] == Kept(b.held, ok);
  }

  /** A file that is stored without an error: created, written whole and staged for its row. */
  function StoreMoves(files: map<Path, Data>, rows: map<DocId, Row>, b: Batch, path: Path, data: Data, doc: DocId): Local {
    var created := Act(files, rows, b, Create(path, data));
    var written := Act(created.files, created.rows, created.batch, WriteMore(|data|));
    Act(written.files, written.rows, written.batch, Stage(doc))
  }

  /** When nothing fails the upload goes through: the file is there with all its bytes, its
      row is committed with the others of the batch, and the answer is no error. */
  lemma {:induction false} UploadSucceeds(files: map<Path, Data>, rows: map<DocId, Row>, b: Batch, path: Path, data: Data,
                                          doc: DocId)
    requires b.phase.Open? && !b.attempted && !b.effect && path !in files
    ensures var stored := StoreMoves(files, rows, b, path, data, doc);
            && stored.files == files[path := data] && stored.rows == rows
            && stored.batch == b.(held := b.held + [path], staged := b.staged[doc := Row(path, data)])
            && var done := CommitMoves(stored.files, stored.rows, stored.batch, true, true, true);
               var left := Act(done.files, done.rows, done.batch, Leave);
               && left.files == files[path := data] && left.rows == rows + b.staged[doc := Row(path, data)]
               && left.batch.phase == Closed(Propagate(NoError)) && left.batch.held == b.held + [path]
  {
    assert data[..|data|] == data;
  }

  /** A commit whose flush fails attempts nothing. One that gets past it may take effect or
      not and confirm or not; all files stay, and only a confirmed one hears of no error. */
  lemma {:induction false} CommitOutcomes(files: map<Path, Data>, rows: map<DocId, Row>, b: Batch, takesEffect: bool,
                                          confirms: bool, ok: seq<bool>)
    requires b.phase.Open? && !b.attempted && !b.effect && !b.committed && (confirms ==> takesEffect)
    ensures CommitMoves(files, rows, b, false, takesEffect, confirms) == Local(files, rows, b.(phase := Leaving(OtherError)))
    ensures var tried := CommitMoves(files, rows, b, true, takesEffect, confirms);
            var left := ExitMoves(tried.files, tried.rows, tried.batch, ok);
            && left.files == files && left.rows == (if takesEffect then rows + b.staged else rows)
            && left.batch == b.(attempted := true, effect := takesEffect, committed := confirms,
                                phase := Closed(if confirms then Propagate(NoError) else OutcomeUncertain))
  {
  }

  /** A batch can begin at any moment, on the table and the disk as they are, and a row can
      be deleted, which leaves the files. */
  lemma {:induction false} OtherSteps(w: World, doc: DocId)
    ensures Do(w, Begin) == World(w.files, w.rows, w.batches + [Batch(Open, [], map[], false, false, false, false)])
    ensures Do(w, DeleteRow(doc)) == World(w.files, w.rows - {doc}, w.batches)
  {
  }

  /** At any moment the process may be gone, and while the block runs it may be left by an error. */
  lemma {:induction false} AnyMomentMayFail(files: map<Path, Data>, rows: map<DocId, Row>, b: Batch, exc: Exc)
    requires !b.phase.Closed?
    ensures Act(files, rows, b, Crash) == Local(files, rows, b.(phase := Crashed))
    ensures b.phase.Open? || b.phase.Writing? || b.phase.Committing? ==>
              Act(files, rows, b, Raise(exc)) == Local(files, rows, b.(phase := Leaving(exc)))
  {
  }

  /** A path that exists already is left alone, and the batch is on its way out. */
  lemma {:induction false} TakenPathIsRefused(files: map<Path, Data>, rows: map<DocId, Row>, b: Batch, path: Path, data: Data)
    requires b.phase.Open? && path in files
    ensures Act(files, rows, b, Create(path, data)) == Local(files, rows, b.(phase := Leaving(OtherError)))
  {
  }

  // ----- the batch as an object -----

  class Disk {
    var files: map<Path, Data>

    constructor (files: map<Path, Data>)
      ensures this.files == files
    {
      this.files := files;
    }
  }

  /** The transaction of one request. */
  class Session {
    var rows: map<DocId, Row>
    var staged: map<DocId, Row>

    constructor (rows: map<DocId, Row>)
      ensures this.rows == rows && staged == map[]
    {
      this.rows, staged := rows, map[];
    }
  }

  class DocumentUploadBatch {
    const disk: Disk
    const session: Session
    var paths: seq<Path>
    var commitAttempted: bool
    var committed: bool
    /** Whether the database has applied the transaction. */
    ghost var applied: bool

    constructor (disk: Disk, session: Session)
      ensures this.disk == disk && this.session == session
      ensures View(Open) == FRESH.(staged := session.staged)
    {
      this.disk, this.session := disk, session;
      paths, commitAttempted, committed, applied := [], false, false, false;
    }

    /** The batch of the step system that this object is, in a phase. */
    ghost function View(phase: Phase): Batch
      reads this, session
    {
      Batch(phase, paths, session.staged, commitAttempted, committed, applied, false)
    }

    /** Create and write one file; an error may come after `written` bytes. */
    method Store(path: Path, data: Data, written: nat) returns (r: Result<Path, Exc>)
      requires written <= |data|
      modifies this`paths, disk
      ensures var created := CreateFile(old(disk.files), session.rows, old(View(Open)), path, data);
              if path in old(disk.files) then
                disk.files == old(disk.files) && paths == old(paths) && r == Failure(OtherError)
              else
                && Local(disk.files, session.rows, View(Writing(path, data)))
                   == WriteFile(created.files, session.rows, created.batch, written)
                && r == if written == |data| then Success(path) else Failure(OtherError)
    {
      if path in disk.files {
        return Failure(OtherError);
      }
      disk.files := disk.files[path := []];
      paths := paths + [path];
      disk.files := disk.files[path := data[..written]];
      r := if written == |data| then Success(path) else Failure(OtherError);
    }

    /** Flush, then commit: the commit may fail to take effect, or take effect and not be confirmed. */
    method Commit(flushes: bool, takesEffect: bool, confirms: bool) returns (r: Result<(), Exc>)
      requires confirms ==> takesEffect
      modifies this`commitAttempted, this`committed, this`applied, session`rows
      ensures !flushes ==> unchanged(this) && unchanged(session) && r == Failure(OtherError)
      ensures flushes ==> commitAttempted && committed == (old(committed) || confirms)
      ensures flushes ==> r == if confirms then Success(()) else Failure(OtherError)
      ensures session.rows == if flushes && takesEffect then old(session.rows) + session.staged else old(session.rows)
      ensures !old(commitAttempted) && !old(committed) && !old(applied) ==>
                Local(disk.files, session.rows, View(Leaving(if r.Success? then NoError else r.error)))
                == CommitMoves(old(disk.files), old(session.rows), old(View(Open)), flushes, takesEffect, confirms)
    {
      if !flushes {
        return Failure(OtherError);
      }
      commitAttempted := true;
      if takesEffect {
        session.rows := session.rows + session.staged;
        applied := true;
      }
      if !confirms {
        return Failure(OtherError);
      }
      committed := true;
      r := Success(());
    }

    method Cleanup(ok: seq<bool>)
      requires |ok| == |paths|
      modifies disk
      ensures disk.files == Cleaned(old(disk.files), paths, ok)
    {
      for i := 0 to |paths|
        invariant disk.files == Cleaned(old(disk.files), paths[..i], ok[..i])
      {
        if ok[i] {
          disk.files := disk.files - {paths[i]};
        }
        assert paths[..i + 1][..i] == paths[..i] && ok[..i + 1][..i] == ok[..i];
      }
      assert paths[..|paths|] == paths && ok[..|ok|] == ok;
    }

    /** Leave the block with an exception or without one; `ok` says which unlinks work. */
    method Exit(exc: Exc, ok: seq<bool>) returns (reply: Reply)
      requires |ok| == |paths|
      modifies disk, session`staged
      ensures reply == ExitReply(exc, commitAttempted, committed)
      ensures disk.files == if committed || commitAttempted then old(disk.files) else Cleaned(old(disk.files), paths, ok)
      ensures session.staged == if committed then old(session.staged) else map[]
      ensures (committed ==> commitAttempted) ==>
                var l := ExitMoves(old(disk.files), session.rows, old(View(Leaving(exc))), ok);
                l.files == disk.files && l.rows == session.rows && l.batch.phase == Closed(reply)
    {
      if !commitAttempted {
        ExitCleans(disk.files, session.rows, View(Leaving(exc)), exc, ok);
      }
      if committed {
        return Propagate(exc);
      }
      session.staged := map[];
      if !commitAttempted {
        Cleanup(ok);
      }
      if exc == Cancelled {
        return Propagate(exc);
      }
      if exc == HttpError && !commitAttempted {
        return Propagate(exc);
      }
      if commitAttempted {
        return OutcomeUncertain;
      }
      return SaveFailed;
    }
  }
}
