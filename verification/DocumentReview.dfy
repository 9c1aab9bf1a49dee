/**
 The documents of riders, their review and what they allow (backend/app/services/document_review.py,
 backend/app/services/document_uploads.py lines 174-240, and the endpoints that
 write the status of a rider). Each operation holds the lock of its rider row, so
 it is one step; the private files are a value that may change between steps.
 */
module DocumentReview {
  import opened Wrappers
  import opened Text

  type RiderId = nat
  type DocId = nat

  datatype Kind = LICENCIA | DOCUMENTO_IDENTIDAD | REGISTRO_VEHICULO | SEGURO

  datatype DocStatus = PENDIENTE | APROBADO | RECHAZADO

  datatype RiderStatus = PENDIENTE | ACTIVO | INACTIVO | OCUPADO | SUSPENDIDO

  /** A stored reference names a file in the directory of one rider. */
  datatype Ref = Ref(owner: RiderId, name: string)

  /** The sizes of the readable private files. */
  type Disk = map<Ref, nat>

  datatype Doc = Doc(
    id: DocId, rider: RiderId, kind: Kind, file: Option<Ref>, status: DocStatus,
    reason: Option<string>, updatedAt: Option<int>)

  datatype Rider = Rider(status: RiderStatus, online: bool, approvedAt: Option<int>)

  datatype Db = Db(riders: map<RiderId, Rider>, docs: seq<Doc>)

  datatype Defect = Duplicates | Missing | NotApproved | NoFile | EmptyFile | Unavailable

  /** The optimistic token of a document: the fields that its digest covers. */
  datatype Token = NotGiven | Malformed | Revision(doc: Doc)

  datatype Refusal =
    | BadTarget | ReasonRequired | NotFound | TokenRequired | TokenMalformed | DocumentChanged
    | DuplicateDocuments | NotReplaceable | NotPermitted | NotReady(defect: Defect)

  /** The tables afterwards, and the refusal if there was one; some refusals persist a restriction. */
  datatype Outcome = Outcome(db: Db, refusal: Option<Refusal>)

  // ----- the check -----

  function RiderDocuments(docs: seq<Doc>, rider: RiderId): seq<Doc> {
    if docs == [] then []
    else
      var last := docs[|docs| - 1];
      RiderDocuments(docs[..|docs| - 1], rider) + if last.rider == rider then [last] else []
  }

  function Kinds(docs: seq<Doc>): set<Kind> {
    set i | 0 <= i < |docs| :: docs[i].kind
  }

  const REQUIRED := {LICENCIA, DOCUMENTO_IDENTIDAD, REGISTRO_VEHICULO, SEGURO}

  function RequiredDocumentError(docs: seq<Doc>): Option<Defect> {
    if |docs| != |Kinds(docs)| then Some(Duplicates)
    else if REQUIRED - Kinds(docs) != {} then Some(Missing)
    else if exists i :: 0 <= i < |docs| && docs[i].status != APROBADO then Some(NotApproved)
    else if exists i :: 0 <= i < |docs| && docs[i].file == None then Some(NoFile)
    else None
  }

  function FileDefect(doc: Doc, disk: Disk): Option<Defect> {
    if doc.file.None? || doc.file.value.owner != doc.rider || doc.file.value !in disk then Some(Unavailable)
    else if disk[doc.file.value] == 0 then Some(EmptyFile)
    else None
  }

  /** The defect of the first document whose file cannot be read. */
  function AvailabilityError(docs: seq<Doc>, disk: Disk): Option<Defect> {
    if docs == [] then None
    else if FileDefect(docs[0], disk).Some? then FileDefect(docs[0], disk)
    else AvailabilityError(docs[1..], disk)
  }

  function ReadinessError(docs: seq<Doc>, rider: RiderId, disk: Disk): Option<Defect> {
    var mine := RiderDocuments(docs, rider);
    var error := RequiredDocumentError(mine);
    if error.Some? then error else AvailabilityError(mine, disk)
  }

  // ----- the rider row -----

  predicate Working(status: RiderStatus) {
    status == ACTIVO || status == OCUPADO
  }

  function Restrict(row: Rider): Rider {
    row.(status := if Working(row.status) then RiderStatus.PENDIENTE else row.status, online := false)
  }

  function Reconcile(row: Rider, error: Option<Defect>, autoActivate: bool, now: int): Rider {
    if error.Some? then Restrict(row)
    else if autoActivate && row.status == RiderStatus.PENDIENTE then Rider(ACTIVO, false, Some(now))
    else if !Working(row.status) then row.(online := false)
    else row
  }

  // ----- the operations -----

  function FindDoc(docs: seq<Doc>, id: DocId): (r: Option<nat>)
    ensures r.Some? ==> r.value < |docs| && docs[r.value].id == id
  {
    if docs == [] then None
    else if docs[|docs| - 1].id == id then Some(|docs| - 1)
    else FindDoc(docs[..|docs| - 1], id)
  }

  function CheckToken(doc: Doc, token: Token): Option<Refusal> {
    match token
    case NotGiven => Some(TokenRequired)
    case Malformed => Some(TokenMalformed)
    case Revision(seen) => if seen != doc then Some(DocumentChanged) else None
  }

  /** Lock the rider of a document, then the document. */
  function LockDocument(db: Db, id: DocId): (r: Option<nat>)
    ensures r.Some? ==> r.value < |db.docs| && db.docs[r.value].id == id && db.docs[r.value].rider in db.riders
  {
    var found := FindDoc(db.docs, id);
    if found.Some? && db.docs[found.value].rider in db.riders then found else None
  }

  function ReconcileRow(db: Db, docs: seq<Doc>, rider: RiderId, autoActivate: bool, now: int, disk: Disk): Db
    requires rider in db.riders
  {
    Db(db.riders[rider := Reconcile(db.riders[rider], ReadinessError(docs, rider, disk), autoActivate, now)], docs)
  }

  function RestrictRow(db: Db, docs: seq<Doc>, rider: RiderId): Db
    requires rider in db.riders
  {
    Db(db.riders[rider := Restrict(db.riders[rider])], docs)
  }

  /** How many documents of the same rider have the kind of this one. */
  function Peers(docs: seq<Doc>, rider: RiderId, kind: Kind): seq<nat> {
    if docs == [] then []
    else
      var n := |docs| - 1;
      Peers(docs[..n], rider, kind) + if docs[n].rider == rider && docs[n].kind == kind then [n] else []
  }

  function ReviewedRow(doc: Doc, target: DocStatus, reason: Option<string>, now: int): Doc {
    doc.(status := target, updatedAt := Some(now),
         reason := if target == RECHAZADO && reason.Some? then Some(Strip(reason.value)) else None)
  }

  function CheckReview(db: Db, i: nat, target: DocStatus, token: Token, disk: Disk): Option<Refusal>
    requires i < |db.docs|
  {
    var doc := db.docs[i];
    var stale := CheckToken(doc, token);
    if stale.Some? then stale
    else if target != APROBADO then None
    else if |Peers(db.docs, doc.rider, doc.kind)| > 1 then Some(DuplicateDocuments)
    else if FileDefect(doc, disk).Some? then Some(NotReady(FileDefect(doc, disk).value))
    else None
  }

  function Review(db: Db, id: DocId, target: DocStatus, token: Token, reason: Option<string>, now: int,
                  disk: Disk): Outcome {
    if target != APROBADO && target != RECHAZADO then Outcome(db, Some(BadTarget))
    else if target == RECHAZADO && (reason.None? || Blank(reason.value)) then Outcome(db, Some(ReasonRequired))
    else
      var found := LockDocument(db, id);
      if found.None? then Outcome(db, Some(NotFound))
      else
        var refusal := CheckReview(db, found.value, target, token, disk);
        if refusal.Some? then Outcome(db, refusal)
        else
          var doc := db.docs[found.value];
          var docs := db.docs[found.value := ReviewedRow(doc, target, reason, now)];
          Outcome(ReconcileRow(db, docs, doc.rider, target == APROBADO, now, disk), None)
  }

  function Delete(db: Db, id: DocId, token: Token, now: int, disk: Disk): Outcome {
    var found := LockDocument(db, id);
    if found.None? then Outcome(db, Some(NotFound))
    else
      var i := found.value;
      var stale := CheckToken(db.docs[i], token);
      if stale.Some? then Outcome(db, stale)
      else Outcome(ReconcileRow(db, db.docs[..i] + db.docs[i + 1..], db.docs[i].rider, false, now, disk), None)
  }

  predicate Replaceable(doc: Doc, allowPending: bool) {
    doc.status == RECHAZADO || (doc.status == DocStatus.PENDIENTE && allowPending)
  }

  lemma {:induction false} PeersInRange(docs: seq<Doc>, rider: RiderId, kind: Kind)
    ensures forall k :: 0 <= k < |Peers(docs, rider, kind)| ==>
              var i := Peers(docs, rider, kind)[k]; i < |docs| && docs[i].rider == rider && docs[i].kind == kind
  {
    if docs != [] {
      PeersInRange(docs[..|docs| - 1], rider, kind);
    }
  }

  /** A new file for one kind; `newId` is the identifier of a row that has to be inserted. */
  function Replace(db: Db, rider: RiderId, kind: Kind, file: Ref, allowPending: bool, newId: DocId, now: int): Outcome {
    if rider !in db.riders then Outcome(db, Some(NotFound))
    else
      var peers := Peers(db.docs, rider, kind);
      PeersInRange(db.docs, rider, kind);
      if |peers| > 1 then Outcome(db, Some(DuplicateDocuments))
      else if |peers| == 1 && !Replaceable(db.docs[peers[0]], allowPending) then Outcome(db, Some(NotReplaceable))
      else
        var current := if |peers| == 1 then db.docs[peers[0]] else Doc(newId, rider, kind, None, DocStatus.PENDIENTE, None, None);
        var row := current.(file := Some(file), status := DocStatus.PENDIENTE, reason := None, updatedAt := Some(now));
        var docs := if |peers| == 1 then db.docs[peers[0] := row] else db.docs + [row];
        Outcome(RestrictRow(db, docs, rider), None)
  }

  /** Heartbeats and location reports allow a busy rider; the toggle does not. */
  function ReportOnline(db: Db, rider: RiderId, allowBusy: bool, disk: Disk): Outcome {
    if rider !in db.riders then Outcome(db, Some(NotFound))
    else
      var row := db.riders[rider];
      if !(row.status == ACTIVO || (allowBusy && row.status == OCUPADO)) then
        Outcome(db.(riders := db.riders[rider := row.(online := false)]), Some(NotPermitted))
      else
        var error := ReadinessError(db.docs, rider, disk);
        if error.Some? then Outcome(RestrictRow(db, db.docs, rider), Some(NotReady(error.value)))
        else Outcome(db.(riders := db.riders[rider := row.(online := true)]), None)
  }

  /** An administrator activates a rider. `stamps` says whether the approval time is
      set, `persists` whether a refusal keeps the restriction or is rolled back. */
  function Activate(db: Db, rider: RiderId, stamps: bool, persists: bool, now: int, disk: Disk): Outcome {
    if rider !in db.riders then Outcome(db, Some(NotFound))
    else
      var row, error := db.riders[rider], ReadinessError(db.docs, rider, disk);
      if error.Some? then
        Outcome(if persists then RestrictRow(db, db.docs, rider) else db, Some(NotReady(error.value)))
      else
        Outcome(db.(riders := db.riders[rider := Rider(ACTIVO, false, if stamps then Some(now) else row.approvedAt)]), None)
  }

  /** An administrative status other than a working one; those need their own operation. */
  function Retire(db: Db, rider: RiderId, status: RiderStatus): Outcome {
    if Working(status) then Outcome(db, Some(NotPermitted))
    else if rider !in db.riders then Outcome(db, Some(NotFound))
    else Outcome(db.(riders := db.riders[rider := db.riders[rider].(status := status, online := false)]), None)
  }

  const VEHICLE_CHANGED := "Cambio de vehículo o asignación. Suba la documentación actualizada."

  /** Every document of a rider whose vehicle changed is rejected. */
  function RejectAll(docs: seq<Doc>, rider: RiderId, now: int): seq<Doc> {
    seq(|docs|, i requires 0 <= i < |docs| =>
      if docs[i].rider == rider then docs[i].(status := RECHAZADO, reason := Some(VEHICLE_CHANGED), updatedAt := Some(now))
      else docs[i])
  }

  // ----- runs -----

  datatype Step =
    | ReviewDocument(id: DocId, target: DocStatus, token: Token, reason: Option<string>, now: int, disk: Disk)
    | DeleteDocument(id: DocId, token: Token, now: int, disk: Disk)
    | ReplaceDocument(rider: RiderId, kind: Kind, file: Ref, allowPending: bool, newId: DocId, now: int)
    | Report(rider: RiderId, allowBusy: bool, disk: Disk)
    | InvalidateDocuments(rider: RiderId, now: int)
    | GoOffline(rider: RiderId)
    | AdminActivate(rider: RiderId, stamps: bool, persists: bool, now: int, disk: Disk)
    | AdminRetire(rider: RiderId, status: RiderStatus)
    | SetBusy(rider: RiderId, busy: bool)
    | Register(rider: RiderId)
    | DeleteRider(rider: RiderId)

  function Do(db: Db, step: Step): Db {
    match step
    case ReviewDocument(id, target, token, reason, now, disk) => Review(db, id, target, token, reason, now, disk).db
    case DeleteDocument(id, token, now, disk) => Delete(db, id, token, now, disk).db
    case ReplaceDocument(rider, kind, file, allowPending, newId, now) =>
      Replace(db, rider, kind, file, allowPending, newId, now).db
    case Report(rider, allowBusy, disk) => ReportOnline(db, rider, allowBusy, disk).db
    case InvalidateDocuments(rider, now) =>
      if rider in db.riders then RestrictRow(db, RejectAll(db.docs, rider, now), rider) else db
    case GoOffline(rider) =>
      if rider in db.riders then db.(riders := db.riders[rider := db.riders[rider].(online := false)]) else db
    case AdminActivate(rider, stamps, persists, now, disk) => Activate(db, rider, stamps, persists, now, disk).db
    case AdminRetire(rider, status) => Retire(db, rider, status).db
    case SetBusy(rider, busy) =>
      if rider in db.riders && Working(db.riders[rider].status) then
        db.(riders := db.riders[rider := db.riders[rider].(status := if busy then OCUPADO else ACTIVO)])
      else db
    case Register(rider) =>
      if rider in db.riders then db else db.(riders := db.riders[rider := Rider(RiderStatus.PENDIENTE, false, None)])
    case DeleteRider(rider) =>
      Db(db.riders - {rider}, Without(db.docs, rider))
  }

  /** The rows of other riders; deleting a rider cascades to its documents. */
  function Without(docs: seq<Doc>, rider: RiderId): seq<Doc> {
    if docs == [] then []
    else
      var last := docs[|docs| - 1];
      Without(docs[..|docs| - 1], rider) + if last.rider == rider then [] else [last]
  }

  function Run(db: Db, steps: seq<Step>): Db {
    if steps == [] then db else Do(Run(db, steps[..|steps| - 1]), steps[|steps| - 1])
  }

  // ----- what a complete set of documents is -----

  ghost predicate Covers(docs: seq<Doc>, kind: Kind) {
    exists i :: 0 <= i < |docs| && docs[i].kind == kind
  }

  ghost predicate OneOfAKind(docs: seq<Doc>) {
    forall i, j :: 0 <= i < j < |docs| ==> docs[i].kind != docs[j].kind
  }

  /** Exactly one document of each kind, approved and with a file, and no other. */
  ghost predicate CompleteSet(docs: seq<Doc>) {
    && OneOfAKind(docs)
    && (forall k: Kind :: Covers(docs, k))
    && (forall i :: 0 <= i < |docs| ==> docs[i].status == APROBADO && docs[i].file.Some?)
  }

  lemma {:induction false} KindsAreCovered(docs: seq<Doc>, kind: Kind)
    ensures kind in Kinds(docs) <==> Covers(docs, kind)
  {
  }

  lemma {:induction false} KindsExtend(docs: seq<Doc>, last: Doc)
    ensures Kinds(docs + [last]) == Kinds(docs) + {last.kind}
  {
    var all := docs + [last];
    forall k ensures k in Kinds(all) <==> k in Kinds(docs) + {last.kind} {
      if k in Kinds(docs) {
        var i :| 0 <= i < |docs| && docs[i].kind == k;
        assert all[i].kind == k;
      }
      if k == last.kind {
        assert all[|docs|].kind == k;
      }
    }
  }

  lemma {:induction false} OneOfAKindExtends(docs: seq<Doc>, last: Doc)
    ensures OneOfAKind(docs + [last]) <==> OneOfAKind(docs) && !Covers(docs, last.kind)
  {
    var all := docs + [last];
    assert forall i :: 0 <= i < |docs| ==> all[i] == docs[i];
    if OneOfAKind(all) {
      forall i, j | 0 <= i < j < |docs| ensures docs[i].kind != docs[j].kind {
        assert all[i].kind != all[j].kind;
      }
      forall i | 0 <= i < |docs| ensures docs[i].kind != last.kind {
        assert all[i].kind != all[|docs|].kind;
      }
    }
  }

  /** As many kinds as documents: no kind twice. */
  lemma {:induction false} NoKindTwice(docs: seq<Doc>)
    ensures |Kinds(docs)| <= |docs|
    ensures |docs| == |Kinds(docs)| <==> OneOfAKind(docs)
  {
    if docs == [] {
      assert Kinds(docs) == {};
    } else {
      var before, last := docs[..|docs| - 1], docs[|docs| - 1];
      assert docs == before + [last];
      NoKindTwice(before);
      KindsExtend(before, last);
      OneOfAKindExtends(before, last);
      KindsAreCovered(before, last.kind);
      if last.kind in Kinds(before) {
        assert Kinds(docs) == Kinds(before);
      }
    }
  }

  lemma {:induction false} EveryKindIsRequired(kind: Kind)
    ensures kind in REQUIRED
  {
  }

  /** The check passes exactly for a complete set. */
  lemma {:induction false} NoErrorIffComplete(docs: seq<Doc>)
    ensures RequiredDocumentError(docs) == None <==> CompleteSet(docs)
  {
    NoKindTwice(docs);
    forall k: Kind ensures k in REQUIRED && (k in Kinds(docs) <==> Covers(docs, k)) {
      EveryKindIsRequired(k);
      KindsAreCovered(docs, k);
    }
    if REQUIRED - Kinds(docs) == {} {
      forall k: Kind ensures Covers(docs, k) {
        EveryKindIsRequired(k);
        assert k in (REQUIRED - Kinds(docs)) + Kinds(docs);
        KindsAreCovered(docs, k);
      }
    }
  }

  lemma {:induction false} AvailableIffAll(docs: seq<Doc>, disk: Disk)
    ensures AvailabilityError(docs, disk) == None <==> forall i :: 0 <= i < |docs| ==> FileDefect(docs[i], disk) == None
  {
    if docs != [] {
      AvailableIffAll(docs[1..], disk);
      assert forall i :: 1 <= i < |docs| ==> docs[1..][i - 1] == docs[i];
    }
  }

  // ----- when a rider is ready -----

  predicate Mine(docs: seq<Doc>, rider: RiderId, i: int) {
    0 <= i < |docs| && docs[i].rider == rider
  }

  /** The file is stored for its own rider, is there and is not empty. */
  predicate Readable(doc: Doc, disk: Disk) {
    doc.file.Some? && doc.file.value.owner == doc.rider && doc.file.value in disk && disk[doc.file.value] > 0
  }

  /** One document of each of the four kinds and no other, all approved and readable. */
  ghost predicate Ready(docs: seq<Doc>, rider: RiderId, disk: Disk) {
    && AllKinds(docs, rider) && NoKindTwiceFor(docs, rider)
    && (forall i :: Mine(docs, rider, i) ==> docs[i].status == APROBADO && Readable(docs[i], disk))
  }

  ghost predicate HasKind(docs: seq<Doc>, rider: RiderId, kind: Kind) {
    exists i :: Mine(docs, rider, i) && docs[i].kind == kind
  }

  ghost predicate NoKindTwiceFor(docs: seq<Doc>, rider: RiderId) {
    forall i, j :: Mine(docs, rider, i) && Mine(docs, rider, j) && docs[i].kind == docs[j].kind ==> i == j
  }

  /** The selected documents are those of the rider. */
  lemma {:induction false} SelectedAreMine(docs: seq<Doc>, rider: RiderId)
    ensures forall d :: d in RiderDocuments(docs, rider) <==> exists i :: Mine(docs, rider, i) && docs[i] == d
  {
    if docs != [] {
      var n := |docs| - 1;
      SelectedAreMine(docs[..n], rider);
      var before := RiderDocuments(docs[..n], rider);
      forall d ensures d in RiderDocuments(docs, rider) <==> exists i :: Mine(docs, rider, i) && docs[i] == d {
        if d in before {
          var i :| Mine(docs[..n], rider, i) && docs[..n][i] == d;
          assert Mine(docs, rider, i) && docs[i] == d;
        }
        if d == docs[n] && docs[n].rider == rider {
          assert Mine(docs, rider, n);
        }
        if i :| Mine(docs, rider, i) && docs[i] == d {
          if i < n {
            assert Mine(docs[..n], rider, i) && docs[..n][i] == d;
          }
        }
      }
    }
  }

  lemma {:induction false} CoveredIffMine(docs: seq<Doc>, rider: RiderId, kind: Kind)
    ensures Covers(RiderDocuments(docs, rider), kind) <==> HasKind(docs, rider, kind)
  {
    SelectedAreMine(docs, rider);
    var mine := RiderDocuments(docs, rider);
    if Covers(mine, kind) {
      var k :| 0 <= k < |mine| && mine[k].kind == kind;
      assert mine[k] in mine;
    }
    if i :| Mine(docs, rider, i) && docs[i].kind == kind {
      assert docs[i] in mine;
    }
  }

  lemma {:induction false} OneOfAKindIffMine(docs: seq<Doc>, rider: RiderId)
    ensures OneOfAKind(RiderDocuments(docs, rider)) <==> NoKindTwiceFor(docs, rider)
  {
    if docs != [] {
      var init, last := docs[..|docs| - 1], docs[|docs| - 1];
      OneOfAKindIffMine(init, rider);
      assert docs == init + [last];
      if last.rider == rider {
        OneOfAKindExtends(RiderDocuments(init, rider), last);
        CoveredIffMine(init, rider, last.kind);
      } else {
        assert RiderDocuments(docs, rider) == RiderDocuments(init, rider);
      }
      LastKind(init, last, rider);
    }
  }

  lemma {:induction false} LastKind(init: seq<Doc>, last: Doc, rider: RiderId)
    ensures NoKindTwiceFor(init + [last], rider) <==>
            && NoKindTwiceFor(init, rider)
            && (last.rider == rider ==> !HasKind(init, rider, last.kind))
  {
    var docs := init + [last];
    assert forall i :: Mine(init, rider, i) ==> Mine(docs, rider, i) && docs[i] == init[i];
    assert forall i :: Mine(docs, rider, i) && i < |init| ==> Mine(init, rider, i);
    assert last.rider == rider ==> Mine(docs, rider, |init|) && docs[|init|] == last;
  }

  ghost predicate AllKinds(docs: seq<Doc>, rider: RiderId) {
    forall k: Kind :: HasKind(docs, rider, k)
  }

  ghost predicate AllCovered(docs: seq<Doc>) {
    forall k: Kind :: Covers(docs, k)
  }

  lemma {:induction false} CoveredIffHeld(docs: seq<Doc>, rider: RiderId)
    ensures AllCovered(RiderDocuments(docs, rider)) <==> AllKinds(docs, rider)
  {
    forall k: Kind ensures Covers(RiderDocuments(docs, rider), k) <==> HasKind(docs, rider, k) {
      CoveredIffMine(docs, rider, k);
    }
  }

  ghost predicate AllGood(docs: seq<Doc>, disk: Disk) {
    forall k :: 0 <= k < |docs| ==> docs[k].status == APROBADO && docs[k].file.Some? && FileDefect(docs[k], disk) == None
  }

  lemma {:induction false} NoDefectIff(docs: seq<Doc>, disk: Disk)
    ensures RequiredDocumentError(docs) == None && AvailabilityError(docs, disk) == None
            <==> OneOfAKind(docs) && AllCovered(docs) && AllGood(docs, disk)
  {
    NoErrorIffComplete(docs);
    AvailableIffAll(docs, disk);
  }

  /** The check passes exactly for a rider who is ready. */
  lemma {:induction false} ReadyIff(docs: seq<Doc>, rider: RiderId, disk: Disk)
    ensures ReadinessError(docs, rider, disk) == None <==> Ready(docs, rider, disk)
  {
    var mine := RiderDocuments(docs, rider);
    NoDefectIff(mine, disk);
    OneOfAKindIffMine(docs, rider);
    CoveredIffHeld(docs, rider);
    AllMine(docs, rider, disk);
    assert ReadinessError(docs, rider, disk) == None <==> RequiredDocumentError(mine) == None && AvailabilityError(mine, disk) == None;
  }

  lemma {:induction false} AllMine(docs: seq<Doc>, rider: RiderId, disk: Disk)
    ensures AllGood(RiderDocuments(docs, rider), disk) <==>
            forall i :: Mine(docs, rider, i) ==> docs[i].status == APROBADO && Readable(docs[i], disk)
  {
    SelectedAreMine(docs, rider);
    var mine := RiderDocuments(docs, rider);
    if AllGood(mine, disk) {
      forall i | Mine(docs, rider, i) ensures docs[i].status == APROBADO && Readable(docs[i], disk) {
        assert docs[i] in mine;
      }
    }
    if forall i :: Mine(docs, rider, i) ==> docs[i].status == APROBADO && Readable(docs[i], disk) {
      forall k | 0 <= k < |mine| ensures mine[k].status == APROBADO && mine[k].file.Some? && FileDefect(mine[k], disk) == None {
        assert mine[k] in mine;
      }
    }
  }

  /** Which defect is reported: the first of these that there is. */
  lemma {:induction false} DefectMeaning(docs: seq<Doc>)
    ensures var e := RequiredDocumentError(docs);
            var single, full := OneOfAKind(docs), forall k: Kind :: Covers(docs, k);
            var approved := forall i :: 0 <= i < |docs| ==> docs[i].status == APROBADO;
            var filed := forall i :: 0 <= i < |docs| ==> docs[i].file.Some?;
            && (e == Some(Duplicates) <==> !single)
            && (e == Some(Missing) <==> single && !full)
            && (e == Some(NotApproved) <==> single && full && !approved)
            && (e == Some(NoFile) <==> single && full && approved && !filed)
  {
    NoKindTwice(docs);
    forall k: Kind ensures k in REQUIRED && (k in Kinds(docs) <==> Covers(docs, k)) {
      EveryKindIsRequired(k);
      KindsAreCovered(docs, k);
    }
    if REQUIRED - Kinds(docs) == {} {
      forall k: Kind ensures Covers(docs, k) {
        assert k in (REQUIRED - Kinds(docs)) + Kinds(docs);
      }
    }
  }

  /** And of the files, the defect of the first that cannot be read: empty, or not there. */
  lemma {:induction false} FirstDefect(docs: seq<Doc>, disk: Disk)
    ensures var e := AvailabilityError(docs, disk);
            && (e == None <==> forall i :: 0 <= i < |docs| ==> Readable(docs[i], disk))
            && (e.Some? ==>
                  exists k :: 0 <= k < |docs| && !Readable(docs[k], disk) && (forall i :: 0 <= i < k ==> Readable(docs[i], disk))
                              && (e.value == EmptyFile <==> HasEmptyFile(docs[k], disk))
                              && (e.value == Unavailable <==> !HasEmptyFile(docs[k], disk)))
  {
    if docs != [] {
      FirstDefect(docs[1..], disk);
      assert forall i :: 1 <= i < |docs| ==> docs[1..][i - 1] == docs[i];
      if Readable(docs[0], disk) && AvailabilityError(docs[1..], disk).Some? {
        var k :| 0 <= k < |docs[1..]| && !Readable(docs[1..][k], disk) && (forall i :: 0 <= i < k ==> Readable(docs[1..][i], disk))
                 && (AvailabilityError(docs[1..], disk).value == EmptyFile <==> HasEmptyFile(docs[1..][k], disk))
                 && (AvailabilityError(docs[1..], disk).value == Unavailable <==> !HasEmptyFile(docs[1..][k], disk));
        assert docs[k + 1] == docs[1..][k];
        forall i | 0 <= i < k + 1 ensures Readable(docs[i], disk) {
          assert i > 0 ==> docs[i] == docs[1..][i - 1];
        }
      }
    }
  }

  predicate HasEmptyFile(doc: Doc, disk: Disk) {
    doc.file.Some? && doc.file.value.owner == doc.rider && doc.file.value in disk && disk[doc.file.value] == 0
  }

  // ----- the invariant -----

  ghost predicate EligibleRow(docs: seq<Doc>, rider: RiderId, row: Rider) {
    && (Working(row.status) || row.online ==> CompleteSet(RiderDocuments(docs, rider)))
    && (row.online ==> Working(row.status))
  }

  ghost predicate Eligible(db: Db) {
    forall r :: r in db.riders ==> EligibleRow(db.docs, r, db.riders[r])
  }

  /** Rows of other riders read the same documents. */
  ghost predicate SameForOthers(docs: seq<Doc>, docs': seq<Doc>, rider: RiderId) {
    forall r :: r != rider ==> RiderDocuments(docs', r) == RiderDocuments(docs, r)
  }

  lemma {:induction false} AppendRow(docs: seq<Doc>, row: Doc, r: RiderId)
    ensures RiderDocuments(docs + [row], r) == RiderDocuments(docs, r) + if row.rider == r then [row] else []
  {
  }

  lemma {:induction false} SplitRows(docs: seq<Doc>, more: seq<Doc>, r: RiderId)
    ensures RiderDocuments(docs + more, r) == RiderDocuments(docs, r) + RiderDocuments(more, r)
  {
    if more == [] {
      assert docs + more == docs;
    } else {
      var n := |more| - 1;
      SplitRows(docs, more[..n], r);
      assert docs + more == (docs + more[..n]) + [more[n]] && more == more[..n] + [more[n]];
      AppendRow(docs + more[..n], more[n], r);
      AppendRow(more[..n], more[n], r);
      Associate(RiderDocuments(docs, r), RiderDocuments(more[..n], r), if more[n].rider == r then [more[n]] else []);
    }
  }

  lemma {:induction false} Associate(a: seq<Doc>, b: seq<Doc>, c: seq<Doc>)
    ensures (a + b) + c == a + (b + c)
  {
  }

  lemma {:induction false} UpdateSparesOthers(docs: seq<Doc>, i: nat, row: Doc)
    requires i < |docs| && row.rider == docs[i].rider
    ensures SameForOthers(docs, docs[i := row], row.rider)
    ensures SameForOthers(docs, docs[..i] + docs[i + 1..], row.rider)
  {
    assert docs[i := row] == (docs[..i] + [row]) + docs[i + 1..];
    assert docs == (docs[..i] + [docs[i]]) + docs[i + 1..];
    forall r | r != row.rider
      ensures RiderDocuments(docs[i := row], r) == RiderDocuments(docs, r)
      ensures RiderDocuments(docs[..i] + docs[i + 1..], r) == RiderDocuments(docs, r)
    {
      SplitRows(docs[..i] + [row], docs[i + 1..], r);
      SplitRows(docs[..i] + [docs[i]], docs[i + 1..], r);
      SplitRows(docs[..i], docs[i + 1..], r);
      AppendRow(docs[..i], row, r);
      AppendRow(docs[..i], docs[i], r);
    }
  }

  lemma {:induction false} WithoutSparesOthers(docs: seq<Doc>, rider: RiderId, r: RiderId)
    requires r != rider
    ensures RiderDocuments(Without(docs, rider), r) == RiderDocuments(docs, r)
  {
    if docs != [] {
      var n := |docs| - 1;
      WithoutSparesOthers(docs[..n], rider, r);
      var rest := Without(docs[..n], rider);
      if docs[n].rider == rider {
        assert rest + [] == rest;
        assert RiderDocuments(docs[..n], r) + [] == RiderDocuments(docs[..n], r);
      } else {
        AppendRow(rest, docs[n], r);
      }
    }
  }

  lemma {:induction false} RejectAllSparesOthers(docs: seq<Doc>, rider: RiderId, now: int, r: RiderId)
    requires r != rider
    ensures RiderDocuments(RejectAll(docs, rider, now), r) == RiderDocuments(docs, r)
  {
    if docs != [] {
      var n := |docs| - 1;
      RejectAllSparesOthers(docs[..n], rider, now, r);
      var rejected := RejectAll(docs, rider, now);
      assert rejected[..n] == RejectAll(docs[..n], rider, now);
    }
  }

  /** Changing the documents of one rider and then settling its row keeps everybody eligible. */
  lemma {:induction false} SettleKeepsEligible(db: Db, docs: seq<Doc>, rider: RiderId, row: Rider)
    requires Eligible(db) && rider in db.riders
    requires SameForOthers(db.docs, docs, rider) && EligibleRow(docs, rider, row)
    ensures Eligible(Db(db.riders[rider := row], docs))
  {
  }

  lemma {:induction false} ReconciledRowIsEligible(docs: seq<Doc>, rider: RiderId, row: Rider, autoActivate: bool,
                                                   now: int, disk: Disk)
    requires row.online ==> Working(row.status)
    ensures EligibleRow(docs, rider, Reconcile(row, ReadinessError(docs, rider, disk), autoActivate, now))
  {
    NoErrorIffComplete(RiderDocuments(docs, rider));
  }

  lemma {:induction false} ReviewKeepsEligible(db: Db, id: DocId, target: DocStatus, token: Token,
                                               reason: Option<string>, now: int, disk: Disk)
    requires Eligible(db)
    ensures Eligible(Review(db, id, target, token, reason, now, disk).db)
  {
    var out := Review(db, id, target, token, reason, now, disk);
    if out.refusal == None {
      var i := LockDocument(db, id).value;
      var doc := db.docs[i];
      var reviewed := ReviewedRow(doc, target, reason, now);
      var docs := db.docs[i := reviewed];
      UpdateSparesOthers(db.docs, i, reviewed);
      assert EligibleRow(db.docs, doc.rider, db.riders[doc.rider]);
      ReconciledRowIsEligible(docs, doc.rider, db.riders[doc.rider], target == APROBADO, now, disk);
      SettleKeepsEligible(db, docs, doc.rider, out.db.riders[doc.rider]);
    }
  }

  lemma {:induction false} DeleteKeepsEligible(db: Db, id: DocId, token: Token, now: int, disk: Disk)
    requires Eligible(db)
    ensures Eligible(Delete(db, id, token, now, disk).db)
  {
    var out := Delete(db, id, token, now, disk);
    if out.refusal == None {
      var i := LockDocument(db, id).value;
      var doc := db.docs[i];
      var docs := db.docs[..i] + db.docs[i + 1..];
      UpdateSparesOthers(db.docs, i, doc);
      assert EligibleRow(db.docs, doc.rider, db.riders[doc.rider]);
      ReconciledRowIsEligible(docs, doc.rider, db.riders[doc.rider], false, now, disk);
      SettleKeepsEligible(db, docs, doc.rider, out.db.riders[doc.rider]);
    }
  }

  lemma {:induction false} ReplaceKeepsEligible(db: Db, rider: RiderId, kind: Kind, file: Ref, allowPending: bool,
                                                newId: DocId, now: int)
    requires Eligible(db)
    ensures Eligible(Replace(db, rider, kind, file, allowPending, newId, now).db)
  {
    var out := Replace(db, rider, kind, file, allowPending, newId, now);
    if out.refusal == None {
      var peers := Peers(db.docs, rider, kind);
      PeersInRange(db.docs, rider, kind);
      if |peers| == 1 {
        UpdateSparesOthers(db.docs, peers[0], out.db.docs[peers[0]]);
      } else {
        var row := out.db.docs[|db.docs|];
        forall r | r != rider ensures RiderDocuments(out.db.docs, r) == RiderDocuments(db.docs, r) {
          AppendRow(db.docs, row, r);
        }
      }
      SettleKeepsEligible(db, out.db.docs, rider, Restrict(db.riders[rider]));
    }
  }

  lemma {:induction false} ReportKeepsEligible(db: Db, rider: RiderId, allowBusy: bool, disk: Disk)
    requires Eligible(db)
    ensures Eligible(ReportOnline(db, rider, allowBusy, disk).db)
  {
  }

  lemma {:induction false} ActivateKeepsEligible(db: Db, rider: RiderId, stamps: bool, persists: bool, now: int, disk: Disk)
    requires Eligible(db)
    ensures Eligible(Activate(db, rider, stamps, persists, now, disk).db)
  {
    if rider in db.riders {
      NoErrorIffComplete(RiderDocuments(db.docs, rider));
      SettleKeepsEligible(db, db.docs, rider, Activate(db, rider, stamps, persists, now, disk).db.riders[rider]);
    }
  }

  lemma {:induction false} StepKeepsEligible(db: Db, step: Step)
    requires Eligible(db)
    ensures Eligible(Do(db, step))
  {
    match step
    case ReviewDocument(id, target, token, reason, now, disk) =>
      ReviewKeepsEligible(db, id, target, token, reason, now, disk);
    case DeleteDocument(id, token, now, disk) =>
      DeleteKeepsEligible(db, id, token, now, disk);
    case ReplaceDocument(rider, kind, file, allowPending, newId, now) =>
      ReplaceKeepsEligible(db, rider, kind, file, allowPending, newId, now);
    case Report(rider, allowBusy, disk) =>
      ReportKeepsEligible(db, rider, allowBusy, disk);
    case AdminActivate(rider, stamps, persists, now, disk) =>
      ActivateKeepsEligible(db, rider, stamps, persists, now, disk);
    case InvalidateDocuments(rider, now) =>
      if rider in db.riders {
        var docs := RejectAll(db.docs, rider, now);
        forall r | r != rider ensures RiderDocuments(docs, r) == RiderDocuments(db.docs, r) {
          RejectAllSparesOthers(db.docs, rider, now, r);
        }
        SettleKeepsEligible(db, docs, rider, Restrict(db.riders[rider]));
      }
    case DeleteRider(rider) =>
      forall r | r in db.riders && r != rider ensures EligibleRow(Without(db.docs, rider), r, db.riders[r]) {
        WithoutSparesOthers(db.docs, rider, r);
        assert EligibleRow(db.docs, r, db.riders[r]);
      }
    case _ =>
      SmallStepKeepsEligible(db, step);
  }

  lemma {:induction false} SmallStepKeepsEligible(db: Db, step: Step)
    requires Eligible(db)
    requires step.GoOffline? || step.AdminRetire? || step.SetBusy? || step.Register?
    ensures Eligible(Do(db, step))
  {
  }

  /** Over every run a rider who is ACTIVO, OCUPADO or online has exactly one
      approved document with a file for each kind, and online implies ACTIVO or OCUPADO. */
  lemma {:induction false} RunKeepsEligible(db: Db, steps: seq<Step>, rider: RiderId)
    requires Eligible(db)
    ensures Eligible(Run(db, steps))
    ensures rider in Run(db, steps).riders ==>
              var row := Run(db, steps).riders[rider];
              && (Working(row.status) || row.online ==> CompleteSet(RiderDocuments(Run(db, steps).docs, rider)))
              && (row.online ==> Working(row.status))
  {
    if steps != [] {
      RunKeepsEligible(db, steps[..|steps| - 1], rider);
      StepKeepsEligible(Run(db, steps[..|steps| - 1]), steps[|steps| - 1]);
    }
    assert rider in Run(db, steps).riders ==> EligibleRow(Run(db, steps).docs, rider, Run(db, steps).riders[rider]);
  }

  // ----- what document operations never do -----

  predicate IsDocumentStep(step: Step) {
    step.ReviewDocument? || step.DeleteDocument? || step.ReplaceDocument? || step.Report? || step.InvalidateDocuments?
  }

  /** A row that a document operation leaves: restricted, reconciled, or only shown on or off line. */
  ghost predicate Settled(before: Rider, after: Rider) {
    && (before.status == SUSPENDIDO <==> after.status == SUSPENDIDO)
    && (before.status == INACTIVO <==> after.status == INACTIVO)
    && (Working(after.status) ==> Working(before.status) || before.status == RiderStatus.PENDIENTE)
  }

  lemma {:induction false} DocumentStepSettles(db: Db, step: Step, rider: RiderId)
    requires IsDocumentStep(step) && rider in db.riders
    ensures rider in Do(db, step).riders
    ensures Settled(db.riders[rider], Do(db, step).riders[rider])
    ensures !step.ReviewDocument? && Working(Do(db, step).riders[rider].status) ==> Working(db.riders[rider].status)
  {
    match step {
      case ReviewDocument(id, target, token, reason, now, disk) =>
      case DeleteDocument(id, token, now, disk) =>
      case ReplaceDocument(r, kind, file, allowPending, newId, now) =>
      case Report(r, allowBusy, disk) =>
      case InvalidateDocuments(r, now) =>
    }
  }

  /** What a decision about its documents does to the row of a rider: the one who is not
      ready goes offline, and under review if working; an approval that finds the rider
      ready activates the one who is under review; nobody else changes but to offline. */
  predicate Follows(row: Rider, ready: bool, approval: bool, now: int, after: Rider) {
    match row.status
    case ACTIVO => after == if ready then row else Rider(RiderStatus.PENDIENTE, false, row.approvedAt)
    case OCUPADO => after == if ready then row else Rider(RiderStatus.PENDIENTE, false, row.approvedAt)
    case PENDIENTE =>
      after == if ready && approval then Rider(ACTIVO, false, Some(now)) else Rider(RiderStatus.PENDIENTE, false, row.approvedAt)
    case INACTIVO => after == Rider(INACTIVO, false, row.approvedAt)
    case SUSPENDIDO => after == Rider(SUSPENDIDO, false, row.approvedAt)
  }

  lemma {:induction false} ReconcileFollows(docs: seq<Doc>, rider: RiderId, row: Rider, autoActivate: bool, now: int, disk: Disk)
    ensures Follows(row, Ready(docs, rider, disk), autoActivate, now,
                    Reconcile(row, ReadinessError(docs, rider, disk), autoActivate, now))
  {
    ReadyIff(docs, rider, disk);
  }

  /** A review settles the row of its rider: the approval that completes a ready set
      activates a rider under review, and any other review activates nobody. All other
      riders stay as they are. */
  lemma {:induction false} ReviewSettles(db: Db, id: DocId, target: DocStatus, token: Token, reason: Option<string>,
                                         now: int, disk: Disk)
    requires Review(db, id, target, token, reason, now, disk).refusal == None
    ensures var after := Review(db, id, target, token, reason, now, disk).db;
            && token.Revision? && token.doc.rider in db.riders && token.doc.rider in after.riders
            && var rider := token.doc.rider;
               && Follows(db.riders[rider], Ready(after.docs, rider, disk), target == APROBADO, now, after.riders[rider])
               && after.riders == db.riders[rider := after.riders[rider]]
  {
    var i := LockDocument(db, id).value;
    var after, rider := Review(db, id, target, token, reason, now, disk).db, db.docs[i].rider;
    ReconcileFollows(after.docs, rider, db.riders[rider], target == APROBADO, now, disk);
  }

  lemma {:induction false} DeleteSettles(db: Db, id: DocId, token: Token, now: int, disk: Disk)
    requires Delete(db, id, token, now, disk).refusal == None
    ensures var after := Delete(db, id, token, now, disk).db;
            && token.Revision? && token.doc.rider in db.riders && token.doc.rider in after.riders
            && var rider := token.doc.rider;
               && Follows(db.riders[rider], Ready(after.docs, rider, disk), false, now, after.riders[rider])
               && after.riders == db.riders[rider := after.riders[rider]]
  {
    var i := LockDocument(db, id).value;
    var after, rider := Delete(db, id, token, now, disk).db, db.docs[i].rider;
    ReconcileFollows(after.docs, rider, db.riders[rider], false, now, disk);
  }

  /** No document operation lifts or imposes SUSPENDIDO or INACTIVO, for anyone; and the
      only way up is an approval that completes the set of a rider under review. */
  lemma {:induction false} DocumentStepsRespectAdministration(db: Db, step: Step, rider: RiderId)
    requires IsDocumentStep(step) && rider in db.riders
    ensures rider in Do(db, step).riders
    ensures db.riders[rider].status == SUSPENDIDO <==> Do(db, step).riders[rider].status == SUSPENDIDO
    ensures db.riders[rider].status == INACTIVO <==> Do(db, step).riders[rider].status == INACTIVO
    ensures !Working(db.riders[rider].status) && Working(Do(db, step).riders[rider].status) ==>
              && db.riders[rider].status == RiderStatus.PENDIENTE && step.ReviewDocument? && step.target == APROBADO
              && CompleteSet(RiderDocuments(Do(db, step).docs, rider))
  {
    DocumentStepSettles(db, step, rider);
    if step.ReviewDocument? && Review(db, step.id, step.target, step.token, step.reason, step.now, step.disk).refusal == None {
      ReviewSettles(db, step.id, step.target, step.token, step.reason, step.now, step.disk);
      ReadyIsComplete(Do(db, step).docs, rider, step.disk);
    }
  }

  lemma {:induction false} ReadyIsComplete(docs: seq<Doc>, rider: RiderId, disk: Disk)
    ensures Ready(docs, rider, disk) ==> CompleteSet(RiderDocuments(docs, rider))
  {
    ReadyIff(docs, rider, disk);
    NoErrorIffComplete(RiderDocuments(docs, rider));
  }

  /** A report is accepted exactly for a permitted status and a rider who is ready, and
      shows the rider online; a status that is not permitted or documents that are not
      ready put the rider offline, the latter also under review if working. */
  lemma {:induction false} ReportAnswers(db: Db, rider: RiderId, allowBusy: bool, disk: Disk)
    ensures var out := ReportOnline(db, rider, allowBusy, disk);
            && (out.refusal == Some(NotFound) <==> rider !in db.riders)
            && (rider !in db.riders ==> out.db == db)
            && (rider in db.riders ==>
                  var row, ready := db.riders[rider], Ready(db.docs, rider, disk);
                  var permitted := row.status == ACTIVO || (row.status == OCUPADO && allowBusy);
                  && (out.refusal == None <==> permitted && ready)
                  && (out.refusal == Some(NotPermitted) <==> !permitted)
                  && (out.refusal.Some? && out.refusal.value.NotReady? <==> permitted && !ready)
                  && out.db.docs == db.docs
                  && out.db.riders == db.riders[rider := Rider(if permitted && !ready then RiderStatus.PENDIENTE else row.status,
                                                              permitted && ready, row.approvedAt)])
  {
    ReadyIff(db.docs, rider, disk);
  }

  /** An administrator can activate exactly a rider who is ready; a refusal leaves the
      rider alone unless it is to persist, and then restricts like any other. */
  lemma {:induction false} ActivateAnswers(db: Db, rider: RiderId, stamps: bool, persists: bool, now: int, disk: Disk)
    ensures var out := Activate(db, rider, stamps, persists, now, disk);
            && (out.refusal == Some(NotFound) <==> rider !in db.riders)
            && (out.refusal.Some? && (out.refusal.value == NotFound || !persists) ==> out.db == db)
            && (rider in db.riders ==>
                  var row, ready := db.riders[rider], Ready(db.docs, rider, disk);
                  && (out.refusal == None <==> ready)
                  && out.db.docs == db.docs && rider in out.db.riders
                  && out.db.riders == db.riders[rider := out.db.riders[rider]]
                  && (ready ==> out.db.riders[rider] == Rider(ACTIVO, false, if stamps then Some(now) else row.approvedAt))
                  && (!ready && persists ==> Follows(row, false, false, now, out.db.riders[rider])))
  {
    ReadyIff(db.docs, rider, disk);
  }

  /** Any other status is given by an administrator only if it is not a working one, and
      takes the rider offline. */
  lemma {:induction false} RetireAnswers(db: Db, rider: RiderId, status: RiderStatus)
    ensures var out := Retire(db, rider, status);
            && (out.refusal == Some(NotPermitted) <==> status in {ACTIVO, OCUPADO})
            && (out.refusal == Some(NotFound) <==> status !in {ACTIVO, OCUPADO} && rider !in db.riders)
            && (out.refusal.Some? ==> out.db == db)
            && (out.refusal == None ==> out.db == db.(riders := db.riders[rider := Rider(status, false, db.riders[rider].approvedAt)]))
  {
  }

  /** A change of vehicle rejects every document of the rider, with one reason, and no
      other, and puts the rider offline, under review if working. */
  lemma {:induction false} InvalidationRejects(db: Db, rider: RiderId, now: int)
    requires rider in db.riders
    ensures var after := Do(db, InvalidateDocuments(rider, now));
            && |after.docs| == |db.docs| && rider in after.riders
            && (forall i :: 0 <= i < |db.docs| ==>
                  after.docs[i] == if db.docs[i].rider == rider
                                   then db.docs[i].(status := RECHAZADO, reason := Some(VEHICLE_CHANGED), updatedAt := Some(now))
                                   else db.docs[i])
            && Follows(db.riders[rider], false, false, now, after.riders[rider])
            && after.riders == db.riders[rider := after.riders[rider]]
  {
  }

  /** A review or a deletion acts only on the document exactly as it was seen. */
  lemma {:induction false} ActsOnWhatWasSeen(db: Db, id: DocId, target: DocStatus, token: Token,
                                             reason: Option<string>, now: int, disk: Disk)
    ensures Review(db, id, target, token, reason, now, disk).refusal == None ==> token.Revision? && token.doc in db.docs && token.doc.id == id
    ensures Delete(db, id, token, now, disk).refusal == None ==> token.Revision? && token.doc in db.docs && token.doc.id == id
  {
  }

  ghost predicate UniqueIds(docs: seq<Doc>) {
    forall i, j :: 0 <= i < j < |docs| ==> docs[i].id != docs[j].id
  }

  lemma {:induction false} FindDocIs(docs: seq<Doc>, i: nat)
    requires UniqueIds(docs) && i < |docs|
    ensures FindDoc(docs, docs[i].id) == Some(i)
  {
    var n := |docs| - 1;
    if i < n {
      FindDocIs(docs[..n], i);
    }
  }

  /** Why a review of a stored document is refused: no decision, no reason, no token, a
      token that is none or that is of another state of the document, and for an
      approval a second document of the kind or a file that cannot be read. */
  lemma {:induction false} ReviewRefuses(db: Db, i: nat, target: DocStatus, token: Token, reason: Option<string>,
                                         now: int, disk: Disk)
    requires UniqueIds(db.docs) && i < |db.docs| && db.docs[i].rider in db.riders
    ensures var doc := db.docs[i];
            var r := Review(db, doc.id, target, token, reason, now, disk).refusal;
            var decided, explained := target != DocStatus.PENDIENTE, target != RECHAZADO || (reason.Some? && !AllBlank(reason.value));
            var seen := token == Revision(doc);
            var alone := forall j :: Mine(db.docs, doc.rider, j) && j != i ==> db.docs[j].kind != doc.kind;
            && (r == Some(BadTarget) <==> !decided)
            && (r == Some(ReasonRequired) <==> decided && !explained)
            && (r == Some(TokenRequired) <==> decided && explained && token.NotGiven?)
            && (r == Some(TokenMalformed) <==> decided && explained && token.Malformed?)
            && (r == Some(DocumentChanged) <==> decided && explained && token.Revision? && !seen)
            && (r == Some(DuplicateDocuments) <==> target == APROBADO && seen && !alone)
            && (r.Some? && r.value.NotReady? <==> target == APROBADO && seen && alone && !Readable(doc, disk))
            && (r.Some? && r.value.NotReady? ==> r.value.defect == if HasEmptyFile(doc, disk) then EmptyFile else Unavailable)
            && (r == None <==> decided && explained && seen && (target == APROBADO ==> alone && Readable(doc, disk)))
  {
    var doc := db.docs[i];
    FindDocIs(db.docs, i);
    PeersAreMine(db.docs, i);
  }

  lemma {:induction false} PeersAreMine(docs: seq<Doc>, i: nat)
    requires i < |docs|
    ensures |Peers(docs, docs[i].rider, docs[i].kind)| > 1 <==>
            exists j :: Mine(docs, docs[i].rider, j) && j != i && docs[j].kind == docs[i].kind
  {
    var rider, kind := docs[i].rider, docs[i].kind;
    if |Peers(docs, rider, kind)| > 1 {
      ManyPeers(docs, rider, kind, i);
      var j :| 0 <= j < |docs| && j != i && docs[j].rider == rider && docs[j].kind == kind;
      assert Mine(docs, rider, j);
    }
    if j :| Mine(docs, rider, j) && j != i && docs[j].kind == kind {
      TwoPeers(docs, rider, kind, i, j);
    }
  }

  lemma {:induction false} PeersAscend(docs: seq<Doc>, rider: RiderId, kind: Kind)
    ensures forall k, l :: 0 <= k < l < |Peers(docs, rider, kind)| ==> Peers(docs, rider, kind)[k] < Peers(docs, rider, kind)[l]
  {
    if docs != [] {
      PeersAscend(docs[..|docs| - 1], rider, kind);
      PeersInRange(docs[..|docs| - 1], rider, kind);
    }
  }

  lemma {:induction false} ManyPeers(docs: seq<Doc>, rider: RiderId, kind: Kind, i: nat)
    requires |Peers(docs, rider, kind)| > 1
    ensures exists j :: 0 <= j < |docs| && j != i && docs[j].rider == rider && docs[j].kind == kind
  {
    var peers := Peers(docs, rider, kind);
    PeersInRange(docs, rider, kind);
    PeersAscend(docs, rider, kind);
    var j := if peers[0] == i then peers[1] else peers[0];
    assert j != i && docs[j].rider == rider && docs[j].kind == kind;
  }

  /** An accepted review changes one document, and of it only the decision, its time and
      its reason, which is what was given without the blanks around it. */
  lemma {:induction false} ReviewWrites(db: Db, i: nat, target: DocStatus, token: Token, reason: Option<string>,
                                        now: int, disk: Disk)
    requires UniqueIds(db.docs) && i < |db.docs|
    requires Review(db, db.docs[i].id, target, token, reason, now, disk).refusal == None
    ensures var after := Review(db, db.docs[i].id, target, token, reason, now, disk).db;
            && i < |after.docs|
            && after.docs == db.docs[i := db.docs[i].(status := target, updatedAt := Some(now), reason := after.docs[i].reason)]
            && (target == APROBADO ==> after.docs[i].reason == None)
            && (target == RECHAZADO ==>
                  reason.Some? && after.docs[i].reason.Some?
                  && exists a, b :: Inner(reason.value, after.docs[i].reason.value, a, b))
  {
    FindDocIs(db.docs, i);
    if target == RECHAZADO {
      var a, b := StripIsInner(reason.value);
    }
  }

  /** A deletion takes exactly the document as it was seen, and is refused for any other token. */
  lemma {:induction false} DeleteAnswers(db: Db, i: nat, token: Token, now: int, disk: Disk)
    requires UniqueIds(db.docs) && i < |db.docs| && db.docs[i].rider in db.riders
    ensures var out := Delete(db, db.docs[i].id, token, now, disk);
            && (out.refusal == None <==> token == Revision(db.docs[i]))
            && (out.refusal == Some(TokenRequired) <==> token.NotGiven?)
            && (out.refusal == Some(TokenMalformed) <==> token.Malformed?)
            && (out.refusal.Some? ==> out.db == db)
            && (out.refusal == None ==> out.db.docs == db.docs[..i] + db.docs[i + 1..])
  {
    FindDocIs(db.docs, i);
  }

  lemma {:induction false} WithoutIsTheRest(docs: seq<Doc>, rider: RiderId, d: Doc)
    ensures d in Without(docs, rider) <==> d in docs && d.rider != rider
  {
    if docs != [] {
      var n := |docs| - 1;
      WithoutIsTheRest(docs[..n], rider, d);
      assert docs == docs[..n] + [docs[n]];
    }
  }

  /** The other writers of a run: registration, the working status, going offline, and a
      deletion, which takes the documents along. */
  lemma {:induction false} OtherWriters(db: Db, rider: RiderId, busy: bool, d: Doc)
    ensures var row := if rider in db.riders then db.riders[rider] else Rider(RiderStatus.PENDIENTE, false, None);
            Do(db, Register(rider)) == db.(riders := db.riders[rider := row])
    ensures var gone := Do(db, DeleteRider(rider));
            gone.riders == db.riders - {rider} && (d in gone.docs <==> d in db.docs && d.rider != rider)
    ensures rider in db.riders ==>
              var row := db.riders[rider];
              && Do(db, GoOffline(rider)) == db.(riders := db.riders[rider := row.(online := false)])
              && var status := if row.status !in {ACTIVO, OCUPADO} then row.status else if busy then OCUPADO else ACTIVO;
                 Do(db, SetBusy(rider, busy)) == db.(riders := db.riders[rider := row.(status := status)])
  {
    WithoutIsTheRest(db.docs, rider, d);
    if rider in db.riders {
      assert db.riders[rider := db.riders[rider]] == db.riders;
    }
  }

  /** A document that is not there, or whose rider is not, is found by nobody. */
  lemma {:induction false} UnknownDocument(db: Db, id: DocId, target: DocStatus, token: Token, reason: Option<string>,
                                           now: int, disk: Disk)
    requires forall i :: 0 <= i < |db.docs| ==> db.docs[i].id != id || db.docs[i].rider !in db.riders
    ensures Delete(db, id, token, now, disk) == Outcome(db, Some(NotFound))
    ensures var out := Review(db, id, target, token, reason, now, disk);
            out.db == db && (out.refusal == Some(NotFound) || out.refusal == Some(BadTarget) || out.refusal == Some(ReasonRequired))
  {
  }

  /** A new file is taken for a kind of which the rider has no document, or a rejected one,
      or a pending one where that is allowed. It then waits for review, without a reason
      and at the time of now, and the rider goes offline, under review if working. */
  lemma {:induction false} ReplaceAnswers(db: Db, rider: RiderId, kind: Kind, file: Ref, allowPending: bool, newId: DocId,
                                          now: int)
    ensures var out := Replace(db, rider, kind, file, allowPending, newId, now);
            && (out.refusal == Some(NotFound) <==> rider !in db.riders)
            && (out.refusal.Some? ==> out.db == db)
            && (rider in db.riders ==>
                  && (out.refusal == Some(DuplicateDocuments) <==> |Peers(db.docs, rider, kind)| > 1)
                  && (out.refusal == None ==>
                        && rider in out.db.riders && Follows(db.riders[rider], false, false, now, out.db.riders[rider])
                        && out.db.riders == db.riders[rider := out.db.riders[rider]])
                  && (|Peers(db.docs, rider, kind)| == 0 ==>
                        && out.refusal == None
                        && out.db.docs == db.docs + [Doc(newId, rider, kind, Some(file), DocStatus.PENDIENTE, None, Some(now))]))
  {
  }

  lemma {:induction false} ReplaceExisting(db: Db, rider: RiderId, kind: Kind, file: Ref, allowPending: bool, newId: DocId,
                                           now: int, i: nat)
    requires rider in db.riders && Mine(db.docs, rider, i) && db.docs[i].kind == kind
    requires forall j :: Mine(db.docs, rider, j) && db.docs[j].kind == kind ==> j == i
    ensures var out, doc := Replace(db, rider, kind, file, allowPending, newId, now), db.docs[i];
            && (out.refusal == None <==> doc.status == RECHAZADO || (doc.status == DocStatus.PENDIENTE && allowPending))
            && (out.refusal == None || out.refusal == Some(NotReplaceable))
            && (out.refusal == None ==>
                  out.db.docs == db.docs[i := Doc(doc.id, rider, kind, Some(file), DocStatus.PENDIENTE, None, Some(now))])
  {
    PeerAt(db.docs, rider, kind, i);
    PeersAreMine(db.docs, i);
    PeersInRange(db.docs, rider, kind);
    var p := Peers(db.docs, rider, kind)[0];
    assert Mine(db.docs, rider, p);
  }

  /** After a replacement the token of the file that was there before is worth nothing. */
  lemma {:induction false} ReplacedTokenIsStale(db: Db, rider: RiderId, kind: Kind, file: Ref, allowPending: bool,
                                                newId: DocId, now: int,
                                                seen: Doc, target: DocStatus, reason: Option<string>, later: int, disk: Disk)
    requires Replace(db, rider, kind, file, allowPending, newId, now).refusal == None
    requires seen in db.docs && seen.rider == rider && seen.kind == kind && seen.file != Some(file)
    ensures var db' := Replace(db, rider, kind, file, allowPending, newId, now).db;
            && Review(db', seen.id, target, Revision(seen), reason, later, disk).refusal.Some?
            && Delete(db', seen.id, Revision(seen), later, disk).refusal.Some?
  {
    var db' := Replace(db, rider, kind, file, allowPending, newId, now).db;
    PeersInRange(db.docs, rider, kind);
    EveryPeerListed(db.docs, rider, kind, seen);
    var p := Peers(db.docs, rider, kind)[0];
    if seen in db'.docs {
      var i :| 0 <= i < |db'.docs| && db'.docs[i] == seen;
      assert i != p && db.docs[i] == seen;
      TwoPeers(db.docs, rider, kind, i, p);
    }
    ActsOnWhatWasSeen(db', seen.id, target, Revision(seen), reason, later, disk);
  }

  /** An accepted review uses up its token: the same token still deletes the document
      afterwards exactly if the review changed nothing, down to its time, and
      otherwise no second review takes it either. */
  lemma {:induction false} ReviewedTokenIsStale(db: Db, i: nat, target: DocStatus, reason: Option<string>, now: int,
                                                again: DocStatus, because: Option<string>, later: int, disk: Disk)
    requires UniqueIds(db.docs) && i < |db.docs|
    requires Review(db, db.docs[i].id, target, Revision(db.docs[i]), reason, now, disk).refusal == None
    ensures var seen, after := db.docs[i], Review(db, db.docs[i].id, target, Revision(db.docs[i]), reason, now, disk).db;
            var same := i < |after.docs| && after.docs[i] == seen;
            && (same ==> seen.updatedAt == Some(now) && seen.status == target)
            && (Delete(after, seen.id, Revision(seen), later, disk).refusal == None <==> same)
            && (Review(after, seen.id, again, Revision(seen), because, later, disk).refusal == None ==> same)
  {
    var seen := db.docs[i];
    var after := Review(db, seen.id, target, Revision(seen), reason, now, disk).db;
    ReviewWrites(db, i, target, Revision(seen), reason, now, disk);
    assert forall j :: 0 <= j < |db.docs| ==> after.docs[j].id == db.docs[j].id;
    assert UniqueIds(after.docs);
    FindDocIs(after.docs, i);
    ActsOnWhatWasSeen(after, seen.id, again, Revision(seen), because, later, disk);
  }

  lemma {:induction false} PeerAt(docs: seq<Doc>, rider: RiderId, kind: Kind, i: nat)
    requires i < |docs| && docs[i].rider == rider && docs[i].kind == kind
    ensures i in Peers(docs, rider, kind)
  {
    var n := |docs| - 1;
    if i < n {
      PeerAt(docs[..n], rider, kind, i);
    }
  }

  lemma {:induction false} EveryPeerListed(docs: seq<Doc>, rider: RiderId, kind: Kind, seen: Doc)
    requires seen in docs && seen.rider == rider && seen.kind == kind
    ensures |Peers(docs, rider, kind)| >= 1
  {
    var i :| 0 <= i < |docs| && docs[i] == seen;
    PeerAt(docs, rider, kind, i);
  }

  lemma {:induction false} TwoPeers(docs: seq<Doc>, rider: RiderId, kind: Kind, i: nat, j: nat)
    requires i < |docs| && j < |docs| && i != j
    requires docs[i].rider == docs[j].rider == rider && docs[i].kind == docs[j].kind == kind
    ensures |Peers(docs, rider, kind)| > 1
  {
    PeerAt(docs, rider, kind, i);
    PeerAt(docs, rider, kind, j);
    var peers := Peers(docs, rider, kind);
    var a :| 0 <= a < |peers| && peers[a] == i;
    var b :| 0 <= b < |peers| && peers[b] == j;
    assert a != b;
  }

  // ----- the tables -----

  /** The check of the files, one document after the other. */
  method FindUnavailable(docs: seq<Doc>, disk: Disk) returns (r: Option<Defect>)
    ensures r == AvailabilityError(docs, disk)
  {
    for i := 0 to |docs|
      invariant AvailabilityError(docs, disk) == AvailabilityError(docs[i..], disk)
    {
      assert docs[i..][1..] == docs[i + 1..];
      r := FileDefect(docs[i], disk);
      if r.Some? {
        return;
      }
    }
    r := None;
  }

  class DocumentTables {
    var riders: map<RiderId, Rider>
    var docs: seq<Doc>

    constructor (riders: map<RiderId, Rider>, docs: seq<Doc>)
      ensures State() == Db(riders, docs)
    {
      this.riders, this.docs := riders, docs;
    }

    ghost function State(): Db
      reads this
    {
      Db(riders, docs)
    }

    /** Offline, and under review if the rider was working. */
    method RestrictRiderDocuments(rider: RiderId)
      requires rider in riders
      modifies this`riders
      ensures State() == RestrictRow(old(State()), docs, rider)
    {
      var row := riders[rider];
      var status := if row.status == ACTIVO || row.status == OCUPADO then RiderStatus.PENDIENTE else row.status;
      riders := riders[rider := row.(status := status, online := false)];
    }

    method DocumentReadinessError(rider: RiderId, disk: Disk) returns (r: Option<Defect>)
      ensures r == ReadinessError(docs, rider, disk)
    {
      var mine := RiderDocuments(docs, rider);
      r := RequiredDocumentError(mine);
      if r.None? {
        r := FindUnavailable(mine, disk);
      }
    }

    method ReconcileDocumentEligibility(rider: RiderId, autoActivate: bool, now: int, disk: Disk)
      requires rider in riders
      modifies this`riders
      ensures State() == ReconcileRow(old(State()), docs, rider, autoActivate, now, disk)
    {
      var error := DocumentReadinessError(rider, disk);
      if error.Some? {
        RestrictRiderDocuments(rider);
        return;
      }
      var status := riders[rider].status;
      if autoActivate && status == RiderStatus.PENDIENTE {
        riders := riders[rider := Rider(ACTIVO, false, Some(now))];
      } else if status != ACTIVO && status != OCUPADO {
        riders := riders[rider := riders[rider].(online := false)];
      }
    }

    method ReviewDocument(id: DocId, target: DocStatus, token: Token, reason: Option<string>, now: int, disk: Disk)
      returns (r: Option<Refusal>)
      modifies this
      ensures Outcome(State(), r) == Review(old(State()), id, target, token, reason, now, disk)
    {
      if target != APROBADO && target != RECHAZADO {
        return Some(BadTarget);
      }
      if target == RECHAZADO && (reason.None? || Strip(reason.value) == "") {
        return Some(ReasonRequired);
      }
      var found := LockDocument(Db(riders, docs), id);
      if found.None? {
        return Some(NotFound);
      }
      var i := found.value;
      var doc := docs[i];
      r := CheckToken(doc, token);
      if r.Some? {
        return;
      }
      if target == APROBADO {
        if |Peers(docs, doc.rider, doc.kind)| > 1 {
          return Some(DuplicateDocuments);
        }
        var defect := FileDefect(doc, disk);
        if defect.Some? {
          return Some(NotReady(defect.value));
        }
      }
      docs := docs[i := ReviewedRow(doc, target, reason, now)];
      ReconcileDocumentEligibility(doc.rider, target == APROBADO, now, disk);
      r := None;
    }

    method DeleteReviewedDocument(id: DocId, token: Token, now: int, disk: Disk) returns (r: Option<Refusal>)
      modifies this
      ensures Outcome(State(), r) == Delete(old(State()), id, token, now, disk)
    {
      var found := LockDocument(Db(riders, docs), id);
      if found.None? {
        return Some(NotFound);
      }
      var i := found.value;
      r := CheckToken(docs[i], token);
      if r.Some? {
        return;
      }
      var rider := docs[i].rider;
      docs := docs[..i] + docs[i + 1..];
      ReconcileDocumentEligibility(rider, false, now, disk);
    }

    method ReplaceDocument(rider: RiderId, kind: Kind, file: Ref, allowPending: bool, newId: DocId, now: int)
      returns (r: Option<Refusal>)
      modifies this
      ensures Outcome(State(), r) == Replace(old(State()), rider, kind, file, allowPending, newId, now)
    {
      if rider !in riders {
        return Some(NotFound);
      }
      var peers := Peers(docs, rider, kind);
      PeersInRange(docs, rider, kind);
      if |peers| > 1 {
        return Some(DuplicateDocuments);
      }
      if |peers| == 1 && !Replaceable(docs[peers[0]], allowPending) {
        return Some(NotReplaceable);
      }
      if |peers| == 1 {
        var doc := docs[peers[0]];
        docs := docs[peers[0] := doc.(file := Some(file), status := DocStatus.PENDIENTE, reason := None, updatedAt := Some(now))];
      } else {
        docs := docs + [Doc(newId, rider, kind, Some(file), DocStatus.PENDIENTE, None, Some(now))];
      }
      RestrictRiderDocuments(rider);
      return None;
    }

    method ReportRiderOnline(rider: RiderId, allowBusy: bool, disk: Disk) returns (r: Option<Refusal>)
      modifies this`riders
      ensures Outcome(State(), r) == ReportOnline(old(State()), rider, allowBusy, disk)
    {
      if rider !in riders {
        return Some(NotFound);
      }
      var status := riders[rider].status;
      if status != ACTIVO && !(allowBusy && status == OCUPADO) {
        riders := riders[rider := riders[rider].(online := false)];
        return Some(NotPermitted);
      }
      var error := DocumentReadinessError(rider, disk);
      if error.Some? {
        RestrictRiderDocuments(rider);
        return Some(NotReady(error.value));
      }
      riders := riders[rider := riders[rider].(online := true)];
      return None;
    }
  }
}
