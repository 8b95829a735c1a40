/**
 KYC records and their documents: uploads, copies of identity documents between a user's records,
 submissions and admin decisions, as steps on the table of records. Records are kept in creation order
 and never deleted; a document is named by its record and its place in it.
 */
module Kyc {
  import opened Wrappers
  import opened Calendar

  type UserId = nat
  type VehicleId = nat

  datatype Role = Driver | VehicleOwner
  datatype DocType =
    | AadhaarFront | AadhaarBack | PanCard | DrivingLicense | Selfie
    | RcBook | Insurance | PucCertificate | FitnessCert | Permit
  datatype DocStatus = DocPending | DocApproved | DocRejected
  datatype Status = NoStatus | Pending | Verified | Rejected

  datatype Doc = Doc(kind: DocType, url: string, status: DocStatus, reason: string)
  datatype Record = Record(
    user: UserId, vehicle: Option<VehicleId>, role: Option<Role>, status: Status, reason: string,
    submittedAt: Option<Time>, reviewer: Option<UserId>, reviewedAt: Option<Time>, documents: seq<Doc>)

  type Table = seq<Record>

  const IDENTITY: set<DocType> := {AadhaarFront, AadhaarBack, Selfie}

  function NewRecord(user: UserId, vehicle: Option<VehicleId>, role: Option<Role>, status: Status): Record {
    Record(user, vehicle, role, status, "", None, None, None, [])
  }

  function RequiredOf(role: Role): set<DocType> {
    match role
    case Driver => IDENTITY + {DrivingLicense}
    case VehicleOwner => IDENTITY
  }

  /** `white` is the answer of the plate lookup, false when the lookup fails. */
  function RequiredOfVehicle(white: bool): set<DocType> {
    {RcBook, Insurance, PucCertificate} + if white then {} else {FitnessCert, Permit}
  }

  /** What a driver, an owner and a vehicle must show; a vehicle without white plates has two papers more. */
  lemma WhatIsRequired()
    ensures RequiredOf(Driver) == {AadhaarFront, AadhaarBack, Selfie, DrivingLicense}
    ensures RequiredOf(VehicleOwner) == {AadhaarFront, AadhaarBack, Selfie}
    ensures RequiredOfVehicle(true) == {RcBook, Insurance, PucCertificate}
    ensures RequiredOfVehicle(false) == {RcBook, Insurance, PucCertificate, FitnessCert, Permit}
    ensures forall v: Record, white :: Mandatory(v, white) ==
              if v.vehicle.Some? then RequiredOfVehicle(white)
              else if v.role.Some? then RequiredOf(v.role.value)
              else {AadhaarFront, AadhaarBack, Selfie}
  {
  }

  function Kinds(docs: seq<Doc>): set<DocType> {
    set d <- docs :: d.kind
  }

  predicate OnePerType(docs: seq<Doc>) {
    forall i, j | 0 <= i < j < |docs| :: docs[i].kind != docs[j].kind
  }

  // ---------------------------------------------------------------------------
  // Looking records up
  // ---------------------------------------------------------------------------

  datatype Query =
    | VehiclePending(vehicle: VehicleId, role: Role)
    | UserPending(user: UserId, role: Role)
    | RolelessPending(user: UserId)
    | OfVehicle(vehicle: VehicleId, role: Role)
    | OfRole(user: UserId, role: Role)
    | Roleless(user: UserId)
    | Personal(user: UserId)

  predicate Matches(r: Record, q: Query) {
    match q
    case VehiclePending(vehicle, role) => r.vehicle == Some(vehicle) && r.role == Some(role) && r.status == Pending
    case UserPending(user, role) => r.user == user && r.role == Some(role) && r.status == Pending
    case RolelessPending(user) => r.user == user && r.vehicle.None? && r.role.None? && r.status == Pending
    case OfVehicle(vehicle, role) => r.vehicle == Some(vehicle) && r.role == Some(role)
    case OfRole(user, role) => r.user == user && r.role == Some(role)
    case Roleless(user) => r.user == user && r.vehicle.None? && r.role.None?
    case Personal(user) => r.user == user && r.vehicle.None?
  }

  /** findOne without an order: any match, and none only when there is none. */
  predicate IsFindOne(t: Table, q: Query, found: Option<nat>) {
    match found
    case None => forall r <- t :: !Matches(r, q)
    case Some(i) => i < |t| && Matches(t[i], q)
  }

  /** findOne, newest first. */
  function Latest(t: Table, q: Query): (found: Option<nat>)
    ensures IsFindOne(t, q, found)
    ensures found.Some? ==> forall j | found.value < j < |t| :: !Matches(t[j], q)
  {
    if t == [] then None
    else if Matches(t[|t| - 1], q) then Some(|t| - 1)
    else
      assert forall r <- t :: r == t[|t| - 1] || r in t[..|t| - 1];
      Latest(t[..|t| - 1], q)
  }

  /** find without an order: all matches, in any order. */
  predicate IsFind(t: Table, q: Query, list: seq<nat>) {
    && (forall i <- list :: i < |t| && Matches(t[i], q))
    && (forall i | 0 <= i < |t| && Matches(t[i], q) :: i in list)
  }

  /** A record that is created when it is not found. */
  function Ensured(t: Table, found: Option<nat>, blank: Record): Table {
    if found.Some? then t else t + [blank]
  }

  function PlaceOf(t: Table, found: Option<nat>): nat {
    found.GetOr(|t|)
  }

  function WithDocs(t: Table, i: nat, docs: seq<Doc>): Table
    requires i < |t|
  {
    t[i := t[i].(documents := docs)]
  }

  // ---------------------------------------------------------------------------
  // Uploads and copies
  // ---------------------------------------------------------------------------

  function PlaceOfKind(docs: seq<Doc>, kind: DocType): (i: Option<nat>)
    ensures i.Some? ==> i.value < |docs| && docs[i.value].kind == kind
    ensures i.None? ==> kind !in Kinds(docs)
  {
    if docs == [] then None
    else if docs[|docs| - 1].kind == kind then Some(|docs| - 1)
    else
      assert forall d <- docs :: d == docs[|docs| - 1] || d in docs[..|docs| - 1];
      PlaceOfKind(docs[..|docs| - 1], kind)
  }

  /** A second upload of a type replaces the url and sets the status back; the old reason stays. */
  function Uploaded(docs: seq<Doc>, kind: DocType, url: string): seq<Doc> {
    var i := PlaceOfKind(docs, kind);
    if i.Some? then docs[i.value := docs[i.value].(url := url, status := DocPending)]
    else docs + [Doc(kind, url, DocPending, "")]
  }

  function AfterUpload(t: Table, found: Option<nat>, blank: Record, kind: DocType, url: string): Table
    requires found.Some? ==> found.value < |t|
  {
    var t', i := Ensured(t, found, blank), PlaceOf(t, found);
    WithDocs(t', i, Uploaded(t'[i].documents, kind, url))
  }

  /** docsToCopy: the identity documents of a source whose type the target does not have yet. */
  function ToCopy(source: seq<Doc>, have: set<DocType>): (docs: seq<Doc>)
    ensures forall d <- docs :: d in source && d.kind in IDENTITY - have
    ensures forall d <- source :: d.kind in IDENTITY - have ==> d in docs
  {
    if source == [] then []
    else
      var d := source[|source| - 1];
      assert forall x <- source :: x == d || x in source[..|source| - 1];
      ToCopy(source[..|source| - 1], have) + if d.kind in IDENTITY - have then [d] else []
  }

  /** The documents of record i after the copy loops over the records in `order`. */
  function CopyAll(t: Table, i: nat, order: seq<nat>): seq<Doc>
    requires i < |t|
  {
    if order == [] then t[i].documents
    else
      var have, v := CopyAll(t, i, order[..|order| - 1]), order[|order| - 1];
      if v == i || v >= |t| then have else have + ToCopy(t[v].documents, Kinds(have))
  }

  /** The identity types some other personal record of the user holds. */
  function Elsewhere(t: Table, i: nat, user: UserId): set<DocType> {
    set k <- IDENTITY |
      exists v :: 0 <= v < |t| && v != i && Matches(t[v], Personal(user)) && k in Kinds(t[v].documents)
  }

  predicate HasSource(t: Table, i: nat, order: seq<nat>, d: Doc) {
    exists v <- order :: v != i && v < |t| && d in t[v].documents
  }

  /** What the loops add is copies, of identity types that were not there. */
  lemma {:induction false} CopiesHaveSources(t: Table, i: nat, order: seq<nat>)
    requires i < |t|
    ensures t[i].documents <= CopyAll(t, i, order)
    ensures forall d <- CopyAll(t, i, order)[|t[i].documents|..] ::
              d.kind in IDENTITY - Kinds(t[i].documents) && HasSource(t, i, order, d)
  {
    if order != [] {
      var front, v := order[..|order| - 1], order[|order| - 1];
      CopiesHaveSources(t, i, front);
      var n, before, after := |t[i].documents|, CopyAll(t, i, front), CopyAll(t, i, order);
      KindsGrow(t[i].documents, before);
      forall d <- after[n..] ensures d.kind in IDENTITY - Kinds(t[i].documents) && HasSource(t, i, order, d) {
        if d in before[n..] {
          assert HasSource(t, i, front, d);
        } else {
          assert d in after[|before|..];
          assert v in order && d in t[v].documents;
        }
      }
    }
  }

  lemma KindsGrow(a: seq<Doc>, b: seq<Doc>)
    requires a <= b
    ensures Kinds(a) <= Kinds(b)
  {
  }

  lemma KindsOfBoth(a: seq<Doc>, b: seq<Doc>)
    ensures Kinds(a + b) == Kinds(a) + Kinds(b)
  {
  }

  lemma KindsToCopy(source: seq<Doc>, have: set<DocType>)
    ensures have + Kinds(ToCopy(source, have)) == have + IDENTITY * Kinds(source)
  {
  }

  function KindsAmong(t: Table, i: nat, order: seq<nat>): set<DocType> {
    set k <- IDENTITY | exists v <- order :: v != i && v < |t| && k in Kinds(t[v].documents)
  }

  lemma KindsAmongOneMore(t: Table, i: nat, order: seq<nat>)
    requires order != []
    ensures
      var front, v := order[..|order| - 1], order[|order| - 1];
      KindsAmong(t, i, order) ==
      KindsAmong(t, i, front) + if v != i && v < |t| then IDENTITY * Kinds(t[v].documents) else {}
  {
  }

  lemma {:induction false} CopiedKinds(t: Table, i: nat, order: seq<nat>)
    requires i < |t|
    ensures Kinds(CopyAll(t, i, order)) == Kinds(t[i].documents) + KindsAmong(t, i, order)
  {
    if order != [] {
      var front, v := order[..|order| - 1], order[|order| - 1];
      CopiedKinds(t, i, front);
      KindsAmongOneMore(t, i, order);
      if v != i && v < |t| {
        var have := CopyAll(t, i, front);
        KindsOfBoth(have, ToCopy(t[v].documents, Kinds(have)));
        KindsToCopy(t[v].documents, Kinds(have));
      }
    } else {
      assert KindsAmong(t, i, order) == {};
    }
  }

  lemma AmongAllIsElsewhere(t: Table, i: nat, user: UserId, order: seq<nat>)
    requires IsFind(t, Personal(user), order)
    ensures KindsAmong(t, i, order) == Elsewhere(t, i, user)
  {
  }

  /**
   Whatever order the database returns the user's records in, the target ends with its own types and
   every identity type the user holds elsewhere.
   */
  lemma CopiedKindsInAnyOrder(t: Table, i: nat, user: UserId, order: seq<nat>)
    requires i < |t| && IsFind(t, Personal(user), order)
    ensures Kinds(CopyAll(t, i, order)) == Kinds(t[i].documents) + Elsewhere(t, i, user)
  {
    CopiedKinds(t, i, order);
    AmongAllIsElsewhere(t, i, user, order);
  }

  lemma {:induction false} NothingNew(source: seq<Doc>, have: set<DocType>)
    requires IDENTITY * Kinds(source) <= have
    ensures ToCopy(source, have) == []
  {
    if source != [] {
      KindsGrow(source[..|source| - 1], source);
      NothingNew(source[..|source| - 1], have);
      assert source[|source| - 1] in source;
    }
  }

  /** With every type already there, the loops copy nothing. */
  lemma {:induction false} NothingToCopy(t: Table, i: nat, order: seq<nat>)
    requires i < |t| && KindsAmong(t, i, order) <= Kinds(t[i].documents)
    ensures CopyAll(t, i, order) == t[i].documents
  {
    if order != [] {
      var front, v := order[..|order| - 1], order[|order| - 1];
      KindsAmongOneMore(t, i, order);
      NothingToCopy(t, i, front);
      if v != i && v < |t| {
        NothingNew(t[v].documents, Kinds(t[i].documents));
      }
    }
  }

  // ---------------------------------------------------------------------------
  // The steps
  // ---------------------------------------------------------------------------

  datatype Review = Review(
    record: nat, place: nat, admin: UserId, status: DocStatus, reason: string, white: bool, now: Time)

  /** Lookups (`found`, `again`, `order`, `white`) are what the database and the catalog answer. */
  datatype Event =
    | UploadForVehicle(user: UserId, vehicle: VehicleId, role: Role, kind: DocType, url: string, found: Option<nat>)
    | UploadForRole(user: UserId, role: Role, kind: DocType, url: string, found: Option<nat>, order: seq<nat>)
    | UploadUserKyc(user: UserId, kind: DocType, url: string, found: Option<nat>)
    | AskStatus(user: UserId, role: Role, order: seq<nat>)
    | SubmitUserKyc(user: UserId, found: Option<nat>, now: Time)
    | SubmitKycDoc(user: UserId, role: Role, found: Option<nat>, order: seq<nat>, now: Time)
    | SubmitVehicleDocs(vehicle: VehicleId, role: Role, found: Option<nat>, white: bool, now: Time)
    | ReviewDocument(review: Review)
    | Approve(record: nat, admin: UserId, now: Time)
    | Reject(record: nat, admin: UserId, reason: string, now: Time)

  /** The table in which the role's record exists, before the copy loops of getVerificationStatus. */
  function StatusTable(t: Table, user: UserId, role: Role): Table {
    Ensured(t, Latest(t, OfRole(user, role)), NewRecord(user, None, Some(role), NoStatus))
  }

  function StatusPlace(t: Table, user: UserId, role: Role): (i: nat)
    ensures i < |StatusTable(t, user, role)|
  {
    PlaceOf(t, Latest(t, OfRole(user, role)))
  }

  /** getVerificationStatus also writes: a missing record, and copies of identity documents. */
  function AfterStatus(t: Table, user: UserId, role: Role, order: seq<nat>): Table {
    var t', i := StatusTable(t, user, role), StatusPlace(t, user, role);
    WithDocs(t', i, CopyAll(t', i, order))
  }

  function Missing(required: set<DocType>, docs: seq<Doc>): set<DocType> {
    required - Kinds(docs)
  }

  function UploadedForRole(t: Table, user: UserId, role: Role, kind: DocType, url: string, found: Option<nat>): Table
    requires found.Some? ==> found.value < |t|
  {
    AfterUpload(t, found, NewRecord(user, None, Some(role), Pending), kind, url)
  }

  /** A submission with nothing missing makes the record PENDING again, whatever it was. */
  function Submitted(t: Table, i: nat, required: set<DocType>, now: Time): Table
    requires i < |t|
  {
    if Missing(required, t[i].documents) != {} then t
    else t[i := t[i].(status := Pending, submittedAt := Some(now))]
  }

  function SubmitTable(t: Table, user: UserId, role: Role, found: Option<nat>): Table {
    Ensured(t, found, NewRecord(user, None, Some(role), NoStatus))
  }

  function AfterSubmitKycDoc(t: Table, user: UserId, role: Role, found: Option<nat>, order: seq<nat>, now: Time): Table
    requires found.Some? ==> found.value < |t|
  {
    var t', i := SubmitTable(t, user, role, found), PlaceOf(t, found);
    Submitted(WithDocs(t', i, CopyAll(t', i, order)), i, RequiredOf(role), now)
  }

  /** The roleless record, or else the newest personal one. */
  function KycRecord(t: Table, user: UserId, found: Option<nat>): Option<nat> {
    if found.Some? then found else Latest(t, Personal(user))
  }

  function Mandatory(v: Record, white: bool): set<DocType> {
    if v.vehicle.Some? then RequiredOfVehicle(white)
    else if v.role.Some? then RequiredOf(v.role.value)
    else IDENTITY
  }

  function ApprovedKinds(docs: seq<Doc>): set<DocType> {
    set d <- docs | d.status == DocApproved :: d.kind
  }

  predicate Exists(t: Table, record: nat, place: nat) {
    record < |t| && place < |t[record].documents|
  }

  /** The review rejects a document the record cannot do without. */
  predicate Refusing(v: Record, r: Review) {
    r.place < |v.documents| && r.status == DocRejected && v.documents[r.place].kind in Mandatory(v, r.white)
  }

  /** The review approves a document, and every mandatory type of the record is then approved. */
  predicate Approving(v: Record, r: Review) {
    r.place < |v.documents| && r.status == DocApproved && Mandatory(v, r.white) <= ApprovedKinds(v.documents)
  }

  function Judge(d: Doc, r: Review): Doc {
    d.(status := r.status, reason := if r.reason != "" then r.reason else d.reason)
  }

  function KindName(kind: DocType): string {
    match kind
    case AadhaarFront => "AADHAAR_FRONT"
    case AadhaarBack => "AADHAAR_BACK"
    case PanCard => "PAN_CARD"
    case DrivingLicense => "DRIVING_LICENSE"
    case Selfie => "SELFIE"
    case RcBook => "RC_BOOK"
    case Insurance => "INSURANCE"
    case PucCertificate => "PUC_CERTIFICATE"
    case FitnessCert => "FITNESS_CERT"
    case Permit => "PERMIT"
  }

  function RefusalReason(kind: DocType, r: Review): string {
    if r.reason != "" then r.reason else "Mandatory document " + KindName(kind) + " was rejected."
  }

  /** What a review of one of its documents makes of a record. */
  function Settled(v: Record, r: Review): Record
    requires r.place < |v.documents|
  {
    if v.status != Pending then v
    else if Refusing(v, r) then
      v.(status := Rejected, reason := RefusalReason(v.documents[r.place].kind, r),
         reviewer := Some(r.admin), reviewedAt := Some(r.now))
    else if Approving(v, r) then
      v.(status := Verified, reviewer := Some(r.admin), reviewedAt := Some(r.now))
    else v
  }

  function AfterReview(t: Table, r: Review): Table {
    if !Exists(t, r.record, r.place) then t
    else
      var v := t[r.record];
      t[r.record := Settled(v.(documents := v.documents[r.place := Judge(v.documents[r.place], r)]), r)]
  }

  function IfPending(docs: seq<Doc>, status: DocStatus, reason: Option<string>): (out: seq<Doc>)
    ensures |out| == |docs|
  {
    seq(|docs|, i requires 0 <= i < |docs| =>
      if docs[i].status == DocPending then docs[i].(status := status, reason := reason.GetOr(docs[i].reason))
      else docs[i])
  }

  function AfterApprove(t: Table, i: nat, admin: UserId, now: Time): Table {
    if i >= |t| then t
    else t[i := t[i].(status := Verified, reason := "", reviewer := Some(admin), reviewedAt := Some(now),
                      documents := IfPending(t[i].documents, DocApproved, None))]
  }

  function AfterReject(t: Table, i: nat, admin: UserId, reason: string, now: Time): Table {
    if i >= |t| then t
    else t[i := t[i].(status := Rejected, reason := if reason != "" then reason else "Rejected by Admin",
                      reviewer := Some(admin), reviewedAt := Some(now),
                      documents := IfPending(t[i].documents, DocRejected,
                                             Some(if reason != "" then reason else "Verification rejected by Admin")))]
  }

  /** The lookups answer what they should. */
  predicate Honest(t: Table, e: Event) {
    match e
    case UploadForVehicle(_, vehicle, role, _, _, found) => IsFindOne(t, VehiclePending(vehicle, role), found)
    case UploadForRole(user, role, kind, url, found, order) =>
      && IsFindOne(t, UserPending(user, role), found)
      && IsFind(StatusTable(UploadedForRole(t, user, role, kind, url, found), user, role), Personal(user), order)
    case UploadUserKyc(user, _, _, found) => IsFindOne(t, RolelessPending(user), found)
    case AskStatus(user, role, order) => IsFind(StatusTable(t, user, role), Personal(user), order)
    case SubmitUserKyc(user, found, _) => IsFindOne(t, Roleless(user), found)
    case SubmitKycDoc(user, role, found, order, _) =>
      IsFindOne(t, OfRole(user, role), found) && IsFind(SubmitTable(t, user, role, found), Personal(user), order)
    case SubmitVehicleDocs(vehicle, role, found, _, _) => IsFindOne(t, OfVehicle(vehicle, role), found)
    case _ => true
  }

  function Apply(t: Table, e: Event): Table
    requires Honest(t, e)
  {
    match e
    case UploadForVehicle(user, vehicle, role, kind, url, found) =>
      AfterUpload(t, found, NewRecord(user, Some(vehicle), Some(role), Pending), kind, url)
    case UploadForRole(user, role, kind, url, found, order) =>
      AfterStatus(UploadedForRole(t, user, role, kind, url, found), user, role, order)
    case UploadUserKyc(user, kind, url, found) => AfterUpload(t, found, NewRecord(user, None, None, Pending), kind, url)
    case AskStatus(user, role, order) => AfterStatus(t, user, role, order)
    case SubmitUserKyc(user, found, now) =>
      var i := KycRecord(t, user, found);
      if i.None? then t else Submitted(t, i.value, IDENTITY, now)
    case SubmitKycDoc(user, role, found, order, now) => AfterSubmitKycDoc(t, user, role, found, order, now)
    case SubmitVehicleDocs(_, _, found, white, now) =>
      if found.None? then t else Submitted(t, found.value, RequiredOfVehicle(white), now)
    case ReviewDocument(r) => AfterReview(t, r)
    case Approve(i, admin, now) => AfterApprove(t, i, admin, now)
    case Reject(i, admin, reason, now) => AfterReject(t, i, admin, reason, now)
  }

  ghost predicate IsRun(ts: seq<Table>, es: seq<Event>) {
    && |ts| == |es| + 1
    && ts[0] == []
    && forall i | 0 <= i < |es| :: Honest(ts[i], es[i]) && ts[i + 1] == Apply(ts[i], es[i])
  }

  // ---------------------------------------------------------------------------
  // At most one document of each type
  // ---------------------------------------------------------------------------

  predicate AllOnePerType(t: Table) {
    forall v <- t :: OnePerType(v.documents)
  }

  lemma {:induction false} ToCopyKeepsOne(source: seq<Doc>, have: set<DocType>)
    requires OnePerType(source)
    ensures OnePerType(ToCopy(source, have))
  {
    if source != [] {
      var front, last := source[..|source| - 1], source[|source| - 1];
      ToCopyKeepsOne(front, have);
      forall d <- ToCopy(front, have) ensures d.kind != last.kind {
        assert d in front;
      }
    }
  }

  lemma JoinKeepsOne(a: seq<Doc>, b: seq<Doc>)
    requires OnePerType(a) && OnePerType(b) && Kinds(a) !! Kinds(b)
    ensures OnePerType(a + b)
  {
    var c := a + b;
    forall i, j | 0 <= i < j < |c| ensures c[i].kind != c[j].kind {
      if i < |a| <= j {
        assert a[i].kind in Kinds(a) && b[j - |a|].kind in Kinds(b);
      }
    }
  }

  /** The nested copy loops read the target's types once per source, and still never double a type. */
  lemma {:induction false} CopiesKeepOne(t: Table, i: nat, order: seq<nat>)
    requires i < |t| && AllOnePerType(t)
    ensures OnePerType(CopyAll(t, i, order))
  {
    if order != [] {
      var front, v := order[..|order| - 1], order[|order| - 1];
      CopiesKeepOne(t, i, front);
      if v != i && v < |t| {
        var have := CopyAll(t, i, front);
        ToCopyKeepsOne(t[v].documents, Kinds(have));
        JoinKeepsOne(have, ToCopy(t[v].documents, Kinds(have)));
      }
    }
  }

  lemma UploadKeepsAllOne(t: Table, found: Option<nat>, blank: Record, kind: DocType, url: string)
    requires AllOnePerType(t) && (found.Some? ==> found.value < |t|) && blank.documents == []
    ensures AllOnePerType(AfterUpload(t, found, blank, kind, url))
  {
  }

  lemma StatusKeepsAllOne(t: Table, user: UserId, role: Role, order: seq<nat>)
    requires AllOnePerType(t)
    ensures AllOnePerType(AfterStatus(t, user, role, order))
  {
    var t', i := StatusTable(t, user, role), StatusPlace(t, user, role);
    assert AllOnePerType(t');
    CopiesKeepOne(t', i, order);
  }

  lemma SubmitKeepsAllOne(t: Table, user: UserId, role: Role, found: Option<nat>, order: seq<nat>, now: Time)
    requires AllOnePerType(t) && (found.Some? ==> found.value < |t|)
    ensures AllOnePerType(AfterSubmitKycDoc(t, user, role, found, order, now))
  {
    var t', i := SubmitTable(t, user, role, found), PlaceOf(t, found);
    assert AllOnePerType(t');
    CopiesKeepOne(t', i, order);
  }

  lemma StepKeepsAllOne(t: Table, e: Event)
    requires Honest(t, e) && AllOnePerType(t)
    ensures AllOnePerType(Apply(t, e))
  {
    match e
    case UploadForVehicle(user, vehicle, role, kind, url, found) =>
      UploadKeepsAllOne(t, found, NewRecord(user, Some(vehicle), Some(role), Pending), kind, url);
    case UploadForRole(user, role, kind, url, found, order) =>
      UploadKeepsAllOne(t, found, NewRecord(user, None, Some(role), Pending), kind, url);
      StatusKeepsAllOne(UploadedForRole(t, user, role, kind, url, found), user, role, order);
    case UploadUserKyc(user, kind, url, found) =>
      UploadKeepsAllOne(t, found, NewRecord(user, None, None, Pending), kind, url);
    case AskStatus(user, role, order) => StatusKeepsAllOne(t, user, role, order);
    case SubmitKycDoc(user, role, found, order, now) => SubmitKeepsAllOne(t, user, role, found, order, now);
    case _ =>
  }

  lemma {:induction false} RunKeepsOnePerType(ts: seq<Table>, es: seq<Event>, n: nat)
    requires IsRun(ts, es) && n <= |es|
    ensures AllOnePerType(ts[n])
  {
    if n > 0 {
      RunKeepsOnePerType(ts, es, n - 1);
      StepKeepsAllOne(ts[n - 1], es[n - 1]);
    }
  }

  /**
   Asking twice: whatever order the user's records come in each time, the second getVerificationStatus
   writes nothing and is about the same record, so it reports the same missing types.
   */
  lemma SecondAskWritesNothing(t: Table, user: UserId, role: Role, order: seq<nat>, order': seq<nat>)
    requires IsFind(StatusTable(t, user, role), Personal(user), order)
    requires IsFind(StatusTable(AfterStatus(t, user, role, order), user, role), Personal(user), order')
    ensures AfterStatus(AfterStatus(t, user, role, order), user, role, order') == AfterStatus(t, user, role, order)
    ensures StatusPlace(AfterStatus(t, user, role, order), user, role) == StatusPlace(t, user, role)
  {
    var t', i, after := StatusTable(t, user, role), StatusPlace(t, user, role), AfterStatus(t, user, role, order);
    SameLatest(t', after, OfRole(user, role), i);
    assert StatusTable(after, user, role) == after && StatusPlace(after, user, role) == i;
    CopiedKindsInAnyOrder(t', i, user, order);
    AmongAllIsElsewhere(after, i, user, order');
    assert Elsewhere(after, i, user) <= Elsewhere(t', i, user);
    NothingToCopy(after, i, order');
  }

  lemma SameLatest(t: Table, u: Table, q: Query, i: nat)
    requires |t| == |u| && i < |t| && Matches(t[i], q) && (forall j | i < j < |t| :: !Matches(t[j], q))
    requires forall j | 0 <= j < |t| :: Matches(t[j], q) <==> Matches(u[j], q)
    ensures Latest(u, q) == Some(i)
  {
  }

  // ---------------------------------------------------------------------------
  // How a record's status moves
  // ---------------------------------------------------------------------------

  predicate IsSubmission(e: Event) {
    e.SubmitUserKyc? || e.SubmitKycDoc? || e.SubmitVehicleDocs?
  }

  /** The types a submission step asks for. */
  function AskedFor(e: Event): set<DocType>
    requires IsSubmission(e)
  {
    match e
    case SubmitUserKyc(_, _, _) => IDENTITY
    case SubmitKycDoc(_, role, _, _, _) => RequiredOf(role)
    case SubmitVehicleDocs(_, _, _, white, _) => RequiredOfVehicle(white)
  }

  /** The only ways into each status. */
  predicate MayMove(before: Record, after: Record, e: Event, i: nat) {
    match after.status
    case NoStatus => false
    case Pending => IsSubmission(e) && Missing(AskedFor(e), after.documents) == {}
    case Verified =>
      || (e.Approve? && e.record == i)
      || (e.ReviewDocument? && e.review.record == i && before.status == Pending && Approving(after, e.review))
    case Rejected =>
      || (e.Reject? && e.record == i)
      || (e.ReviewDocument? && e.review.record == i && before.status == Pending && Refusing(after, e.review))
  }

  lemma SubmitMoves(t: Table, user: UserId, role: Role, found: Option<nat>, order: seq<nat>, now: Time, i: nat)
    requires i < |t| && (found.Some? ==> found.value < |t|)
    ensures
      var t', e := AfterSubmitKycDoc(t, user, role, found, order, now), SubmitKycDoc(user, role, found, order, now);
      |t| <= |t'| && (t'[i].status != t[i].status ==> MayMove(t[i], t'[i], e, i))
  {
  }

  predicate IsUpload(e: Event) {
    e.UploadForVehicle? || e.UploadForRole? || e.UploadUserKyc? || e.AskStatus?
  }

  lemma UploadMovesNothing(t: Table, found: Option<nat>, blank: Record, kind: DocType, url: string, i: nat)
    requires (found.Some? ==> found.value < |t|) && i < |t|
    ensures
      var t' := AfterUpload(t, found, blank, kind, url);
      |t| <= |t'| && t'[i].status == t[i].status
  {
  }

  lemma AskMovesNothing(t: Table, user: UserId, role: Role, order: seq<nat>, i: nat)
    requires i < |t|
    ensures
      var t' := AfterStatus(t, user, role, order);
      |t| <= |t'| && t'[i].status == t[i].status
  {
  }

  lemma UploadsMoveNothing(t: Table, e: Event, i: nat)
    requires Honest(t, e) && IsUpload(e) && i < |t|
    ensures |t| <= |Apply(t, e)| && Apply(t, e)[i].status == t[i].status
  {
    match e
    case UploadForVehicle(user, vehicle, role, kind, url, found) =>
      UploadMovesNothing(t, found, NewRecord(user, Some(vehicle), Some(role), Pending), kind, url, i);
    case UploadUserKyc(user, kind, url, found) =>
      UploadMovesNothing(t, found, NewRecord(user, None, None, Pending), kind, url, i);
    case UploadForRole(user, role, kind, url, found, order) =>
      UploadMovesNothing(t, found, NewRecord(user, None, Some(role), Pending), kind, url, i);
      AskMovesNothing(UploadedForRole(t, user, role, kind, url, found), user, role, order, i);
    case AskStatus(user, role, order) => AskMovesNothing(t, user, role, order, i);
  }

  lemma DecisionMoves(t: Table, e: Event, i: nat)
    requires Honest(t, e) && !IsUpload(e) && !e.SubmitKycDoc? && i < |t|
    ensures |t| == |Apply(t, e)|
    ensures Apply(t, e)[i].status != t[i].status ==> MayMove(t[i], Apply(t, e)[i], e, i)
  {
  }

  /** Every step keeps every record, and moves its status only in the ways above. */
  lemma StatusMoves(t: Table, e: Event, i: nat)
    requires Honest(t, e) && i < |t|
    ensures |t| <= |Apply(t, e)|
    ensures Apply(t, e)[i].status != t[i].status ==> MayMove(t[i], Apply(t, e)[i], e, i)
  {
    if IsUpload(e) {
      UploadsMoveNothing(t, e, i);
    } else if e.SubmitKycDoc? {
      SubmitMoves(t, e.user, e.role, e.found, e.order, e.now, i);
    } else {
      DecisionMoves(t, e, i);
    }
  }

  // ---------------------------------------------------------------------------
  // A sequence of reviews
  // ---------------------------------------------------------------------------

  function AfterReviews(t: Table, rs: seq<Review>): (t': Table)
    ensures |t'| == |t|
  {
    if rs == [] then t else AfterReview(AfterReviews(t, rs[..|rs| - 1]), rs[|rs| - 1])
  }

  /** Review k is about record v, and approves it or refuses it for good. */
  predicate ApprovesAt(t: Table, rs: seq<Review>, v: nat, k: nat)
    requires v < |t| && k < |rs|
  {
    rs[k].record == v && Approving(AfterReviews(t, rs[..k + 1])[v], rs[k])
  }

  predicate RefusesAt(t: Table, rs: seq<Review>, v: nat, k: nat)
    requires v < |t| && k < |rs|
  {
    rs[k].record == v && Refusing(AfterReviews(t, rs[..k + 1])[v], rs[k])
  }

  ghost predicate ApprovedFirst(t: Table, rs: seq<Review>, v: nat)
    requires v < |t|
  {
    exists k :: 0 <= k < |rs| && ApprovesAt(t, rs, v, k) && forall j | 0 <= j < k :: !RefusesAt(t, rs, v, j)
  }

  ghost predicate RefusedFirst(t: Table, rs: seq<Review>, v: nat)
    requires v < |t|
  {
    exists k :: 0 <= k < |rs| && RefusesAt(t, rs, v, k) && forall j | 0 <= j < k :: !ApprovesAt(t, rs, v, j)
  }

  lemma SamePrefix(t: Table, rs: seq<Review>, v: nat, k: nat)
    requires v < |t| && k < |rs| - 1
    ensures ApprovesAt(t, rs, v, k) == ApprovesAt(t, rs[..|rs| - 1], v, k)
    ensures RefusesAt(t, rs, v, k) == RefusesAt(t, rs[..|rs| - 1], v, k)
  {
    assert rs[..|rs| - 1][..k + 1] == rs[..k + 1];
  }

  /** One more review decides first exactly when it decides and nothing before it did. */
  lemma OneMoreReview(t: Table, rs: seq<Review>, v: nat)
    requires v < |t| && rs != []
    ensures
      var front, n := rs[..|rs| - 1], |rs| - 1;
      && (ApprovedFirst(t, rs, v) <==>
          ApprovedFirst(t, front, v)
          || (ApprovesAt(t, rs, v, n) && forall j | 0 <= j < n :: !RefusesAt(t, front, v, j)))
      && (RefusedFirst(t, rs, v) <==>
          RefusedFirst(t, front, v)
          || (RefusesAt(t, rs, v, n) && forall j | 0 <= j < n :: !ApprovesAt(t, front, v, j)))
  {
    var front, n := rs[..|rs| - 1], |rs| - 1;
    forall k | 0 <= k < n
      ensures ApprovesAt(t, rs, v, k) == ApprovesAt(t, front, v, k)
      ensures RefusesAt(t, rs, v, k) == RefusesAt(t, front, v, k)
    {
      SamePrefix(t, rs, v, k);
    }
  }

  /** Something decided exactly when an approval or a refusal came first. */
  lemma {:induction false} SomethingCameFirst(t: Table, rs: seq<Review>, v: nat)
    requires v < |t|
    ensures ApprovedFirst(t, rs, v) || RefusedFirst(t, rs, v) <==>
            exists k :: 0 <= k < |rs| && (ApprovesAt(t, rs, v, k) || RefusesAt(t, rs, v, k))
  {
    if rs != [] {
      var front, n := rs[..|rs| - 1], |rs| - 1;
      SomethingCameFirst(t, front, v);
      OneMoreReview(t, rs, v);
      forall k | 0 <= k < n
        ensures ApprovesAt(t, rs, v, k) == ApprovesAt(t, front, v, k)
        ensures RefusesAt(t, rs, v, k) == RefusesAt(t, front, v, k)
      {
        SamePrefix(t, rs, v, k);
      }
    }
  }

  /** What one review does to the status of a record, in terms of the documents it leaves. */
  lemma StatusAfterReview(t: Table, r: Review, v: nat)
    requires v < |t|
    ensures
      var after := AfterReview(t, r)[v];
      after.status == if t[v].status != Pending || r.record != v then t[v].status
                      else if Refusing(after, r) then Rejected
                      else if Approving(after, r) then Verified
                      else Pending
  {
  }

  lemma LastReview(t: Table, rs: seq<Review>, v: nat)
    requires v < |t| && rs != []
    ensures
      var before, after, n := AfterReviews(t, rs[..|rs| - 1])[v].status, AfterReviews(t, rs)[v].status, |rs| - 1;
      after == if before != Pending then before
               else if RefusesAt(t, rs, v, n) then Rejected
               else if ApprovesAt(t, rs, v, n) then Verified
               else Pending
  {
    assert rs[..|rs| - 1 + 1] == rs;
    StatusAfterReview(AfterReviews(t, rs[..|rs| - 1]), rs[|rs| - 1], v);
  }

  /**
   From PENDING, any sequence of reviews ends VERIFIED exactly when some approval leaves every mandatory
   type approved before any mandatory document is rejected, REJECTED exactly when it is the other way
   round, and PENDING otherwise. The sequence may also touch other records.
   */
  lemma {:induction false} ReviewOutcome(t: Table, rs: seq<Review>, v: nat)
    requires v < |t| && t[v].status == Pending
    ensures AfterReviews(t, rs)[v].status == Verified <==> ApprovedFirst(t, rs, v)
    ensures AfterReviews(t, rs)[v].status == Rejected <==> RefusedFirst(t, rs, v)
    ensures AfterReviews(t, rs)[v].status != NoStatus
  {
    if rs != [] {
      ReviewOutcome(t, rs[..|rs| - 1], v);
      SomethingCameFirst(t, rs[..|rs| - 1], v);
      OneMoreReview(t, rs, v);
      LastReview(t, rs, v);
    }
  }

  /** Once decided, no review changes anything of the record but its documents. */
  lemma {:induction false} DecisionsStay(t: Table, rs: seq<Review>, v: nat)
    requires v < |t| && t[v].status != Pending
    ensures AfterReviews(t, rs)[v] == t[v].(documents := AfterReviews(t, rs)[v].documents)
  {
    if rs != [] {
      DecisionsStay(t, rs[..|rs| - 1], v);
    }
  }

  /** Reviews that approve the mandatory documents of record v, each once, in some order. */
  ghost predicate ApprovesEach(v: Record, rs: seq<Review>, place: nat, white: bool) {
    && (forall r <- rs :: r.record == place && r.status == DocApproved && r.white == white && r.place < |v.documents|)
    && (forall j, k | 0 <= j < k < |rs| :: rs[j].place != rs[k].place)
    && (set r <- rs :: v.documents[r.place].kind) == Mandatory(v, white)
  }

  lemma ReviewedDocuments(t: Table, r: Review, v: nat)
    requires v < |t|
    ensures
      var before, after := t[v], AfterReview(t, r)[v];
      && |after.documents| == |before.documents| && after.vehicle == before.vehicle && after.role == before.role
      && forall p | 0 <= p < |after.documents| ::
           after.documents[p] ==
           if r.record == v && r.place == p then Judge(before.documents[p], r) else before.documents[p]
  {
  }

  lemma {:induction false} ApprovedSoFar(t: Table, rs: seq<Review>, v: nat, n: nat)
    requires v < |t| && n <= |rs|
    requires forall r <- rs :: r.record == v && r.status == DocApproved && r.place < |t[v].documents|
    ensures
      var now := AfterReviews(t, rs[..n])[v];
      && |now.documents| == |t[v].documents| && now.vehicle == t[v].vehicle && now.role == t[v].role
      && forall p | 0 <= p < |now.documents| ::
           && now.documents[p].kind == t[v].documents[p].kind
           && (now.documents[p].status == DocApproved <==>
               t[v].documents[p].status == DocApproved || exists j :: 0 <= j < n && rs[j].place == p)
  {
    if n > 0 {
      ApprovedSoFar(t, rs, v, n - 1);
      assert rs[..n][..n - 1] == rs[..n - 1];
      assert rs[n - 1] in rs;
      ReviewedDocuments(AfterReviews(t, rs[..n - 1]), rs[n - 1], v);
    }
  }

  /** Among such reviews nothing is refused, and only the last one approves the record. */
  lemma NoneBeforeTheLast(t: Table, rs: seq<Review>, v: nat, white: bool, n: nat, k: nat)
    requires v < |t| && OnePerType(t[v].documents) && k < n <= |rs|
    requires ApprovesEach(t[v], rs, v, white) && Mandatory(t[v], white) !! ApprovedKinds(t[v].documents)
    ensures !RefusesAt(t, rs[..n], v, k)
    ensures ApprovesAt(t, rs[..n], v, k) <==> k + 1 == |rs|
  {
    assert rs[k] in rs && rs[..n][..k + 1] == rs[..k + 1];
    ApprovingAtTheLast(t, rs, v, white, k);
  }

  /** Approving the mandatory documents in any order verifies the record at the last one and not before. */
  lemma ApprovingInAnyOrder(t: Table, rs: seq<Review>, v: nat, white: bool, n: nat)
    requires v < |t| && t[v].status == Pending && OnePerType(t[v].documents)
    requires ApprovesEach(t[v], rs, v, white) && Mandatory(t[v], white) !! ApprovedKinds(t[v].documents)
    requires n <= |rs|
    ensures AfterReviews(t, rs[..n])[v].status == if n == |rs| then Verified else Pending
  {
    ReviewOutcome(t, rs[..n], v);
    SomethingCameFirst(t, rs[..n], v);
    forall k | 0 <= k < n
      ensures !RefusesAt(t, rs[..n], v, k)
      ensures ApprovesAt(t, rs[..n], v, k) <==> k + 1 == |rs|
    {
      NoneBeforeTheLast(t, rs, v, white, n, k);
    }
    if n == |rs| {
      SomethingIsMandatory(t[v], rs, v, white);
      assert ApprovesAt(t, rs[..n], v, n - 1);
    }
  }

  lemma SomethingIsMandatory(v: Record, rs: seq<Review>, place: nat, white: bool)
    requires ApprovesEach(v, rs, place, white)
    ensures |rs| > 0
  {
  }

  lemma AllApprovedAtTheLast(t: Table, rs: seq<Review>, v: nat, white: bool)
    requires v < |t| && ApprovesEach(t[v], rs, v, white)
    ensures Mandatory(t[v], white) <= ApprovedKinds(AfterReviews(t, rs)[v].documents)
  {
    assert rs[..|rs|] == rs;
    ApprovedSoFar(t, rs, v, |rs|);
    var docs := AfterReviews(t, rs)[v].documents;
    forall kind <- Mandatory(t[v], white) ensures kind in ApprovedKinds(docs) {
      var r :| r in rs && t[v].documents[r.place].kind == kind;
      assert docs[r.place] in docs;
    }
  }

  lemma NextStillMissing(t: Table, rs: seq<Review>, v: nat, white: bool, k: nat)
    requires v < |t| && OnePerType(t[v].documents) && k < |rs|
    requires ApprovesEach(t[v], rs, v, white) && Mandatory(t[v], white) !! ApprovedKinds(t[v].documents)
    ensures !(Mandatory(t[v], white) <= ApprovedKinds(AfterReviews(t, rs[..k])[v].documents))
  {
    ApprovedSoFar(t, rs, v, k);
    var docs, p := AfterReviews(t, rs[..k])[v].documents, rs[k].place;
    assert rs[k] in rs && t[v].documents[p] in t[v].documents && t[v].documents[p].kind in Mandatory(t[v], white);
    assert docs[p].status != DocApproved;
    KindNotApproved(docs, p);
  }

  lemma KindNotApproved(docs: seq<Doc>, p: nat)
    requires p < |docs| && OnePerType(docs) && docs[p].status != DocApproved
    ensures docs[p].kind !in ApprovedKinds(docs)
  {
  }

  /** Review k finds the record it was, but for the documents' statuses. */
  lemma ReviewedShape(t: Table, rs: seq<Review>, v: nat, white: bool, k: nat)
    requires v < |t| && k < |rs| && ApprovesEach(t[v], rs, v, white)
    ensures
      var now := AfterReviews(t, rs[..k + 1])[v];
      && rs[k].place < |now.documents| && rs[k].status == DocApproved && rs[k].white == white
      && Mandatory(now, white) == Mandatory(t[v], white)
  {
    ApprovedSoFar(t, rs, v, k + 1);
    assert rs[k] in rs;
  }

  lemma KindsAtTheLast(t: Table, rs: seq<Review>, v: nat, white: bool, k: nat)
    requires v < |t| && OnePerType(t[v].documents) && k < |rs|
    requires ApprovesEach(t[v], rs, v, white) && Mandatory(t[v], white) !! ApprovedKinds(t[v].documents)
    ensures Mandatory(t[v], white) <= ApprovedKinds(AfterReviews(t, rs[..k + 1])[v].documents) <==> k + 1 == |rs|
  {
    if k + 1 == |rs| {
      assert rs[..k + 1] == rs;
      AllApprovedAtTheLast(t, rs, v, white);
    } else {
      NextStillMissing(t, rs, v, white, k + 1);
    }
  }

  lemma ApprovingAtTheLast(t: Table, rs: seq<Review>, v: nat, white: bool, k: nat)
    requires v < |t| && OnePerType(t[v].documents) && k < |rs|
    requires ApprovesEach(t[v], rs, v, white) && Mandatory(t[v], white) !! ApprovedKinds(t[v].documents)
    ensures Approving(AfterReviews(t, rs[..k + 1])[v], rs[k]) <==> k + 1 == |rs|
  {
    ReviewedShape(t, rs, v, white, k);
    KindsAtTheLast(t, rs, v, white, k);
  }
}
