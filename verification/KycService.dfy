/**
 The verification service as it runs: the table of records is a field, the copy loops are loops, and
 the overall status of a user is folded over the user's records. Every writing method is tied to a
 step of Kyc, so what is proved there over all runs holds of it.
 */
module KycService {
  import opened Wrappers
  import opened Calendar
  import opened Kyc

  datatype Error = RecordNotFound | DocumentsMissing(missing: set<DocType>) | DocumentNotFound

  /** What getVerificationStatus reports of a record. */
  datatype Report = Report(id: nat, status: Status, reason: string, missing: set<DocType>, documents: seq<Doc>)

  function ReportOf(t: Table, i: nat, required: set<DocType>): Report
    requires i < |t|
  {
    Report(i, t[i].status, t[i].reason, Missing(required, t[i].documents), t[i].documents)
  }

  /** getUserKycStatus: no id when the user has no record. */
  datatype Overall = Overall(
    id: Option<nat>, status: Status, reason: string, missing: set<DocType>, documents: seq<Doc>)

  /** VERIFIED > PENDING > REJECTED > NONE. */
  function Rank(s: Status): nat {
    match s
    case NoStatus => 0
    case Rejected => 1
    case Pending => 2
    case Verified => 3
  }

  datatype Named = Named(id: nat, record: Record)

  /** The types of the documents of any of these records. */
  function Union(vs: seq<Named>): set<DocType> {
    set v, d | v in vs && d in v.record.documents :: d.kind
  }

  /** Where the reported status comes from: the first rejected record, else the last one with the status. */
  predicate Speaks(vs: seq<Named>, k: nat, status: Status) {
    && k < |vs| && vs[k].record.status == status
    && (status == Rejected || status == NoStatus ==> forall j | 0 <= j < k :: vs[j].record.status != status)
    && (status == Pending || status == Verified ==> forall j | k < j < |vs| :: vs[j].record.status != status)
  }

  predicate Outranks(status: Status, vs: seq<Named>) {
    forall v <- vs :: Rank(v.record.status) <= Rank(status)
  }

  predicate FromSome(d: Doc, vs: seq<Named>) {
    exists v <- vs :: d in v.record.documents
  }

  /** The overall status as the service promises it, whatever the order of the records. */
  ghost predicate IsOverall(vs: seq<Named>, o: Overall) {
    && Outranks(o.status, vs)
    && (exists k: nat :: Speaks(vs, k, o.status) && o.id == Some(vs[k].id)
                    && (o.status == Verified || o.status == Rejected ==> o.reason == vs[k].record.reason))
    && o.missing == IDENTITY - Union(vs)
  }

  /** Two listings of the same records report the same status and the same missing types. */
  lemma OrderDoesNotMatter(vs: seq<Named>, us: seq<Named>, o: Overall, p: Overall)
    requires (forall v :: v in vs <==> v in us) && IsOverall(vs, o) && IsOverall(us, p)
    ensures o.status == p.status && o.missing == p.missing
  {
  }

  lemma UnionOneMore(vs: seq<Named>, n: nat)
    requires n < |vs|
    ensures Union(vs[..n + 1]) == Union(vs[..n]) + Kinds(vs[n].record.documents)
  {
  }

  /** The overall KYC of a user, folded over the user's personal records. */
  method UserKyc(vs: seq<Named>) returns (o: Overall)
    ensures vs == [] ==> o == Overall(None, NoStatus, "", IDENTITY, [])
    ensures vs != [] ==> IsOverall(vs, o) && exists v <- vs :: o.reason == v.record.reason
    ensures OnePerType(o.documents) && Kinds(o.documents) == Union(vs)
    ensures AllFrom(o.documents, vs)
  {
    if vs == [] {
      return Overall(None, NoStatus, "", IDENTITY, []);
    }
    var all: seq<Doc>, seen: set<DocType> := [], {};
    var overall, told, reason := NoStatus, 0, vs[0].record.reason;
    ghost var whose := 0;
    for n := 0 to |vs|
      invariant seen == Kinds(all) == Union(vs[..n]) && OnePerType(all)
      invariant AllFrom(all, vs)
      invariant told < |vs| && whose < |vs| && reason == vs[whose].record.reason
      invariant overall == NoStatus ==> told == 0
      invariant overall != NoStatus ==> Speaks(vs[..n], told, overall)
      invariant overall == Verified || overall == Rejected ==> whose == told
      invariant Outranks(overall, vs[..n])
    {
      var v := vs[n].record;
      all, seen := AddUnseen(vs, n, all, seen);
      assert vs[..n + 1] == vs[..n] + [vs[n]];
      if v.status == Verified {
        overall, told, reason, whose := Verified, n, v.reason, n;
      } else if v.status == Pending && overall != Verified {
        overall, told := Pending, n;
      } else if v.status == Rejected && overall == NoStatus {
        overall, told, reason, whose := Rejected, n, v.reason, n;
      }
    }
    assert vs[..|vs|] == vs;
    if overall == NoStatus {
      overall := vs[0].record.status;
      assert vs[0] in vs;
    }
    o := Overall(Some(vs[told].id), overall, reason, IDENTITY - seen, all);
    assert Speaks(vs, told, overall) && vs[whose] in vs;
  }

  lemma OneMoreDoc(docs: seq<Doc>, d: Doc)
    ensures Kinds(docs + [d]) == Kinds(docs) + {d.kind}
    ensures OnePerType(docs) && d.kind !in Kinds(docs) ==> OnePerType(docs + [d])
  {
    KindsOfBoth(docs, [d]);
    if OnePerType(docs) && d.kind !in Kinds(docs) {
      JoinKeepsOne(docs, [d]);
    }
  }

  ghost predicate AllFrom(docs: seq<Doc>, vs: seq<Named>) {
    forall d <- docs :: FromSome(d, vs)
  }

  lemma OneMoreFrom(docs: seq<Doc>, vs: seq<Named>, n: nat, d: Doc)
    requires AllFrom(docs, vs) && n < |vs| && d in vs[n].record.documents
    ensures AllFrom(docs + [d], vs)
  {
    assert vs[n] in vs;
  }

  /** The inner loop: the documents of one more record whose type was not seen before. */
  method AddUnseen(vs: seq<Named>, n: nat, all0: seq<Doc>, seen0: set<DocType>)
    returns (all: seq<Doc>, seen: set<DocType>)
    requires n < |vs| && seen0 == Kinds(all0) == Union(vs[..n]) && OnePerType(all0) && AllFrom(all0, vs)
    ensures seen == Kinds(all) == Union(vs[..n + 1]) && OnePerType(all) && AllFrom(all, vs)
  {
    all, seen := all0, seen0;
    var docs := vs[n].record.documents;
    for m := 0 to |docs|
      invariant seen == Kinds(all) == Kinds(all0) + Kinds(docs[..m])
      invariant OnePerType(all) && AllFrom(all, vs)
    {
      assert docs[..m + 1] == docs[..m] + [docs[m]];
      OneMoreDoc(docs[..m], docs[m]);
      if docs[m].kind !in seen {
        OneMoreDoc(all, docs[m]);
        OneMoreFrom(all, vs, n, docs[m]);
        seen := seen + {docs[m].kind};
        all := all + [docs[m]];
      }
    }
    assert docs[..|docs|] == docs;
    UnionOneMore(vs, n);
  }

  /** Why a submission of record i is refused. */
  function Refusal(t: Table, i: Option<nat>, required: set<DocType>): Option<Error>
    requires i.Some? ==> i.value < |t|
  {
    if i.None? then Some(RecordNotFound)
    else if required <= Kinds(t[i.value].documents) then None
    else Some(DocumentsMissing(Missing(required, t[i.value].documents)))
  }

  /** The types of the documents in any personal record of the user. */
  function Held(t: Table, user: UserId): set<DocType> {
    set r, d | r in t && Matches(r, Personal(user)) && d in r.documents :: d.kind
  }

  /** What getUserKycStatus promises of its report on a user. */
  ghost predicate IsOverallOf(t: Table, user: UserId, o: Overall) {
    && (o.id.None? <==> forall r <- t :: !Matches(r, Personal(user)))
    && (o.id.None? ==> o == Overall(None, NoStatus, "", IDENTITY, []))
    && (o.id.Some? ==>
          && o.id.value < |t| && Matches(t[o.id.value], Personal(user)) && t[o.id.value].status == o.status
          && (o.status == Verified || o.status == Rejected ==> o.reason == t[o.id.value].reason))
    && (forall r <- t :: Matches(r, Personal(user)) ==> Rank(r.status) <= Rank(o.status))
    && o.missing == IDENTITY - Held(t, user)
    && OnePerType(o.documents) && Kinds(o.documents) == Held(t, user)
    && (forall d <- o.documents :: exists r <- t :: Matches(r, Personal(user)) && d in r.documents)
  }

  /** Listing the personal records covers what the user holds. */
  lemma UnionIsHeld(t: Table, user: UserId, list: seq<nat>, vs: seq<Named>)
    requires IsFind(t, Personal(user), list) && |vs| == |list|
    requires forall k | 0 <= k < |list| :: list[k] in list && vs[k] == Named(list[k], t[list[k]])
    ensures Union(vs) == Held(t, user)
  {
    forall kind ensures kind in Union(vs) <==> kind in Held(t, user) {
      if kind in Held(t, user) {
        var r, d :| r in t && Matches(r, Personal(user)) && d in r.documents && d.kind == kind;
        var i :| 0 <= i < |t| && t[i] == r;
        var k :| 0 <= k < |list| && list[k] == i;
        assert vs[k] in vs;
      }
    }
  }

  lemma OverallOfAll(t: Table, user: UserId, list: seq<nat>, vs: seq<Named>, o: Overall)
    requires IsFind(t, Personal(user), list) && |vs| == |list|
    requires forall k | 0 <= k < |list| :: list[k] in list && vs[k] == Named(list[k], t[list[k]])
    requires vs == [] ==> o == Overall(None, NoStatus, "", IDENTITY, [])
    requires vs != [] ==> IsOverall(vs, o)
    requires OnePerType(o.documents) && Kinds(o.documents) == Union(vs) == Held(t, user)
    requires forall d <- o.documents :: FromSome(d, vs)
    ensures IsOverallOf(t, user, o)
  {
    forall r <- t | Matches(r, Personal(user)) ensures vs != [] && Rank(r.status) <= Rank(o.status) {
      var i :| 0 <= i < |t| && t[i] == r;
      var k :| 0 <= k < |list| && list[k] == i;
      assert vs[k] in vs;
    }
    if vs != [] {
      assert t[list[0]] in t;
    }
    forall d <- o.documents ensures exists r <- t :: Matches(r, Personal(user)) && d in r.documents {
      var v :| v in vs && d in v.record.documents;
      var k :| 0 <= k < |vs| && vs[k] == v;
      assert t[list[k]] in t;
    }
  }

  lemma MissingNothing(required: set<DocType>, docs: seq<Doc>)
    ensures Missing(required, docs) == {} <==> required <= Kinds(docs)
  {
    if Missing(required, docs) == {} {
      forall k <- required ensures k in Kinds(docs) {
        assert k !in Missing(required, docs);
      }
    }
  }

  // ---------------------------------------------------------------------------
  // What the writing methods promise
  // ---------------------------------------------------------------------------

  predicate Holds(docs: seq<Doc>, kind: DocType) {
    exists d <- docs :: d.kind == kind
  }

  predicate HoldsAll(docs: seq<Doc>, required: set<DocType>) {
    forall kind <- required :: Holds(docs, kind)
  }

  lemma HoldsAllIff(docs: seq<Doc>, required: set<DocType>)
    ensures HoldsAll(docs, required) <==> required <= Kinds(docs)
    ensures forall kind :: Holds(docs, kind) <==> kind in Kinds(docs)
  {
    forall kind ensures Holds(docs, kind) <==> kind in Kinds(docs) {}
  }

  /** Only record i may differ. */
  predicate OthersStay(t: Table, after: Table, i: nat) {
    |after| == |t| && forall j | 0 <= j < |t| && j != i :: after[j] == t[j]
  }

  /** A submission of record i: with every required type it becomes PENDING as of now, else nothing changes. */
  predicate SubmitsOrNot(t: Table, after: Table, i: nat, required: set<DocType>, now: Time, accepted: bool) {
    && i < |t| && (accepted <==> HoldsAll(t[i].documents, required))
    && (!accepted ==> after == t)
    && (accepted ==> OthersStay(t, after, i) && after[i] == t[i].(status := Pending, submittedAt := Some(now)))
  }

  /** The user's roleless record or, without one, the newest personal one. */
  predicate IsKycRecord(t: Table, user: UserId, i: nat) {
    && i < |t| && t[i].user == user && t[i].vehicle.None?
    && (t[i].role.Some? ==>
          && (forall r <- t :: r.user == user && r.vehicle.None? ==> r.role.Some?)
          && forall j | i < j < |t| :: t[j].user == user ==> t[j].vehicle.Some?)
  }

  /** A type is of an identity document that another personal record of the user holds. */
  predicate HeldElsewhere(t: Table, i: nat, user: UserId, kind: DocType) {
    && kind in {AadhaarFront, AadhaarBack, Selfie}
    && exists v :: 0 <= v < |t| && v != i && t[v].user == user && t[v].vehicle.None? && Holds(t[v].documents, kind)
  }

  /** Record i has gained documents: of the identity types that the user holds elsewhere and it lacked. */
  predicate Gains(t: Table, after: seq<Doc>, i: nat, user: UserId)
    requires i < |t|
  {
    && t[i].documents <= after
    && forall kind :: Holds(after, kind) <==> Holds(t[i].documents, kind) || HeldElsewhere(t, i, user, kind)
  }

  lemma CopiesGain(t: Table, i: nat, user: UserId, order: seq<nat>)
    requires i < |t| && IsFind(t, Personal(user), order)
    ensures Gains(t, CopyAll(t, i, order), i, user)
  {
    var after := CopyAll(t, i, order);
    CopiesHaveSources(t, i, order);
    CopiedKindsInAnyOrder(t, i, user, order);
    HoldsAllIff(after, {});
    HoldsAllIff(t[i].documents, {});
    forall kind ensures HeldElsewhere(t, i, user, kind) <==> kind in Elsewhere(t, i, user) {
      forall v | 0 <= v < |t| ensures Holds(t[v].documents, kind) <==> kind in Kinds(t[v].documents) {
        HoldsAllIff(t[v].documents, {});
      }
    }
  }

  /**
   The newest record of the user in the role, created without a status when there is none, has gained the
   identity documents of the others; nothing else changes.
   */
  predicate Asks(t: Table, after: Table, i: nat, user: UserId, role: Role) {
    var all := if i < |t| then t else t + [Record(user, None, Some(role), NoStatus, "", None, None, None, [])];
    && i < |all| && all[i].user == user && all[i].role == Some(role)
    && (forall j | i < j < |all| :: !(all[j].user == user && all[j].role == Some(role)))
    && (i == |t| ==> forall r <- t :: !(r.user == user && r.role == Some(role)))
    && OthersStay(all, after, i) && Gains(all, after[i].documents, i, user)
    && after[i] == all[i].(documents := after[i].documents)
  }

  /** The uploaded document replaces the one of its type, whose old reason stays, or joins the others. */
  predicate Takes(docs: seq<Doc>, after: seq<Doc>, kind: DocType, url: string) {
    || (!Holds(docs, kind) && after == docs + [Doc(kind, url, DocPending, "")])
    || exists p :: 0 <= p < |docs| && docs[p].kind == kind
                   && after == docs[p := Doc(kind, url, DocPending, docs[p].reason)]
  }

  lemma UploadedTakes(docs: seq<Doc>, kind: DocType, url: string)
    ensures Takes(docs, Uploaded(docs, kind, url), kind, url)
  {
    HoldsAllIff(docs, {});
    var p := PlaceOfKind(docs, kind);
    if p.Some? {
      assert docs[p.value].kind == kind
        && Uploaded(docs, kind, url) == docs[p.value := Doc(kind, url, DocPending, docs[p.value].reason)];
    }
  }

  /** An upload to record i, or to a new one: only its documents change. */
  predicate UploadsInto(t: Table, after: Table, i: nat, kind: DocType, url: string) {
    && i < |t| && OthersStay(t, after, i) && after[i] == t[i].(documents := after[i].documents)
    && Takes(t[i].documents, after[i].documents, kind, url)
  }

  predicate IsApproved(docs: seq<Doc>, kind: DocType) {
    exists d <- docs :: d.kind == kind && d.status == DocApproved
  }

  /**
   A review gives its document the verdict, and the reason if there is one. A PENDING record is then verified
   if that was an approval and every mandatory type is approved, and rejected if that was a rejection of a
   mandatory type; both name the admin and the time.
   */
  predicate IsReviewed(v: Record, after: Record, r: Review)
    requires r.place < |v.documents|
  {
    var doc, mandatory := v.documents[r.place], Mandatory(v, r.white);
    var judged := doc.(status := r.status, reason := if r.reason == "" then doc.reason else r.reason);
    var refused := v.status == Pending && r.status == DocRejected && doc.kind in mandatory;
    var approved := v.status == Pending && r.status == DocApproved
                    && forall kind <- mandatory :: IsApproved(after.documents, kind);
    && after.documents == v.documents[r.place := judged]
    && after.status == (if refused then Rejected else if approved then Verified else v.status)
    && after.reviewer == (if refused || approved then Some(r.admin) else v.reviewer)
    && after.reviewedAt == (if refused || approved then Some(r.now) else v.reviewedAt)
    && (if refused then after.reason != "" && (r.reason != "" ==> after.reason == r.reason)
        else after.reason == v.reason)
    && after.user == v.user && after.vehicle == v.vehicle && after.role == v.role && after.submittedAt == v.submittedAt
  }

  lemma ApprovedAll(docs: seq<Doc>, required: set<DocType>)
    ensures required <= ApprovedKinds(docs) <==> forall kind <- required :: IsApproved(docs, kind)
  {
    forall kind ensures kind in ApprovedKinds(docs) <==> IsApproved(docs, kind) {}
  }

  /** Documents still pending follow the decision; the others stay as they were. */
  predicate Follow(docs: seq<Doc>, after: seq<Doc>, status: DocStatus, reason: Option<string>) {
    && |after| == |docs|
    && forall p | 0 <= p < |docs| ::
         after[p] == if docs[p].status != DocPending then docs[p]
                     else docs[p].(status := status, reason := reason.GetOr(docs[p].reason))
  }

  lemma DocsTwice(t: Table, i: nat, a: seq<Doc>, b: seq<Doc>)
    requires i < |t|
    ensures WithDocs(WithDocs(t, i, a), i, b) == WithDocs(t, i, b) && WithDocs(t, i, t[i].documents) == t
    ensures forall v: Record :: WithDocs(t[i := v], i, a) == t[i := v.(documents := a)]
  {
  }

  function HalfSettled(docs: seq<Doc>, n: nat, status: DocStatus, reason: Option<string>): seq<Doc>
    requires n <= |docs|
  {
    IfPending(docs[..n], status, reason) + docs[n..]
  }

  lemma SettleOneMore(docs: seq<Doc>, n: nat, status: DocStatus, reason: Option<string>)
    requires n < |docs|
    ensures
      var half := HalfSettled(docs, n, status, reason);
      && |half| == |docs| && half[n] == docs[n]
      && half[n := IfPending([docs[n]], status, reason)[0]] == HalfSettled(docs, n + 1, status, reason)
  {
  }

  lemma SettleEnds(docs: seq<Doc>, status: DocStatus, reason: Option<string>)
    ensures HalfSettled(docs, 0, status, reason) == docs
    ensures HalfSettled(docs, |docs|, status, reason) == IfPending(docs, status, reason)
  {
  }

  class Service {
    var records: Table

    constructor ()
      ensures records == []
    {
      records := [];
    }

    /** Finds or creates a record and puts the document in it. */
    method Upload(found: Option<nat>, blank: Record, kind: DocType, url: string)
      requires found.Some? ==> found.value < |records|
      requires blank.documents == []
      modifies this
      ensures UploadsInto(if found.Some? then old(records) else old(records) + [blank], records,
                          found.GetOr(|old(records)|), kind, url)
      ensures records == AfterUpload(old(records), found, blank, kind, url)
    {
      UploadedTakes(if found.Some? then records[found.value].documents else [], kind, url);
      if found.None? {
        records := records + [blank];
      }
      var i := found.GetOr(|records| - 1);
      var place := PlaceOfKind(records[i].documents, kind);
      if place.Some? {
        var doc := records[i].documents[place.value].(url := url, status := DocPending);
        records := WithDocs(records, i, records[i].documents[place.value := doc]);
      } else {
        records := WithDocs(records, i, records[i].documents + [Doc(kind, url, DocPending, "")]);
      }
    }

    /** getVehicleVerificationStatus: the newest record of the vehicle and role, if any. */
    method GetVehicleVerificationStatus(vehicle: VehicleId, role: Role, white: bool) returns (o: Overall)
      ensures o.id.None? <==> forall r <- records :: !Matches(r, OfVehicle(vehicle, role))
      ensures o.id.None? ==> o == Overall(None, NoStatus, "", RequiredOfVehicle(white), [])
      ensures o.id.Some? ==>
                && o.id.value < |records| && Matches(records[o.id.value], OfVehicle(vehicle, role))
                && (forall j | o.id.value < j < |records| :: !Matches(records[j], OfVehicle(vehicle, role)))
                && o.status == records[o.id.value].status && o.reason == records[o.id.value].reason
                && o.documents == records[o.id.value].documents
                && o.missing == RequiredOfVehicle(white) - Kinds(o.documents)
    {
      var i := Latest(records, OfVehicle(vehicle, role));
      if i.None? {
        return Overall(None, NoStatus, "", RequiredOfVehicle(white), []);
      }
      var v := records[i.value];
      assert v in records;
      o := Overall(i, v.status, v.reason, Missing(RequiredOfVehicle(white), v.documents), v.documents);
    }

    /** The report is getVehicleVerificationStatus after the upload. */
    method UploadForVehicle(
      user: UserId, vehicle: VehicleId, role: Role, kind: DocType, url: string, found: Option<nat>, white: bool)
      returns (o: Overall)
      requires Honest(records, Event.UploadForVehicle(user, vehicle, role, kind, url, found))
      modifies this
      ensures UploadsInto(if found.Some? then old(records)
                          else old(records)
                               + [Record(user, Some(vehicle), Some(role), Pending, "", None, None, None, [])],
                          records, found.GetOr(|old(records)|), kind, url)
      ensures records == Apply(old(records), Event.UploadForVehicle(user, vehicle, role, kind, url, found))
      ensures o.id.Some? && o.id.value < |records| && Matches(records[o.id.value], OfVehicle(vehicle, role))
      ensures forall j | o.id.value < j < |records| :: !Matches(records[j], OfVehicle(vehicle, role))
      ensures o.status == records[o.id.value].status && o.reason == records[o.id.value].reason
      ensures o.documents == records[o.id.value].documents
      ensures o.missing == RequiredOfVehicle(white) - Kinds(o.documents)
    {
      Upload(found, NewRecord(user, Some(vehicle), Some(role), Pending), kind, url);
      assert records[PlaceOf(old(records), found)] in records;
      o := GetVehicleVerificationStatus(vehicle, role, white);
    }

    method UploadForRole(user: UserId, role: Role, kind: DocType, url: string, found: Option<nat>, order: seq<nat>)
      returns (report: Report)
      requires Honest(records, Event.UploadForRole(user, role, kind, url, found, order))
      modifies this
      ensures exists mid: Table ::
                && UploadsInto(if found.Some? then old(records)
                               else old(records) + [Record(user, None, Some(role), Pending, "", None, None, None, [])],
                               mid, found.GetOr(|old(records)|), kind, url)
                && Asks(mid, records, report.id, user, role)
      ensures records == Apply(old(records), Event.UploadForRole(user, role, kind, url, found, order))
      ensures report.id == StatusPlace(UploadedForRole(old(records), user, role, kind, url, found), user, role)
      ensures report.id < |records| && report == ReportOf(records, report.id, RequiredOf(role))
    {
      Upload(found, NewRecord(user, None, Some(role), Pending), kind, url);
      ghost var mid := records;
      report := GetVerificationStatus(user, role, order);
    }

    /** The report is getUserKycStatus after the upload. */
    method UploadUserKyc(user: UserId, kind: DocType, url: string, found: Option<nat>, list: seq<nat>)
      returns (o: Overall)
      requires Honest(records, Event.UploadUserKyc(user, kind, url, found))
      requires IsFind(Apply(records, Event.UploadUserKyc(user, kind, url, found)), Personal(user), list)
      modifies this
      ensures UploadsInto(if found.Some? then old(records)
                          else old(records) + [Record(user, None, None, Pending, "", None, None, None, [])],
                          records, found.GetOr(|old(records)|), kind, url)
      ensures records == Apply(old(records), Event.UploadUserKyc(user, kind, url, found))
      ensures IsOverallOf(records, user, o)
    {
      Upload(found, NewRecord(user, None, None, Pending), kind, url);
      o := GetUserKycStatus(user, list);
    }

    /** The nested loops that copy identity documents into record i. */
    method CopyDocs(i: nat, order: seq<nat>)
      requires i < |records| && forall v <- order :: v < |records|
      modifies this
      ensures records == WithDocs(old(records), i, CopyAll(old(records), i, order))
    {
      ghost var t := records;
      DocsTwice(t, i, [], []);
      for n := 0 to |order|
        invariant records == WithDocs(t, i, CopyAll(t, i, order[..n]))
      {
        assert order[n] in order && order[..n + 1][..n] == order[..n];
        if order[n] != i {
          CopyNew(i, records[order[n]].documents);
          DocsTwice(t, i, CopyAll(t, i, order[..n]), CopyAll(t, i, order[..n + 1]));
        }
      }
      assert order[..|order|] == order;
    }

    /** The inner loop: docsToCopy is filtered once, then pushed one by one. */
    method CopyNew(i: nat, source: seq<Doc>)
      requires i < |records|
      modifies this
      ensures records == WithDocs(old(records), i,
                                  old(records)[i].documents + ToCopy(source, Kinds(old(records)[i].documents)))
    {
      ghost var t, have := records, records[i].documents;
      var docsToCopy := ToCopy(source, Kinds(records[i].documents));
      DocsTwice(t, i, [], []);
      assert have + docsToCopy[..0] == have;
      for m := 0 to |docsToCopy|
        invariant records == WithDocs(t, i, have + docsToCopy[..m])
      {
        assert have + docsToCopy[..m + 1] == have + docsToCopy[..m] + [docsToCopy[m]];
        DocsTwice(t, i, have + docsToCopy[..m], have + docsToCopy[..m + 1]);
        records := WithDocs(records, i, records[i].documents + [docsToCopy[m]]);
      }
      assert docsToCopy[..|docsToCopy|] == docsToCopy;
    }

    method GetVerificationStatus(user: UserId, role: Role, order: seq<nat>) returns (report: Report)
      requires Honest(records, AskStatus(user, role, order))
      modifies this
      ensures Asks(old(records), records, report.id, user, role)
      ensures records == Apply(old(records), AskStatus(user, role, order))
      ensures report.id == StatusPlace(old(records), user, role)
      ensures report.id < |records| && report == ReportOf(records, report.id, RequiredOf(role))
    {
      var found := Latest(records, OfRole(user, role));
      if found.None? {
        records := records + [NewRecord(user, None, Some(role), NoStatus)];
      }
      var i := found.GetOr(|records| - 1);
      CopiesGain(records, i, user, order);
      CopyDocs(i, order);
      report := ReportOf(records, i, RequiredOf(role));
    }

    method Submit(i: nat, required: set<DocType>, now: Time) returns (failure: Option<Error>)
      requires i < |records|
      modifies this
      ensures SubmitsOrNot(old(records), records, i, required, now, failure.None?)
      ensures records == Submitted(old(records), i, required, now)
      ensures failure == if required <= Kinds(old(records)[i].documents) then None
                         else Some(DocumentsMissing(Missing(required, old(records)[i].documents)))
    {
      var missing := Missing(required, records[i].documents);
      MissingNothing(required, records[i].documents);
      HoldsAllIff(records[i].documents, required);
      if missing != {} {
        return Some(DocumentsMissing(missing));
      }
      records := records[i := records[i].(status := Pending, submittedAt := Some(now))];
      failure := None;
    }

    method SubmitUserKyc(user: UserId, found: Option<nat>, now: Time) returns (failure: Option<Error>)
      requires Honest(records, Event.SubmitUserKyc(user, found, now))
      modifies this
      ensures records == Apply(old(records), Event.SubmitUserKyc(user, found, now))
      ensures failure == Some(RecordNotFound) <==> forall r <- old(records) :: !Matches(r, Personal(user))
      ensures failure == Some(RecordNotFound) ==> records == old(records)
      ensures failure != Some(RecordNotFound) ==> exists i: nat ::
                && IsKycRecord(old(records), user, i)
                && SubmitsOrNot(old(records), records, i, {AadhaarFront, AadhaarBack, Selfie}, now, failure.None?)
      ensures failure == Refusal(old(records), KycRecord(old(records), user, found), IDENTITY)
    {
      var i := found;
      if i.None? {
        i := Latest(records, Personal(user));
      }
      assert i.Some? ==> Matches(records[i.value], Personal(user)) && records[i.value] in records;
      if i.None? {
        return Some(RecordNotFound);
      }
      assert IsKycRecord(records, user, i.value);
      failure := Submit(i.value, IDENTITY, now);
    }

    method SubmitKycDoc(user: UserId, role: Role, found: Option<nat>, order: seq<nat>, now: Time)
      returns (failure: Option<Error>)
      requires Honest(records, Event.SubmitKycDoc(user, role, found, order, now))
      modifies this
      ensures records == Apply(old(records), Event.SubmitKycDoc(user, role, found, order, now))
      ensures
        var t := if found.Some? then old(records)
                 else old(records) + [Record(user, None, Some(role), NoStatus, "", None, None, None, [])];
        var i := found.GetOr(|old(records)|);
        && OthersStay(t, records, i) && Gains(t, records[i].documents, i, user)
        && (failure.None? <==> HoldsAll(records[i].documents, RequiredOf(role)))
        && (failure.None? ==> records[i].status == Pending && records[i].submittedAt == Some(now))
        && records[i] == t[i].(documents := records[i].documents,
                               status := if failure.None? then Pending else t[i].status,
                               submittedAt := if failure.None? then Some(now) else t[i].submittedAt)
      ensures failure == Refusal(records, Some(PlaceOf(old(records), found)), RequiredOf(role))
    {
      if found.None? {
        records := records + [NewRecord(user, None, Some(role), NoStatus)];
      }
      var i := found.GetOr(|records| - 1);
      CopiesGain(records, i, user, order);
      CopyDocs(i, order);
      failure := Submit(i, RequiredOf(role), now);
    }

    method SubmitVehicleDocs(vehicle: VehicleId, role: Role, found: Option<nat>, white: bool, now: Time)
      returns (failure: Option<Error>)
      requires Honest(records, Event.SubmitVehicleDocs(vehicle, role, found, white, now))
      modifies this
      ensures records == Apply(old(records), Event.SubmitVehicleDocs(vehicle, role, found, white, now))
      ensures found.None? ==> failure == Some(RecordNotFound) && records == old(records)
      ensures found.Some? ==>
                SubmitsOrNot(old(records), records, found.value, RequiredOfVehicle(white), now, failure.None?)
      ensures failure == Refusal(old(records), found, RequiredOfVehicle(white))
    {
      if found.None? {
        return Some(RecordNotFound);
      }
      failure := Submit(found.value, RequiredOfVehicle(white), now);
    }

    method ReviewDocument(r: Review) returns (failure: Option<Error>)
      modifies this
      ensures failure.None? ==>
                && Exists(old(records), r.record, r.place) && OthersStay(old(records), records, r.record)
                && IsReviewed(old(records)[r.record], records[r.record], r)
      ensures failure.Some? ==> records == old(records)
      ensures records == Apply(old(records), Event.ReviewDocument(r))
      ensures failure == if Exists(old(records), r.record, r.place) then None else Some(DocumentNotFound)
    {
      if r.record >= |records| || r.place >= |records[r.record].documents| {
        return Some(DocumentNotFound);
      }
      var v := records[r.record];
      var doc := v.documents[r.place].(status := r.status);
      if r.reason != "" {
        doc := doc.(reason := r.reason);
      }
      v := v.(documents := v.documents[r.place := doc]);
      if v.status == Pending {
        var mandatory := Mandatory(v, r.white);
        ApprovedAll(v.documents, mandatory);
        if r.status == DocRejected && doc.kind in mandatory {
          v := v.(status := Rejected, reason := RefusalReason(doc.kind, r));
          v := v.(reviewer := Some(r.admin), reviewedAt := Some(r.now));
        } else if r.status == DocApproved && mandatory <= ApprovedKinds(v.documents) {
          v := v.(status := Verified, reviewer := Some(r.admin), reviewedAt := Some(r.now));
        }
      }
      records := records[r.record := v];
      failure := None;
    }

    /** The loop over the documents of a decided record: the ones still pending follow the decision. */
    method SettlePending(i: nat, status: DocStatus, reason: Option<string>)
      requires i < |records|
      modifies this
      ensures records == WithDocs(old(records), i, IfPending(old(records)[i].documents, status, reason))
    {
      ghost var t, docs := records, records[i].documents;
      DocsTwice(t, i, [], []);
      SettleEnds(docs, status, reason);
      for n := 0 to |records[i].documents|
        invariant records == WithDocs(t, i, HalfSettled(docs, n, status, reason))
      {
        var doc := records[i].documents[n];
        SettleOneMore(docs, n, status, reason);
        DocsTwice(t, i, HalfSettled(docs, n, status, reason), HalfSettled(docs, n + 1, status, reason));
        if doc.status == DocPending {
          doc := doc.(status := status, reason := reason.GetOr(doc.reason));
        }
        records := WithDocs(records, i, records[i].documents[n := doc]);
      }
    }

    method ApproveVerification(i: nat, admin: UserId, now: Time) returns (failure: Option<Error>)
      modifies this
      ensures failure.Some? ==> records == old(records)
      ensures failure.None? ==>
                && i < |old(records)| && OthersStay(old(records), records, i)
                && records[i] == old(records)[i].(status := Verified, reason := "", reviewer := Some(admin),
                                                  reviewedAt := Some(now), documents := records[i].documents)
                && Follow(old(records)[i].documents, records[i].documents, DocApproved, None)
      ensures records == Apply(old(records), Approve(i, admin, now))
      ensures failure == if i < |old(records)| then None else Some(RecordNotFound)
    {
      if i >= |records| {
        return Some(RecordNotFound);
      }
      var v := records[i].(status := Verified, reason := "");
      records := records[i := v.(reviewer := Some(admin), reviewedAt := Some(now))];
      DocsTwice(old(records), i, IfPending(records[i].documents, DocApproved, None), []);
      SettlePending(i, DocApproved, None);
      failure := None;
    }

    method RejectVerification(i: nat, admin: UserId, reason: string, now: Time) returns (failure: Option<Error>)
      modifies this
      ensures failure.Some? ==> records == old(records)
      ensures failure.None? ==>
                && i < |old(records)| && OthersStay(old(records), records, i)
                && records[i] == old(records)[i].(status := Rejected, reason := records[i].reason,
                                                  reviewer := Some(admin), reviewedAt := Some(now),
                                                  documents := records[i].documents)
                && (if reason != "" then records[i].reason == reason else records[i].reason != "")
                && exists why :: why != "" && (reason != "" ==> why == reason)
                     && Follow(old(records)[i].documents, records[i].documents, DocRejected, Some(why))
      ensures records == Apply(old(records), Reject(i, admin, reason, now))
      ensures failure == if i < |old(records)| then None else Some(RecordNotFound)
    {
      if i >= |records| {
        return Some(RecordNotFound);
      }
      var v := records[i].(status := Rejected, reason := if reason != "" then reason else "Rejected by Admin");
      records := records[i := v.(reviewer := Some(admin), reviewedAt := Some(now))];
      var why := if reason != "" then reason else "Verification rejected by Admin";
      DocsTwice(old(records), i, IfPending(records[i].documents, DocRejected, Some(why)), []);
      SettlePending(i, DocRejected, Some(why));
      assert Follow(old(records)[i].documents, records[i].documents, DocRejected, Some(why));
      failure := None;
    }

    /** getUserKycStatus, with the user's personal records in the order the database lists them. */
    method GetUserKycStatus(user: UserId, list: seq<nat>) returns (o: Overall)
      requires IsFind(records, Personal(user), list)
      ensures IsOverallOf(records, user, o)
    {
      assert forall i | 0 <= i < |list| :: list[i] in list;
      var t := records;
      var vs := seq(|list|, i requires 0 <= i < |list| && list[i] < |t| => Named(list[i], t[list[i]]));
      o := UserKyc(vs);
      UnionIsHeld(records, user, list, vs);
      OverallOfAll(records, user, list, vs, o);
    }
  }
}
