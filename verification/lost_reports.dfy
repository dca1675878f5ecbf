/** The `/api/lost-reports` handlers over a store of lost-item reports keyed by id. */
module LostReports {
  import opened Common
  import Listing

  /** A stored report. Columns filled from an absent request field hold `None`. */
  datatype LostReport = LostReport(
    id: int,
    name: Option<string>,
    nim: Option<string>,
    email: Option<string>,
    phone: Option<string>,
    category: Option<string>,
    lostDate: Date,
    description: Option<string>,
    status: string,
    createdAt: int)

  /** The JSON body of a new report. A `status` may be sent, but it is ignored. */
  datatype ReportForm = ReportForm(
    name: Option<string>,
    nim: Option<string>,
    email: Option<string>,
    phone: Option<string>,
    category: Option<string>,
    lostDate: Option<string>,
    description: Option<string>,
    status: Option<string>)

  datatype Store = Store(reports: map<int, LostReport>, nextId: int)

  /** Every report is stored under its own id, and ids below `nextId` are the used ones. */
  predicate Valid(s: Store) {
    forall k :: k in s.reports ==> s.reports[k].id == k && k < s.nextId
  }

  /** The status every new report starts in. */
  const InitialStatus := "Hilang"

  /** GET `/`: every report exactly once, newest first by `createdAt`. */
  method List(s: Store) returns (r: seq<LostReport>)
    requires Valid(s)
    ensures forall k :: k in s.reports ==> s.reports[k] in r
    ensures forall i :: 0 <= i < |r| ==> r[i].id in s.reports && s.reports[r[i].id] == r[i]
    ensures forall i, j :: 0 <= i < j < |r| ==> r[i].id != r[j].id
    ensures forall i, j :: 0 <= i < j < |r| ==> r[i].createdAt >= r[j].createdAt
  {
    var ks;
    r, ks := Listing.NewestFirstRecords(s.reports, (rep: LostReport) => rep.createdAt);
    forall i | 0 <= i < |r|
      ensures r[i].id == ks[i]
    {
      var k := ks[i];
      assert s.reports[k].id == k;
    }
    forall k | k in s.reports
      ensures s.reports[k] in r
    {
      var i :| 0 <= i < |ks| && ks[i] == k;
      assert r[i] == s.reports[k];
    }
  }

  /** POST `/`: stores a new report, always in the initial status. */
  function Create(s: Store, form: ReportForm, now: int): (r: (Reply<LostReport>, Store))
    ensures Valid(s) ==> Valid(r.1)
    ensures r.0.Ok?
    ensures var rep := r.0.body;
      && r.1 == Store(s.reports[s.nextId := rep], s.nextId + 1)
      && rep.id == s.nextId
      && (Valid(s) ==> rep.id !in s.reports)
      && rep.status == InitialStatus
      && rep.name == form.name && rep.nim == form.nim && rep.email == form.email
      && rep.phone == form.phone && rep.category == form.category
      && rep.description == form.description
      && rep.lostDate == DateOf(form.lostDate)
      && rep.createdAt == now
  {
    var rep := LostReport(
      s.nextId, form.name, form.nim, form.email, form.phone, form.category,
      DateOf(form.lostDate), form.description, InitialStatus, now);
    (Ok(rep), Store(s.reports[s.nextId := rep], s.nextId + 1))
  }

  /** DELETE `/:id`: answers `{ success: true }`. */
  function Delete(s: Store, id: Option<int>): (r: (Reply<bool>, Store))
    ensures Valid(s) ==> Valid(r.1)
    ensures r.0.Ok? <==> id.Some? && id.value in s.reports
    ensures r.0.Error? ==> r.0 == Error(500, "Gagal menghapus laporan") && r.1 == s
    ensures r.0.Ok? ==>
      && r.0.body
      && r.1.nextId == s.nextId
      && id.value !in r.1.reports
      && r.1.reports.Keys == s.reports.Keys - {id.value}
      && (forall k :: k in r.1.reports ==> r.1.reports[k] == s.reports[k])
  {
    if id.None? || id.value !in s.reports then
      (Error(500, "Gagal menghapus laporan"), s)
    else
      (Ok(true), Store(s.reports - {id.value}, s.nextId))
  }

  /** PUT `/:id` with body `{ status }`: sets the status, and only the status. */
  function UpdateStatus(s: Store, id: Option<int>, status: Option<string>): (r: (Reply<LostReport>, Store))
    ensures Valid(s) ==> Valid(r.1)
    ensures r.0.Ok? <==> id.Some? && id.value in s.reports
    ensures r.0.Error? ==> r.0 == Error(500, "Gagal update laporan") && r.1 == s
    ensures r.0.Ok? ==>
      var before := s.reports[id.value];
      && r.1 == Store(s.reports[id.value := r.0.body], s.nextId)
      && r.0.body.(status := before.status) == before
      && (status.Some? ==> r.0.body.status == status.value)
      && (status.None? ==> r.0.body == before)
  {
    if id.None? || id.value !in s.reports then
      (Error(500, "Gagal update laporan"), s)
    else
      var rep := s.reports[id.value];
      var updated := if status.Some? then rep.(status := status.value) else rep;
      (Ok(updated), Store(s.reports[id.value := updated], s.nextId))
  }

  /** A status change followed by its reverse (mark done, then mark undone) restores
      the store. */
  lemma StatusChangeIsReversible(s: Store, id: int, status: string)
    requires id in s.reports
    ensures var before := s.reports[id].status;
            UpdateStatus(UpdateStatus(s, Some(id), Some(status)).1, Some(id), Some(before)).1 == s
  {
    var rep := s.reports[id];
    assert rep.(status := status).(status := rep.status) == rep;
    assert s.reports[id := rep.(status := status)][id := rep] == s.reports;
  }

  /** Deleting a report just created gives back the store's reports. */
  lemma DeleteUndoesCreate(s: Store, form: ReportForm, now: int)
    requires Valid(s)
    ensures Delete(Create(s, form, now).1, Some(s.nextId)).1.reports == s.reports
  {
    var d := Delete(Create(s, form, now).1, Some(s.nextId));
    assert s.nextId !in s.reports;
    assert forall k :: k in d.1.reports <==> k in s.reports;
  }
}
