/** The `/api/found-items` handlers over a store of found-item records keyed by id. */
module FoundItems {
  import opened Common
  import Listing

  /** A stored found item (the backend shape, with `locationFound`/`foundDate`). Columns
      filled from an absent request field hold `None`. */
  datatype FoundItem = FoundItem(
    id: int,
    adminId: Option<int>,
    name: Option<string>,
    brand: Option<string>,
    color: Option<string>,
    category: Option<string>,
    locationFound: Option<string>,
    foundDate: Date,
    description: Option<string>,
    photoUrl: Option<string>,
    status: string,
    createdAt: int)

  /** The text fields of a multipart create or edit request; `None` is an absent field. */
  datatype ItemForm = ItemForm(
    adminId: Option<string>,
    name: Option<string>,
    brand: Option<string>,
    color: Option<string>,
    category: Option<string>,
    locationFound: Option<string>,
    foundDate: Option<string>,
    description: Option<string>,
    status: Option<string>)

  /** The bytes of the `photo` part of the request. */
  type Photo = seq<bv8>

  /** What the image host answers to an upload. */
  datatype UploadResult = Uploaded(secureUrl: string) | UploadFailed

  /** The table of found items and the next value of its autoincrement id. */
  datatype Store = Store(items: map<int, FoundItem>, nextId: int)

  /** Every record is stored under its own id, and ids below `nextId` are the used ones. */
  predicate Valid(s: Store) {
    forall k :: k in s.items ==> s.items[k].id == k && k < s.nextId
  }

  const DefaultStatus := "Ditemukan"
  const SaveFailed := "Gagal menyimpan data"

  /** The photo step of a create or edit: no file, the hosted URL, or a failed upload. */
  datatype PhotoStep = NoPhoto | PhotoAt(url: string) | PhotoFailed

  function StorePhoto(file: Option<Photo>, upload: Photo -> UploadResult): PhotoStep {
    match file
    case None => NoPhoto
    case Some(bytes) =>
      match upload(bytes)
      case Uploaded(url) => PhotoAt(url)
      case UploadFailed => PhotoFailed
  }

  /** `adminId ? Number(adminId) : null`, where `toNumber` stands for JavaScript's
      `Number` and answers `None` for a value that is not an integer (which the
      database refuses). The outer `None` is that refusal. */
  function AdminIdColumn(field: Option<string>, toNumber: string -> Option<int>): Option<Option<int>> {
    if Truthy(field) then
      match toNumber(field.value)
      case None => None
      case Some(n) => Some(Some(n))
    else Some(None)
  }

  /** GET `/` : every record exactly once, newest first by `createdAt`. */
  method List(s: Store) returns (r: seq<FoundItem>)
    requires Valid(s)
    ensures forall k :: k in s.items ==> s.items[k] in r
    ensures forall i :: 0 <= i < |r| ==> r[i].id in s.items && s.items[r[i].id] == r[i]
    ensures forall i, j :: 0 <= i < j < |r| ==> r[i].id != r[j].id
    ensures forall i, j :: 0 <= i < j < |r| ==> r[i].createdAt >= r[j].createdAt
  {
    var ks;
    r, ks := Listing.NewestFirstRecords(s.items, (it: FoundItem) => it.createdAt);
    forall i | 0 <= i < |r|
      ensures r[i].id == ks[i]
    {
      var k := ks[i];
      assert s.items[k].id == k;
    }
    forall k | k in s.items
      ensures s.items[k] in r
    {
      var i :| 0 <= i < |ks| && ks[i] == k;
      assert r[i] == s.items[k];
    }
  }

  /** GET `/:id` */
  function Get(s: Store, id: Option<int>): (r: Reply<FoundItem>)
    ensures r.Ok? <==> id.Some? && id.value in s.items
    ensures r.Ok? ==> r.body == s.items[id.value] && (Valid(s) ==> r.body.id == id.value)
    ensures id.Some? && id.value !in s.items ==> r == Error(404, "Not found")
    ensures id.None? ==> r == Error(500, "Gagal mengambil detail")
  {
    match id
    case None => Error(500, "Gagal mengambil detail")
    case Some(k) => if k in s.items then Ok(s.items[k]) else Error(404, "Not found")
  }

  /** POST `/`: stores a new record under the next id. */
  function Create(s: Store, form: ItemForm, file: Option<Photo>, upload: Photo -> UploadResult,
                  toNumber: string -> Option<int>, now: int): (r: (Reply<FoundItem>, Store))
    ensures Valid(s) ==> Valid(r.1)
    ensures r.0.Ok? <==> StorePhoto(file, upload) != PhotoFailed && AdminIdColumn(form.adminId, toNumber).Some?
    ensures r.0.Error? ==> r.0 == Error(500, SaveFailed) && r.1 == s
    ensures r.0.Ok? ==>
      var it := r.0.body;
      && r.1.items == s.items[s.nextId := it]
      && r.1.nextId == s.nextId + 1
      && it.id == s.nextId
      && (Valid(s) ==> it.id !in s.items)
      && (file.None? ==> it.photoUrl == None)
      && (file.Some? ==> it.photoUrl == Some(upload(file.value).secureUrl))
      && (!Truthy(form.status) ==> it.status == DefaultStatus)
      && (Truthy(form.status) ==> it.status == form.status.value)
      && (!Truthy(form.adminId) ==> it.adminId == None)
      && (Truthy(form.adminId) ==> it.adminId == toNumber(form.adminId.value))
      && it.name == form.name && it.brand == form.brand && it.color == form.color
      && it.category == form.category && it.locationFound == form.locationFound
      && it.description == form.description
      && it.foundDate == DateOf(form.foundDate)
      && it.createdAt == now
  {
    var photo := StorePhoto(file, upload);
    var admin := AdminIdColumn(form.adminId, toNumber);
    if photo.PhotoFailed? || admin.None? then
      (Error(500, SaveFailed), s)
    else
      var it := FoundItem(
        s.nextId, admin.value, form.name, form.brand, form.color, form.category,
        form.locationFound, DateOf(form.foundDate), form.description,
        if photo.PhotoAt? then Some(photo.url) else None,
        if Truthy(form.status) then form.status.value else DefaultStatus,
        now);
      (Ok(it), Store(s.items[s.nextId := it], s.nextId + 1))
  }

  /** The edited record: each present field replaces its column, an absent field (and a
      falsy `foundDate`) leaves it; a new photo replaces the URL. */
  function ApplyForm(before: FoundItem, form: ItemForm, photo: PhotoStep): FoundItem {
    before.(
      name := Overwrite(before.name, form.name),
      brand := Overwrite(before.brand, form.brand),
      color := Overwrite(before.color, form.color),
      category := Overwrite(before.category, form.category),
      locationFound := Overwrite(before.locationFound, form.locationFound),
      foundDate := if Truthy(form.foundDate) then DateOf(form.foundDate) else before.foundDate,
      description := Overwrite(before.description, form.description),
      photoUrl := if photo.PhotoAt? then Some(photo.url) else before.photoUrl,
      status := if form.status.Some? then form.status.value else before.status)
  }

  /** Field by field, what a partial update promises. */
  ghost predicate IsPartialUpdate(before: FoundItem, form: ItemForm, file: Option<Photo>,
                                  upload: Photo -> UploadResult, after: FoundItem) {
    && after.id == before.id && after.adminId == before.adminId && after.createdAt == before.createdAt
    && after.name == (if form.name.None? then before.name else form.name)
    && after.brand == (if form.brand.None? then before.brand else form.brand)
    && after.color == (if form.color.None? then before.color else form.color)
    && after.category == (if form.category.None? then before.category else form.category)
    && after.locationFound == (if form.locationFound.None? then before.locationFound else form.locationFound)
    && after.description == (if form.description.None? then before.description else form.description)
    && after.foundDate == (if Truthy(form.foundDate) then DateOf(form.foundDate) else before.foundDate)
    && after.status == (if form.status.None? then before.status else form.status.value)
    && (file.None? ==> after.photoUrl == before.photoUrl)
    && (file.Some? && upload(file.value).Uploaded? ==> after.photoUrl == Some(upload(file.value).secureUrl))
  }

  /** PUT `/:id`: a partial update of an existing record. */
  function Update(s: Store, id: Option<int>, form: ItemForm, file: Option<Photo>,
                  upload: Photo -> UploadResult): (r: (Reply<FoundItem>, Store))
    ensures Valid(s) ==> Valid(r.1)
    ensures r.0.Ok? <==> id.Some? && id.value in s.items && StorePhoto(file, upload) != PhotoFailed
    ensures r.0.Error? ==> r.0 == Error(500, SaveFailed) && r.1 == s
    ensures r.0.Ok? ==>
      && r.1 == Store(s.items[id.value := r.0.body], s.nextId)
      && IsPartialUpdate(s.items[id.value], form, file, upload, r.0.body)
  {
    var photo := StorePhoto(file, upload);
    if photo.PhotoFailed? || id.None? || id.value !in s.items then
      (Error(500, SaveFailed), s)
    else
      var it := ApplyForm(s.items[id.value], form, photo);
      (Ok(it), Store(s.items[id.value := it], s.nextId))
  }

  /** DELETE `/:id` */
  function Delete(s: Store, id: Option<int>): (r: (Reply<string>, Store))
    ensures Valid(s) ==> Valid(r.1)
    ensures r.0.Ok? <==> id.Some? && id.value in s.items
    ensures r.0.Error? ==> r.0 == Error(500, "Gagal menghapus data") && r.1 == s
    ensures r.0.Ok? ==>
      && r.0.body == "Deleted"
      && r.1.nextId == s.nextId
      && id.value !in r.1.items
      && r.1.items.Keys == s.items.Keys - {id.value}
      && (forall k :: k in r.1.items ==> r.1.items[k] == s.items[k])
  {
    if id.None? || id.value !in s.items then
      (Error(500, "Gagal menghapus data"), s)
    else
      (Ok("Deleted"), Store(s.items - {id.value}, s.nextId))
  }

  /** A created record can be fetched by its id. */
  lemma GetAfterCreate(s: Store, form: ItemForm, file: Option<Photo>, upload: Photo -> UploadResult,
                       toNumber: string -> Option<int>, now: int)
    requires Create(s, form, file, upload, toNumber, now).0.Ok?
    ensures var r := Create(s, form, file, upload, toNumber, now);
            Get(r.1, Some(s.nextId)) == Ok(r.0.body)
  {
  }

  /** A deleted record is no longer found: the lookup answers 404. */
  lemma GetAfterDelete(s: Store, id: int)
    requires id in s.items
    ensures Get(Delete(s, Some(id)).1, Some(id)) == Error(404, "Not found")
  {
  }

  /** Deleting a record just created gives back the table it was created in. */
  lemma DeleteUndoesCreate(s: Store, form: ItemForm, file: Option<Photo>, upload: Photo -> UploadResult,
                           toNumber: string -> Option<int>, now: int)
    requires Valid(s)
    requires Create(s, form, file, upload, toNumber, now).0.Ok?
    ensures Delete(Create(s, form, file, upload, toNumber, now).1, Some(s.nextId)).1.items == s.items
  {
    var r := Create(s, form, file, upload, toNumber, now);
    var d := Delete(r.1, Some(s.nextId));
    assert s.nextId !in s.items;
    assert forall k :: k in d.1.items <==> k in s.items;
  }

  /** An edit with every field absent and no photo answers the record and changes nothing. */
  lemma EmptyEditChangesNothing(s: Store, id: int, upload: Photo -> UploadResult)
    requires id in s.items
    ensures var empty := ItemForm(None, None, None, None, None, None, None, None, None);
            Update(s, Some(id), empty, None, upload) == (Ok(s.items[id]), s)
  {
    var empty := ItemForm(None, None, None, None, None, None, None, None, None);
    assert ApplyForm(s.items[id], empty, NoPhoto) == s.items[id];
    assert s.items[id := s.items[id]] == s.items;
  }

  /** Repeating the same edit has no further effect on the record's fields; only a photo,
      which the handler uploads again (`again`) as a new asset, may change `photoUrl` or fail.
      Without a photo the repeat gives back exactly the first answer and store. */
  lemma EditIsIdempotent(s: Store, id: int, form: ItemForm, file: Option<Photo>,
                         upload: Photo -> UploadResult, again: Photo -> UploadResult)
    requires Update(s, Some(id), form, file, upload).0.Ok?
    ensures var once := Update(s, Some(id), form, file, upload);
            var twice := Update(once.1, Some(id), form, file, again);
            && (file.None? ==> twice == once)
            && (twice.0.Error? ==> twice.1 == once.1)
            && (twice.0.Ok? ==>
                  && twice.0.body.(photoUrl := once.0.body.photoUrl) == once.0.body
                  && twice.1 == Store(once.1.items[id := twice.0.body], once.1.nextId))
  {
    var once := Update(s, Some(id), form, file, upload);
    var photo := StorePhoto(file, again);
    if photo != PhotoFailed {
      var twice := ApplyForm(once.0.body, form, photo);
      assert twice.(photoUrl := once.0.body.photoUrl) == once.0.body;
      if file.None? {
        assert twice == once.0.body;
        assert once.1.items[id := once.0.body] == once.1.items;
      }
    }
  }
}
