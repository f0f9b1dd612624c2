/** The disaster report canister: a stable map from report identifiers to
    reports, its six public operations, and what they promise together.
    The operations are first stated as pure transitions of the map (result
    and new map), then carried out by the methods of a class whose field is
    the map. The caller principal and the generated identifier are inputs. */
module Store {
  import opened Text
  import opened Records
  import opened Validation

  type Storage = map<string, DisasterReport>

  /** The result of an operation together with the map it leaves behind. */
  datatype Outcome = Outcome(result: Result<DisasterReport>, storage: Storage)

  function IdFormatMessage(id: string): string {
    "id=" + id + " is not in the valid format."
  }

  function PayloadIdFormatMessage(id: string): string {
    "payload.disasterId=" + id + " is not in the valid format."
  }

  /** The text of a rejected payload; the errors are joined as an array
      placed in a template string is. */
  function PayloadErrorsMessage(errors: seq<string>): string {
    "Invalid payload. Errors=[" + JoinWithCommas(errors) + "]"
  }

  function ReportNotFoundMessage(id: string): string {
    "disaster report with id=" + id + " not found"
  }

  function DisasterNotFoundMessage(id: string): string {
    "Disaster with id=" + id + " not found"
  }

  function ImageNotFoundMessage(id: string, timestamp: string, url: string): string {
    "Image with timestamp=" + timestamp + " and disasterImageUrl=" + url + " not found in disaster with id=" + id
  }

  /** An image as it sits in the report `id`: it names that report and it
      passed the image validator. */
  predicate ImageStored(img: DisasterImage, id: string) {
    img.disasterId == id && !IsInvalidString(img.timestamp) && !IsInvalidString(img.disasterImageUrl)
  }

  /** What every map the operations build satisfies: keys have the
      identifier form, each report sits under its own identifier, and each
      image names its report and passed the image validator. */
  predicate WellFormed(m: Storage) {
    forall id :: id in m ==>
      && IsValidUuid(id) && m[id].disasterId == id
      && forall j :: 0 <= j < |m[id].disasterImages| ==> ImageStored(m[id].disasterImages[j], id)
  }

  /** `getDisasterReportById`. */
  function Lookup(m: Storage, id: string): (r: Result<DisasterReport>)
    ensures r.Ok? <==> IsValidUuid(id) && id in m
    ensures r.Ok? ==> r.value == m[id]
    ensures !IsValidUuid(id) ==> r == Err(InvalidPayload(IdFormatMessage(id)))
    ensures IsValidUuid(id) && id !in m ==> r == Err(NotFound(ReportNotFoundMessage(id)))
  {
    if !IsValidUuid(id) then Err(InvalidPayload(IdFormatMessage(id)))
    else if id !in m then Err(NotFound(ReportNotFoundMessage(id)))
    else Ok(m[id])
  }

  /** `createDisasterReport` with `newId` as the generated identifier. */
  function Create(m: Storage, p: DisasterReportPayload, caller: Principal, newId: string): (o: Outcome)
    ensures o.result.Ok? <==> ReportErrors(p) == []
    ensures o.result.Err? ==> o.storage == m && o.result.error == InvalidPayload(PayloadErrorsMessage(ReportErrors(p)))
    ensures o.result.Ok? ==> o.storage == m[newId := o.result.value]
    ensures o.result.Ok? ==> o.result.value.disasterId == newId && o.result.value.reporterId == caller
    ensures o.result.Ok? ==> PayloadOf(o.result.value) == p && o.result.value.disasterImages == []
  {
    var errors := ReportErrors(p);
    if errors != [] then Outcome(Err(InvalidPayload(PayloadErrorsMessage(errors))), m)
    else
      var report := NewReport(newId, caller, p);
      Outcome(Ok(report), m[newId := report])
  }

  /** `updateDisasterReportById`: the identifier check, then the payload
      check, then presence, then ownership. */
  function Update(m: Storage, id: string, p: DisasterReportPayload, caller: Principal): (o: Outcome)
    ensures o.result.Ok? <==> IsValidUuid(id) && ReportErrors(p) == [] && id in m && m[id].reporterId == caller
    ensures o.result.Err? ==> o.storage == m
    ensures !IsValidUuid(id) ==> o.result == Err(InvalidPayload(IdFormatMessage(id)))
    ensures IsValidUuid(id) && ReportErrors(p) != [] ==>
      o.result == Err(InvalidPayload(PayloadErrorsMessage(ReportErrors(p))))
    ensures IsValidUuid(id) && ReportErrors(p) == [] && id !in m ==>
      o.result == Err(NotFound("cannot update report: " + ReportNotFoundMessage(id)))
    ensures IsValidUuid(id) && ReportErrors(p) == [] && id in m && m[id].reporterId != caller ==>
      o.result == Err(NotAuthorized("you are not the reporter of this disaster report with id=" + id))
    ensures o.result.Ok? ==> o.result.value == Spread(m[id], p) && o.storage == m[id := o.result.value]
  {
    if !IsValidUuid(id) then Outcome(Err(InvalidPayload(IdFormatMessage(id))), m)
    else
      var errors := ReportErrors(p);
      if errors != [] then Outcome(Err(InvalidPayload(PayloadErrorsMessage(errors))), m)
      else if id !in m then Outcome(Err(NotFound("cannot update report: " + ReportNotFoundMessage(id))), m)
      else if m[id].reporterId.text != caller.text then
        Outcome(Err(NotAuthorized("you are not the reporter of this disaster report with id=" + id)), m)
      else
        var updated := Spread(m[id], p);
        Outcome(Ok(updated), m[id := updated])
  }

  /** `addDisasterImages`: the identifier check, then the image validator,
      then presence, then ownership; the image goes to the end of the list. */
  function AddImage(m: Storage, img: DisasterImage, caller: Principal): (o: Outcome)
    ensures o.result.Ok? <==>
      IsValidUuid(img.disasterId) && ImageErrors(img) == [] && img.disasterId in m
      && m[img.disasterId].reporterId == caller
    ensures o.result.Err? ==> o.storage == m
    ensures !IsValidUuid(img.disasterId) ==> o.result == Err(InvalidPayload(PayloadIdFormatMessage(img.disasterId)))
    ensures IsValidUuid(img.disasterId) && ImageErrors(img) != [] ==>
      o.result == Err(InvalidPayload(PayloadErrorsMessage(ImageErrors(img))))
    ensures IsValidUuid(img.disasterId) && ImageErrors(img) == [] && img.disasterId !in m ==>
      o.result == Err(NotFound(DisasterNotFoundMessage(img.disasterId)))
    ensures (IsValidUuid(img.disasterId) && ImageErrors(img) == [] && img.disasterId in m
             && m[img.disasterId].reporterId != caller) ==>
      o.result == Err(NotAuthorized("you are not authorized to add images to this disaster with id=" + img.disasterId + " "))
    ensures o.result.Ok? ==>
      && o.result.value == m[img.disasterId].(disasterImages := m[img.disasterId].disasterImages + [img])
      && o.storage == m[img.disasterId := o.result.value]
  {
    var id := img.disasterId;
    if !IsValidUuid(id) then Outcome(Err(InvalidPayload(PayloadIdFormatMessage(id))), m)
    else
      var errors := ImageErrors(img);
      if errors != [] then Outcome(Err(InvalidPayload(PayloadErrorsMessage(errors))), m)
      else if id !in m then Outcome(Err(NotFound(DisasterNotFoundMessage(id))), m)
      else if m[id].reporterId.text != caller.text then
        Outcome(Err(NotAuthorized("you are not authorized to add images to this disaster with id=" + id + " ")), m)
      else
        var report := m[id].(disasterImages := m[id].disasterImages + [DisasterImage(id, img.timestamp, img.disasterImageUrl)]);
        Outcome(Ok(report), m[id := report])
  }

  /** `deleteDisasterImageById`: the identifier check, then presence, then
      ownership, then the first image with the same timestamp and address
      goes. The image validator is not run. */
  function DeleteImage(m: Storage, img: DisasterImage, caller: Principal): (o: Outcome)
    ensures o.result.Ok? <==>
      IsValidUuid(img.disasterId) && img.disasterId in m && m[img.disasterId].reporterId == caller
      && RemoveFirstMatch(m[img.disasterId].disasterImages, img.timestamp, img.disasterImageUrl).Some?
    ensures o.result.Err? ==> o.storage == m
    ensures !IsValidUuid(img.disasterId) ==> o.result == Err(InvalidPayload(PayloadIdFormatMessage(img.disasterId)))
    ensures IsValidUuid(img.disasterId) && img.disasterId !in m ==>
      o.result == Err(NotFound(DisasterNotFoundMessage(img.disasterId)))
    ensures IsValidUuid(img.disasterId) && img.disasterId in m && m[img.disasterId].reporterId != caller ==>
      o.result == Err(NotAuthorized("you are not authorized to delete images from this disaster with id=" + img.disasterId + " "))
    ensures (IsValidUuid(img.disasterId) && img.disasterId in m && m[img.disasterId].reporterId == caller
             && RemoveFirstMatch(m[img.disasterId].disasterImages, img.timestamp, img.disasterImageUrl).None?) ==>
      o.result == Err(NotFound(ImageNotFoundMessage(img.disasterId, img.timestamp, img.disasterImageUrl)))
    ensures o.result.Ok? ==>
      && o.result.value == m[img.disasterId].(disasterImages :=
           RemoveFirstMatch(m[img.disasterId].disasterImages, img.timestamp, img.disasterImageUrl).value)
      && o.storage == m[img.disasterId := o.result.value]
  {
    var id := img.disasterId;
    if !IsValidUuid(id) then Outcome(Err(InvalidPayload(PayloadIdFormatMessage(id))), m)
    else if id !in m then Outcome(Err(NotFound(DisasterNotFoundMessage(id))), m)
    else if m[id].reporterId.text != caller.text then
      Outcome(Err(NotAuthorized("you are not authorized to delete images from this disaster with id=" + id + " ")), m)
    else
      var index := FindImageIndex(m[id].disasterImages, img.timestamp, img.disasterImageUrl);
      if index == -1 then Outcome(Err(NotFound(ImageNotFoundMessage(id, img.timestamp, img.disasterImageUrl))), m)
      else
        var report := m[id].(disasterImages := RemoveAt(m[id].disasterImages, index));
        Outcome(Ok(report), m[id := report])
  }

  /** Creation keeps the map well formed, given an identifier of the form
      the generator produces. */
  lemma CreateKeepsWellFormed(m: Storage, p: DisasterReportPayload, caller: Principal, newId: string)
    requires WellFormed(m) && IsValidUuid(newId)
    ensures WellFormed(Create(m, p, caller, newId).storage)
  {
  }

  lemma UpdateKeepsWellFormed(m: Storage, id: string, p: DisasterReportPayload, caller: Principal)
    requires WellFormed(m)
    ensures WellFormed(Update(m, id, p, caller).storage)
  {
  }

  lemma AddImageKeepsWellFormed(m: Storage, img: DisasterImage, caller: Principal)
    requires WellFormed(m)
    ensures WellFormed(AddImage(m, img, caller).storage)
  {
    var o := AddImage(m, img, caller);
    if o.result.Ok? {
      var id := img.disasterId;
      ImageErrorsEmptyIff(img);
      var images := m[id].disasterImages + [img];
      assert o.storage[id].disasterImages == images;
      forall j | 0 <= j < |images| ensures ImageStored(images[j], id) {
        if j < |m[id].disasterImages| {
          assert images[j] == m[id].disasterImages[j];
        }
      }
    }
  }

  lemma DeleteImageKeepsWellFormed(m: Storage, img: DisasterImage, caller: Principal)
    requires WellFormed(m)
    ensures WellFormed(DeleteImage(m, img, caller).storage)
  {
    var o := DeleteImage(m, img, caller);
    if o.result.Ok? {
      var id := img.disasterId;
      var before := m[id].disasterImages;
      var index := FindImageIndex(before, img.timestamp, img.disasterImageUrl);
      var after := RemoveAt(before, index);
      assert o.storage[id].disasterImages == after;
      forall j | 0 <= j < |after| ensures ImageStored(after[j], id) {
        if j < index {
          assert after[j] == before[j];
        } else {
          assert after[j] == before[j + 1];
        }
      }
    }
  }

  /** A created report can be read back under its identifier, the other
      reports stay as they were, and the map grows by one unless the
      identifier was already taken. */
  lemma CreateThenLookup(m: Storage, p: DisasterReportPayload, caller: Principal, newId: string)
    requires IsValidUuid(newId) && ReportErrors(p) == []
    ensures Lookup(Create(m, p, caller, newId).storage, newId) == Ok(NewReport(newId, caller, p))
    ensures forall k :: k in m && k != newId ==>
      k in Create(m, p, caller, newId).storage && Create(m, p, caller, newId).storage[k] == m[k]
    ensures Create(m, p, caller, newId).storage.Keys == m.Keys + {newId}
    ensures newId !in m ==> |Create(m, p, caller, newId).storage| == |m| + 1
  {
    var s := Create(m, p, caller, newId).storage;
    if newId !in m {
      assert s.Keys == m.Keys + {newId};
      assert |s.Keys| == |m.Keys| + 1;
    }
  }

  /** An update is read back: new payload, same identifier, owner and images. */
  lemma UpdateThenLookup(m: Storage, id: string, p: DisasterReportPayload, caller: Principal)
    requires Update(m, id, p, caller).result.Ok?
    ensures Lookup(Update(m, id, p, caller).storage, id) == Update(m, id, p, caller).result
    ensures PayloadOf(Update(m, id, p, caller).result.value) == p
    ensures Update(m, id, p, caller).result.value.disasterId == m[id].disasterId
    ensures Update(m, id, p, caller).result.value.reporterId == caller
    ensures Update(m, id, p, caller).result.value.disasterImages == m[id].disasterImages
  {
  }

  /** Repeating an update changes nothing further. */
  lemma UpdateIdempotent(m: Storage, id: string, p: DisasterReportPayload, caller: Principal)
    requires Update(m, id, p, caller).result.Ok?
    ensures Update(Update(m, id, p, caller).storage, id, p, caller) == Update(m, id, p, caller)
  {
    var o := Update(m, id, p, caller);
    SpreadTwice(m[id], p, p);
    assert o.storage[id := Spread(o.storage[id], p)] == o.storage;
  }

  /** Updating a report with its own fields leaves the map as it was. */
  lemma UpdateWithOwnPayload(m: Storage, id: string, caller: Principal)
    requires id in m && Update(m, id, PayloadOf(m[id]), caller).result.Ok?
    ensures Update(m, id, PayloadOf(m[id]), caller).storage == m
  {
    SpreadOwnPayload(m[id]);
    assert m[id := m[id]] == m;
  }

  /** What an operation by `caller` may do to an existing map: no report
      appears or disappears, no report changes owner, and the reports of
      other owners stay exactly as they were. */
  predicate OnlyOwnReportsChanged(m: Storage, after: Storage, caller: Principal) {
    && after.Keys == m.Keys
    && forall k :: k in m ==>
      && after[k].reporterId == m[k].reporterId
      && (m[k].reporterId != caller ==> after[k] == m[k])
  }

  lemma UpdateRespectsOwnership(m: Storage, id: string, p: DisasterReportPayload, caller: Principal)
    ensures OnlyOwnReportsChanged(m, Update(m, id, p, caller).storage, caller)
  {
    var o := Update(m, id, p, caller);
    if o.result.Ok? {
      assert o.storage == m[id := o.result.value];
      assert o.result.value.reporterId == m[id].reporterId;
    }
  }

  lemma AddImageRespectsOwnership(m: Storage, img: DisasterImage, caller: Principal)
    ensures OnlyOwnReportsChanged(m, AddImage(m, img, caller).storage, caller)
  {
    var o := AddImage(m, img, caller);
    if o.result.Ok? {
      assert o.storage == m[img.disasterId := o.result.value];
      assert o.result.value.reporterId == m[img.disasterId].reporterId;
    }
  }

  lemma DeleteImageRespectsOwnership(m: Storage, img: DisasterImage, caller: Principal)
    ensures OnlyOwnReportsChanged(m, DeleteImage(m, img, caller).storage, caller)
  {
    var o := DeleteImage(m, img, caller);
    if o.result.Ok? {
      assert o.storage == m[img.disasterId := o.result.value];
      assert o.result.value.reporterId == m[img.disasterId].reporterId;
    }
  }

  /** A blank identifier, timestamp or address is turned away as an invalid
      payload, before presence or ownership are looked at. */
  lemma AddImageRejectsBlankFields(m: Storage, img: DisasterImage, caller: Principal)
    requires IsInvalidString(img.disasterId) || IsInvalidString(img.timestamp) || IsInvalidString(img.disasterImageUrl)
    ensures AddImage(m, img, caller).result.Err? && AddImage(m, img, caller).result.error.InvalidPayload?
    ensures AddImage(m, img, caller).storage == m
  {
    ImageErrorsEmptyIff(img);
  }

  /** The same image can be added twice; the report then holds both copies. */
  lemma AddImageTwice(m: Storage, img: DisasterImage, caller: Principal)
    requires AddImage(m, img, caller).result.Ok?
    ensures AddImage(AddImage(m, img, caller).storage, img, caller).result.Ok?
    ensures AddImage(AddImage(m, img, caller).storage, img, caller).result.value.disasterImages
         == m[img.disasterId].disasterImages + [img, img]
  {
    var once := AddImage(m, img, caller);
    assert once.storage[img.disasterId].disasterImages + [img] == m[img.disasterId].disasterImages + [img, img];
  }

  /** Adding an image and then deleting it by its timestamp and address
      gives back the report and the map as they were, provided the report
      held no image with that pair. */
  lemma {:induction false} AddThenDeleteRestores(m: Storage, img: DisasterImage, caller: Principal)
    requires AddImage(m, img, caller).result.Ok?
    requires forall j :: 0 <= j < |m[img.disasterId].disasterImages| ==>
      !ImageMatches(m[img.disasterId].disasterImages[j], img.timestamp, img.disasterImageUrl)
    ensures DeleteImage(AddImage(m, img, caller).storage, img, caller) == Outcome(Ok(m[img.disasterId]), m)
  {
    var id := img.disasterId;
    var added := AddImage(m, img, caller).storage;
    AppendThenRemove(m[id].disasterImages, img);
    assert added[id].disasterImages == m[id].disasterImages + [img];
    assert added[id].(disasterImages := m[id].disasterImages) == m[id];
    assert added[id := m[id]] == m;
  }

  /** Deletion skips the image validator, yet in a well-formed map a blank
      timestamp or address never matches an image, so such a request always
      fails and changes nothing. */
  lemma BlankPairNeverDeleted(m: Storage, img: DisasterImage, caller: Principal)
    requires WellFormed(m)
    requires IsInvalidString(img.timestamp) || IsInvalidString(img.disasterImageUrl)
    ensures DeleteImage(m, img, caller).result.Err?
    ensures DeleteImage(m, img, caller).storage == m
  {
    var id := img.disasterId;
    if IsValidUuid(id) && id in m && m[id].reporterId == caller {
      var images := m[id].disasterImages;
      forall j | 0 <= j < |images| ensures !ImageMatches(images[j], img.timestamp, img.disasterImageUrl) {
        assert ImageStored(images[j], id);
      }
    }
  }

  /** A deletion removes exactly one image of the report, the matching one. */
  lemma DeleteRemovesOneImage(m: Storage, img: DisasterImage, caller: Principal)
    requires DeleteImage(m, img, caller).result.Ok?
    ensures |DeleteImage(m, img, caller).result.value.disasterImages| == |m[img.disasterId].disasterImages| - 1
    ensures exists k :: (
      && 0 <= k < |m[img.disasterId].disasterImages|
      && ImageMatches(m[img.disasterId].disasterImages[k], img.timestamp, img.disasterImageUrl)
      && multiset(DeleteImage(m, img, caller).result.value.disasterImages) + multiset{m[img.disasterId].disasterImages[k]}
         == multiset(m[img.disasterId].disasterImages))
  {
    var images := m[img.disasterId].disasterImages;
    var k := FindImageIndex(images, img.timestamp, img.disasterImageUrl);
    assert multiset(RemoveAt(images, k)) + multiset{images[k]} == multiset(images);
  }

  /** The values of a map, one per key, with the keys they were read
      under. */
  method ListValues(m: Storage) returns (values: seq<DisasterReport>, keys: seq<string>)
    ensures |keys| == |values| == |m|
    ensures forall i :: 0 <= i < |keys| ==> keys[i] in m && values[i] == m[keys[i]]
    ensures forall id :: id in m ==> id in keys
    ensures forall i, j :: 0 <= i < j < |keys| ==> keys[i] != keys[j]
  {
    var pending := m.Keys;
    keys, values := [], [];
    while pending != {}
      invariant pending <= m.Keys
      invariant |keys| == |values| && |values| + |pending| == |m|
      invariant forall i :: 0 <= i < |keys| ==> keys[i] in m && keys[i] !in pending && values[i] == m[keys[i]]
      invariant forall id :: id in m && id !in pending ==> id in keys
      invariant forall i, j :: 0 <= i < j < |keys| ==> keys[i] != keys[j]
      decreases |pending|
    {
      var id :| id in pending;
      values := values + [m[id]];
      keys := keys + [id];
      pending := pending - {id};
    }
  }

  /** The canister's state: the stable map, updated in place by the
      update calls. */
  class DisasterReportStore {
    var storage: Storage

    ghost predicate Valid()
      reads this
    {
      WellFormed(storage)
    }

    constructor ()
      ensures Valid() && storage == map[]
    {
      storage := map[];
    }

    /** `getAllDisasterReports`: every stored report once. */
    method GetAllDisasterReports() returns (reports: seq<DisasterReport>)
      requires Valid()
      ensures |reports| == |storage|
      ensures forall id :: id in storage ==> storage[id] in reports
      ensures forall i :: 0 <= i < |reports| ==>
        reports[i].disasterId in storage && storage[reports[i].disasterId] == reports[i]
      ensures forall i, j :: 0 <= i < j < |reports| ==> reports[i].disasterId != reports[j].disasterId
    {
      var ids;
      reports, ids := ListValues(storage);
    }

    /** `getDisasterReportById`. */
    method GetDisasterReportById(id: string) returns (r: Result<DisasterReport>)
      ensures r == Lookup(storage, id)
    {
      if !IsValidUuid(id) {
        return Err(InvalidPayload(IdFormatMessage(id)));
      }
      if id !in storage {
        return Err(NotFound(ReportNotFoundMessage(id)));
      }
      r := Ok(storage[id]);
    }

    /** `createDisasterReport`; `newId` stands for the generated identifier. */
    method CreateDisasterReport(payload: DisasterReportPayload, caller: Principal, newId: string)
      returns (r: Result<DisasterReport>)
      requires Valid() && IsValidUuid(newId)
      modifies this
      ensures Valid()
      ensures Outcome(r, storage) == Create(old(storage), payload, caller, newId)
    {
      CreateKeepsWellFormed(storage, payload, caller, newId);
      var errors := ValidateDisasterReportPayload(payload);
      if |errors| > 0 {
        return Err(InvalidPayload(PayloadErrorsMessage(errors)));
      }
      var report := NewReport(newId, caller, payload);
      storage := storage[newId := report];
      r := Ok(report);
    }

    /** `updateDisasterReportById`. */
    method UpdateDisasterReportById(id: string, payload: DisasterReportPayload, caller: Principal)
      returns (r: Result<DisasterReport>)
      requires Valid()
      modifies this
      ensures Valid()
      ensures Outcome(r, storage) == Update(old(storage), id, payload, caller)
    {
      UpdateKeepsWellFormed(storage, id, payload, caller);
      if !IsValidUuid(id) {
        return Err(InvalidPayload(IdFormatMessage(id)));
      }
      var errors := ValidateDisasterReportPayload(payload);
      if |errors| > 0 {
        return Err(InvalidPayload(PayloadErrorsMessage(errors)));
      }
      if id !in storage {
        return Err(NotFound("cannot update report: " + ReportNotFoundMessage(id)));
      }
      if storage[id].reporterId.text != caller.text {
        return Err(NotAuthorized("you are not the reporter of this disaster report with id=" + id));
      }
      var updated := Spread(storage[id], payload);
      storage := storage[id := updated];
      r := Ok(updated);
    }

    /** `addDisasterImages`. */
    method AddDisasterImages(payload: DisasterImage, caller: Principal) returns (r: Result<DisasterReport>)
      requires Valid()
      modifies this
      ensures Valid()
      ensures Outcome(r, storage) == AddImage(old(storage), payload, caller)
    {
      AddImageKeepsWellFormed(storage, payload, caller);
      if !IsValidUuid(payload.disasterId) {
        return Err(InvalidPayload(PayloadIdFormatMessage(payload.disasterId)));
      }
      var errors := ValidateDisasterImagesPayload(payload);
      if |errors| > 0 {
        return Err(InvalidPayload(PayloadErrorsMessage(errors)));
      }
      var id := payload.disasterId;
      if id !in storage {
        return Err(NotFound(DisasterNotFoundMessage(id)));
      }
      var report := storage[id];
      if report.reporterId.text != caller.text {
        return Err(NotAuthorized("you are not authorized to add images to this disaster with id=" + id + " "));
      }
      report := report.(disasterImages := report.disasterImages + [DisasterImage(id, payload.timestamp, payload.disasterImageUrl)]);
      storage := storage[id := report];
      r := Ok(report);
    }

    /** `deleteDisasterImageById`. */
    method DeleteDisasterImageById(payload: DisasterImage, caller: Principal) returns (r: Result<DisasterReport>)
      requires Valid()
      modifies this
      ensures Valid()
      ensures Outcome(r, storage) == DeleteImage(old(storage), payload, caller)
    {
      DeleteImageKeepsWellFormed(storage, payload, caller);
      if !IsValidUuid(payload.disasterId) {
        return Err(InvalidPayload(PayloadIdFormatMessage(payload.disasterId)));
      }
      var id := payload.disasterId;
      if id !in storage {
        return Err(NotFound(DisasterNotFoundMessage(id)));
      }
      var report := storage[id];
      if report.reporterId.text != caller.text {
        return Err(NotAuthorized("you are not authorized to delete images from this disaster with id=" + id + " "));
      }
      var index := FindImageIndex(report.disasterImages, payload.timestamp, payload.disasterImageUrl);
      if index == -1 {
        return Err(NotFound(ImageNotFoundMessage(id, payload.timestamp, payload.disasterImageUrl)));
      }
      report := report.(disasterImages := RemoveAt(report.disasterImages, index));
      storage := storage[id := report];
      r := Ok(report);
    }
  }

  /** A client that creates a report and reads it back gets the same record. */
  method CreateThenGet(store: DisasterReportStore, payload: DisasterReportPayload, caller: Principal, newId: string)
    returns (created: Result<DisasterReport>, fetched: Result<DisasterReport>)
    requires store.Valid() && IsValidUuid(newId)
    modifies store
    ensures store.Valid()
    ensures created.Ok? <==> ReportErrors(payload) == []
    ensures created.Ok? ==> fetched == created && created.value.reporterId == caller
    ensures created.Ok? ==> store.storage == old(store.storage)[newId := created.value]
    ensures created.Err? ==> store.storage == old(store.storage)
  {
    created := store.CreateDisasterReport(payload, caller, newId);
    fetched := store.GetDisasterReportById(newId);
    if created.Ok? {
      CreateThenLookup(old(store.storage), payload, caller, newId);
    }
  }

  /** A client that adds an image and deletes it again leaves the store as
      it found it, when the report held no image with the same pair. */
  method AddThenDelete(store: DisasterReportStore, img: DisasterImage, caller: Principal)
    returns (added: Result<DisasterReport>, deleted: Result<DisasterReport>)
    requires store.Valid()
    requires img.disasterId in store.storage ==>
      forall j :: 0 <= j < |store.storage[img.disasterId].disasterImages| ==>
        !ImageMatches(store.storage[img.disasterId].disasterImages[j], img.timestamp, img.disasterImageUrl)
    modifies store
    ensures store.Valid()
    ensures store.storage == old(store.storage)
    ensures added.Ok? ==> img.disasterId in old(store.storage) && deleted == Ok(old(store.storage)[img.disasterId])
    ensures added.Err? ==> deleted.Err?
  {
    added := store.AddDisasterImages(img, caller);
    if added.Ok? {
      AddThenDeleteRestores(old(store.storage), img, caller);
    }
    deleted := store.DeleteDisasterImageById(img, caller);
  }
}
