/** The records the disaster report canister stores and exchanges, its
    result type, and the pure edits it makes to a report: the object spread
    of an update and the `findIndex`/`splice` pair on a report's images. */
module Records {

  /** A caller identity, compared through its textual form. */
  datatype Principal = Principal(text: string)

  /** The fields a client supplies when creating or updating a report. */
  datatype DisasterReportPayload = DisasterReportPayload(
    reporterName: string,
    contact: string,
    email: string,
    disasterType: string,
    imgUrl: string,
    latitude: string,
    longitude: string,
    city: string,
    state: string,
    date: string,
    severity: string,
    impact: string)

  /** One image of a report. The canister uses the same record both as the
      payload of the image operations and as the element of a report's
      image list. */
  datatype DisasterImage = DisasterImage(disasterId: string, timestamp: string, disasterImageUrl: string)

  /** The stored entity. */
  datatype DisasterReport = DisasterReport(
    disasterId: string,
    reporterId: Principal,
    reporterName: string,
    contact: string,
    email: string,
    disasterType: string,
    imgUrl: string,
    latitude: string,
    longitude: string,
    city: string,
    state: string,
    date: string,
    severity: string,
    impact: string,
    disasterImages: seq<DisasterImage>)

  /** The error variants of the canister interface. `AlreadyExist` is
      declared by the interface but no operation returns it. */
  datatype Message =
    | NotFound(text: string)
    | InvalidPayload(text: string)
    | AlreadyExist(text: string)
    | NotAuthorized(text: string)

  datatype Result<T> = Ok(value: T) | Err(error: Message)

  datatype Option<T> = None | Some(value: T)

  /** The twelve client-supplied fields of a report. */
  function PayloadOf(r: DisasterReport): DisasterReportPayload {
    DisasterReportPayload(r.reporterName, r.contact, r.email, r.disasterType, r.imgUrl,
                          r.latitude, r.longitude, r.city, r.state, r.date, r.severity, r.impact)
  }

  /** A report is determined by its identity fields, its images and its payload. */
  lemma ReportDeterminedByParts(a: DisasterReport, b: DisasterReport)
    requires a.disasterId == b.disasterId && a.reporterId == b.reporterId
    requires a.disasterImages == b.disasterImages && PayloadOf(a) == PayloadOf(b)
    ensures a == b
  {
  }

  /** The record a creation builds: the fresh id, the caller, no images,
      and every payload field copied. */
  function NewReport(id: string, caller: Principal, p: DisasterReportPayload): (r: DisasterReport)
    ensures r.disasterId == id && r.reporterId == caller && r.disasterImages == []
    ensures PayloadOf(r) == p
  {
    DisasterReport(id, caller, p.reporterName, p.contact, p.email, p.disasterType, p.imgUrl,
                   p.latitude, p.longitude, p.city, p.state, p.date, p.severity, p.impact, [])
  }

  /** `{...existing, ...payload}`: the payload's twelve fields replace the
      existing ones; the fields the payload lacks are kept. */
  function Spread(existing: DisasterReport, p: DisasterReportPayload): (r: DisasterReport)
    ensures PayloadOf(r) == p
    ensures r.disasterId == existing.disasterId && r.reporterId == existing.reporterId
    ensures r.disasterImages == existing.disasterImages
  {
    existing.(reporterName := p.reporterName, contact := p.contact, email := p.email,
              disasterType := p.disasterType, imgUrl := p.imgUrl, latitude := p.latitude,
              longitude := p.longitude, city := p.city, state := p.state, date := p.date,
              severity := p.severity, impact := p.impact)
  }

  /** Spreading twice is spreading the second payload. */
  lemma SpreadTwice(existing: DisasterReport, p: DisasterReportPayload, q: DisasterReportPayload)
    ensures Spread(Spread(existing, p), q) == Spread(existing, q)
  {
  }

  /** Spreading a report's own payload over it changes nothing. */
  lemma SpreadOwnPayload(existing: DisasterReport)
    ensures Spread(existing, PayloadOf(existing)) == existing
  {
  }

  /** The `findIndex` callback of the image deletion: both the timestamp and
      the image address are equal. */
  predicate ImageMatches(img: DisasterImage, timestamp: string, url: string) {
    img.timestamp == timestamp && img.disasterImageUrl == url
  }

  /** `findIndex`: the index of the first matching image, or -1 if none matches. */
  function FindImageIndex(images: seq<DisasterImage>, timestamp: string, url: string): (idx: int)
    ensures -1 <= idx < |images|
    ensures idx == -1 <==> forall i :: 0 <= i < |images| ==> !ImageMatches(images[i], timestamp, url)
    ensures idx >= 0 ==> ImageMatches(images[idx], timestamp, url)
    ensures forall i :: 0 <= i < idx ==> !ImageMatches(images[i], timestamp, url)
  {
    if |images| == 0 then -1
    else if ImageMatches(images[0], timestamp, url) then 0
    else
      var k := FindImageIndex(images[1..], timestamp, url);
      if k == -1 then -1 else k + 1
  }

  /** `splice(i, 1)`: drop the element at `i`, keeping the others in order. */
  function RemoveAt(images: seq<DisasterImage>, i: nat): (r: seq<DisasterImage>)
    requires i < |images|
    ensures |r| == |images| - 1
    ensures forall j :: 0 <= j < i ==> r[j] == images[j]
    ensures forall j :: i <= j < |r| ==> r[j] == images[j + 1]
    ensures multiset(r) + multiset{images[i]} == multiset(images)
  {
    assert images == images[..i] + [images[i]] + images[i + 1..];
    images[..i] + images[i + 1..]
  }

  /** The image list after deleting the pair, or None when no image matches. */
  function RemoveFirstMatch(images: seq<DisasterImage>, timestamp: string, url: string): Option<seq<DisasterImage>> {
    var idx := FindImageIndex(images, timestamp, url);
    if idx == -1 then None else Some(RemoveAt(images, idx))
  }

  /** Deleting a pair fails exactly when no image carries it; otherwise the
      first image that carries it is the one that goes, the images before it
      all differ from the pair, and the rest keep their order. */
  lemma RemoveFirstMatchSpec(images: seq<DisasterImage>, timestamp: string, url: string)
    ensures RemoveFirstMatch(images, timestamp, url).None? <==>
      forall i :: 0 <= i < |images| ==> !ImageMatches(images[i], timestamp, url)
    ensures RemoveFirstMatch(images, timestamp, url).Some? ==>
      exists k :: 0 <= k < |images| && ImageMatches(images[k], timestamp, url)
        && (forall i :: 0 <= i < k ==> !ImageMatches(images[i], timestamp, url))
        && RemoveFirstMatch(images, timestamp, url).value == images[..k] + images[k + 1..]
  {
    var idx := FindImageIndex(images, timestamp, url);
    if idx != -1 {
      var r := RemoveAt(images, idx);
      assert r == images[..idx] + images[idx + 1..];
    }
  }

  /** Appending an image and then deleting its pair gives back the prior
      list, provided no image in that list already carried the pair. */
  lemma {:induction false} AppendThenRemove(images: seq<DisasterImage>, img: DisasterImage)
    requires forall i :: 0 <= i < |images| ==> !ImageMatches(images[i], img.timestamp, img.disasterImageUrl)
    ensures RemoveFirstMatch(images + [img], img.timestamp, img.disasterImageUrl) == Some(images)
  {
    var all := images + [img];
    forall i | 0 <= i < |images| ensures !ImageMatches(all[i], img.timestamp, img.disasterImageUrl) {
      assert all[i] == images[i];
    }
    assert all[|images|] == img;
    assert FindImageIndex(all, img.timestamp, img.disasterImageUrl) == |images|;
    assert RemoveAt(all, |images|) == images;
  }

  /** When the pair is already present, the append-then-delete round trip
      removes the earlier copy instead: the result is the prior list with
      its first carrier of the pair deleted, followed by the new image. */
  lemma AppendThenRemoveDuplicate(images: seq<DisasterImage>, img: DisasterImage, k: nat)
    requires k < |images| && ImageMatches(images[k], img.timestamp, img.disasterImageUrl)
    ensures RemoveFirstMatch(images, img.timestamp, img.disasterImageUrl).Some?
    ensures RemoveFirstMatch(images + [img], img.timestamp, img.disasterImageUrl)
         == Some(RemoveFirstMatch(images, img.timestamp, img.disasterImageUrl).value + [img])
  {
    var all := images + [img];
    assert all[k] == images[k];
    var idx := FindImageIndex(all, img.timestamp, img.disasterImageUrl);
    var first := FindImageIndex(images, img.timestamp, img.disasterImageUrl);
    assert idx <= k && first <= k;
    assert all[first] == images[first];
    forall i | 0 <= i < idx ensures !ImageMatches(images[i], img.timestamp, img.disasterImageUrl) {
      assert all[i] == images[i];
    }
    assert idx == first;
    assert all[..idx] == images[..idx];
    assert all[idx + 1..] == images[idx + 1..] + [img];
    assert RemoveAt(all, idx) == RemoveAt(images, idx) + [img];
  }

  /** The contract of `Spread` fixes the whole record: any report with the
      payload's fields and the existing identifier, owner and images is the
      spread. */
  lemma SpreadDeterminedByContract(existing: DisasterReport, p: DisasterReportPayload, r: DisasterReport)
    requires PayloadOf(r) == p
    requires r.disasterId == existing.disasterId && r.reporterId == existing.reporterId
    requires r.disasterImages == existing.disasterImages
    ensures r == Spread(existing, p)
  {
    ReportDeterminedByParts(r, Spread(existing, p));
  }

  /** Likewise the contract of `NewReport` fixes the created record. */
  lemma NewReportDeterminedByContract(id: string, caller: Principal, p: DisasterReportPayload, r: DisasterReport)
    requires r.disasterId == id && r.reporterId == caller && r.disasterImages == [] && PayloadOf(r) == p
    ensures r == NewReport(id, caller, p)
  {
    ReportDeterminedByParts(r, NewReport(id, caller, p));
  }
}
