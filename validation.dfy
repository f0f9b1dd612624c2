/** The two payload validators of the canister. Each runs every one of its
    checks in field order and collects one message per failing check,
    without stopping at the first failure. */
module Validation {
  import opened Text
  import opened Records

  /** One check of a validator: the name of the field it checks, whether
      it passes, and the message it contributes when it fails. */
  datatype FieldCheck = FieldCheck(name: string, passes: bool, message: string)

  /** The message for a blank field: name='value' cannot be empty. */
  function BlankMessage(name: string, value: string): string {
    name + "='" + value + "' cannot be empty."
  }

  /** The message for a malformed field: name='value' is not in the valid format. */
  function FormatMessage(name: string, value: string): string {
    name + "='" + value + "' is not in the valid format."
  }

  /** A check that the field is not blank after trimming. */
  function NotBlank(name: string, value: string): FieldCheck {
    FieldCheck(name, !IsInvalidString(value), BlankMessage(name, value))
  }

  /** What one check adds to the error list. */
  function Flag(c: FieldCheck): seq<string> {
    if c.passes then [] else [c.message]
  }

  /** The error list after running the first `n` checks in order. */
  function Failures(checks: seq<FieldCheck>, n: nat): seq<string>
    requires n <= |checks|
  {
    if n == 0 then [] else Failures(checks, n - 1) + Flag(checks[n - 1])
  }

  /** Every message comes from a failing check, at most one per check. */
  lemma {:induction false} FailuresSound(checks: seq<FieldCheck>, n: nat)
    requires n <= |checks|
    ensures |Failures(checks, n)| <= n
    ensures forall e :: e in Failures(checks, n) ==>
      exists i :: 0 <= i < n && !checks[i].passes && checks[i].message == e
  {
    if n > 0 {
      FailuresSound(checks, n - 1);
      var prev := Failures(checks, n - 1);
      forall e | e in Failures(checks, n)
        ensures exists i :: 0 <= i < n && !checks[i].passes && checks[i].message == e
      {
        if e !in prev {
          assert !checks[n - 1].passes && checks[n - 1].message == e;
        }
      }
    }
  }

  /** Every failing check contributes its message. */
  lemma {:induction false} FailuresComplete(checks: seq<FieldCheck>, n: nat)
    requires n <= |checks|
    ensures forall i :: 0 <= i < n && !checks[i].passes ==> checks[i].message in Failures(checks, n)
  {
    if n > 0 {
      FailuresComplete(checks, n - 1);
      var prev := Failures(checks, n - 1);
      forall i | 0 <= i < n && !checks[i].passes ensures checks[i].message in Failures(checks, n) {
        if i < n - 1 {
          assert checks[i].message in prev;
        } else {
          assert Failures(checks, n) == prev + [checks[i].message];
        }
      }
    }
  }

  /** No error is reported exactly when every check passes. */
  lemma {:induction false} FailuresEmptyIff(checks: seq<FieldCheck>, n: nat)
    requires n <= |checks|
    ensures Failures(checks, n) == [] <==> forall i :: 0 <= i < n ==> checks[i].passes
  {
    if n > 0 {
      FailuresEmptyIff(checks, n - 1);
    }
  }

  /** The report validator's ten checks in the order it runs them. The
      latitude and longitude are not checked, and the date is only checked
      for blankness. */
  function ReportChecks(p: DisasterReportPayload): seq<FieldCheck> {
    [ NotBlank("reporterName", p.reporterName),
      NotBlank("contact", p.contact),
      FieldCheck("email", EmailOk(p.email), FormatMessage("email", p.email)),
      NotBlank("disasterType", p.disasterType),
      NotBlank("imgUrl", p.imgUrl),
      NotBlank("city", p.city),
      NotBlank("state", p.state),
      NotBlank("date", p.date),
      NotBlank("severity", p.severity),
      NotBlank("impact", p.impact) ]
  }

  /** The image validator's three checks; the address is reported under the
      name `imageUrl`. */
  function ImageChecks(p: DisasterImage): seq<FieldCheck> {
    [ NotBlank("disasterId", p.disasterId),
      NotBlank("timestamp", p.timestamp),
      NotBlank("imageUrl", p.disasterImageUrl) ]
  }

  function ReportErrors(p: DisasterReportPayload): seq<string> {
    Failures(ReportChecks(p), 10)
  }

  function ImageErrors(p: DisasterImage): seq<string> {
    Failures(ImageChecks(p), 3)
  }

  /** Ten checks leave one flag each, in order. */
  lemma TenFailures(checks: seq<FieldCheck>)
    requires |checks| == 10
    ensures Failures(checks, 10) == [] + Flag(checks[0]) + Flag(checks[1]) + Flag(checks[2]) + Flag(checks[3]) + Flag(checks[4]) + Flag(checks[5]) + Flag(checks[6]) + Flag(checks[7]) + Flag(checks[8]) + Flag(checks[9])
  {
    assert Failures(checks, 1) == [] + Flag(checks[0]);
    assert Failures(checks, 2) == [] + Flag(checks[0]) + Flag(checks[1]);
    assert Failures(checks, 3) == [] + Flag(checks[0]) + Flag(checks[1]) + Flag(checks[2]);
    assert Failures(checks, 4) == [] + Flag(checks[0]) + Flag(checks[1]) + Flag(checks[2]) + Flag(checks[3]);
    assert Failures(checks, 5) == [] + Flag(checks[0]) + Flag(checks[1]) + Flag(checks[2]) + Flag(checks[3]) + Flag(checks[4]);
    assert Failures(checks, 6) == [] + Flag(checks[0]) + Flag(checks[1]) + Flag(checks[2]) + Flag(checks[3]) + Flag(checks[4]) + Flag(checks[5]);
    assert Failures(checks, 7) == [] + Flag(checks[0]) + Flag(checks[1]) + Flag(checks[2]) + Flag(checks[3]) + Flag(checks[4]) + Flag(checks[5]) + Flag(checks[6]);
    assert Failures(checks, 8) == [] + Flag(checks[0]) + Flag(checks[1]) + Flag(checks[2]) + Flag(checks[3]) + Flag(checks[4]) + Flag(checks[5]) + Flag(checks[6]) + Flag(checks[7]);
    assert Failures(checks, 9) == [] + Flag(checks[0]) + Flag(checks[1]) + Flag(checks[2]) + Flag(checks[3]) + Flag(checks[4]) + Flag(checks[5]) + Flag(checks[6]) + Flag(checks[7]) + Flag(checks[8]);
    assert Failures(checks, 10) == [] + Flag(checks[0]) + Flag(checks[1]) + Flag(checks[2]) + Flag(checks[3]) + Flag(checks[4]) + Flag(checks[5]) + Flag(checks[6]) + Flag(checks[7]) + Flag(checks[8]) + Flag(checks[9]);
  }

  /** The report errors written out field by field. */
  lemma ReportErrorsByField(p: DisasterReportPayload)
    ensures ReportErrors(p) == [] + (if IsInvalidString(p.reporterName) then [BlankMessage("reporterName", p.reporterName)] else [])
      + (if IsInvalidString(p.contact) then [BlankMessage("contact", p.contact)] else [])
      + (if !EmailOk(p.email) then [FormatMessage("email", p.email)] else [])
      + (if IsInvalidString(p.disasterType) then [BlankMessage("disasterType", p.disasterType)] else [])
      + (if IsInvalidString(p.imgUrl) then [BlankMessage("imgUrl", p.imgUrl)] else [])
      + (if IsInvalidString(p.city) then [BlankMessage("city", p.city)] else [])
      + (if IsInvalidString(p.state) then [BlankMessage("state", p.state)] else [])
      + (if IsInvalidString(p.date) then [BlankMessage("date", p.date)] else [])
      + (if IsInvalidString(p.severity) then [BlankMessage("severity", p.severity)] else [])
      + (if IsInvalidString(p.impact) then [BlankMessage("impact", p.impact)] else [])
  {
    TenFailures(ReportChecks(p));
  }

  /** `validateDisasterReportPayload`: every failing check pushes its
      message onto the list, in field order. */
  method ValidateDisasterReportPayload(p: DisasterReportPayload) returns (errors: seq<string>)
    ensures errors == ReportErrors(p)
  {
    errors := [];
    errors := errors + (if IsInvalidString(p.reporterName) then [BlankMessage("reporterName", p.reporterName)] else []);
    errors := errors + (if IsInvalidString(p.contact) then [BlankMessage("contact", p.contact)] else []);
    errors := errors + (if !EmailOk(p.email) then [FormatMessage("email", p.email)] else []);
    errors := errors + (if IsInvalidString(p.disasterType) then [BlankMessage("disasterType", p.disasterType)] else []);
    errors := errors + (if IsInvalidString(p.imgUrl) then [BlankMessage("imgUrl", p.imgUrl)] else []);
    errors := errors + (if IsInvalidString(p.city) then [BlankMessage("city", p.city)] else []);
    errors := errors + (if IsInvalidString(p.state) then [BlankMessage("state", p.state)] else []);
    errors := errors + (if IsInvalidString(p.date) then [BlankMessage("date", p.date)] else []);
    errors := errors + (if IsInvalidString(p.severity) then [BlankMessage("severity", p.severity)] else []);
    errors := errors + (if IsInvalidString(p.impact) then [BlankMessage("impact", p.impact)] else []);
    ReportErrorsByField(p);
  }

  /** Three checks leave one flag each, in order. */
  lemma ThreeFailures(checks: seq<FieldCheck>)
    requires |checks| == 3
    ensures Failures(checks, 3) == [] + Flag(checks[0]) + Flag(checks[1]) + Flag(checks[2])
  {
    assert Failures(checks, 1) == [] + Flag(checks[0]);
  }

  /** The image errors written out field by field. */
  lemma ImageErrorsByField(p: DisasterImage)
    ensures ImageErrors(p) == []
      + (if IsInvalidString(p.disasterId) then [BlankMessage("disasterId", p.disasterId)] else [])
      + (if IsInvalidString(p.timestamp) then [BlankMessage("timestamp", p.timestamp)] else [])
      + (if IsInvalidString(p.disasterImageUrl) then [BlankMessage("imageUrl", p.disasterImageUrl)] else [])
  {
    ThreeFailures(ImageChecks(p));
  }

  /** `validateDisasterImagesPayload`: the same scheme over three fields. */
  method ValidateDisasterImagesPayload(p: DisasterImage) returns (errors: seq<string>)
    ensures errors == ImageErrors(p)
  {
    errors := [];
    errors := errors + (if IsInvalidString(p.disasterId) then [BlankMessage("disasterId", p.disasterId)] else []);
    errors := errors + (if IsInvalidString(p.timestamp) then [BlankMessage("timestamp", p.timestamp)] else []);
    errors := errors + (if IsInvalidString(p.disasterImageUrl) then [BlankMessage("imageUrl", p.disasterImageUrl)] else []);
    ImageErrorsByField(p);
  }

  /** What the report validator accepts: nine fields not blank and an email
      address of the accepted shape; latitude and longitude are free. */
  predicate ReportPayloadOk(p: DisasterReportPayload) {
    && !IsInvalidString(p.reporterName) && !IsInvalidString(p.contact)
    && EmailOk(p.email) && !IsInvalidString(p.disasterType)
    && !IsInvalidString(p.imgUrl) && !IsInvalidString(p.city)
    && !IsInvalidString(p.state) && !IsInvalidString(p.date)
    && !IsInvalidString(p.severity) && !IsInvalidString(p.impact)
  }

  /** The report validator reports nothing exactly when the payload is acceptable. */
  lemma ReportErrorsEmptyIff(p: DisasterReportPayload)
    ensures ReportErrors(p) == [] <==> ReportPayloadOk(p)
  {
    ReportErrorsByField(p);
  }

  /** At most one message per check; the messages are exactly those of the
      failing checks. */
  lemma ReportErrorsAreFailingChecks(p: DisasterReportPayload)
    ensures |ReportErrors(p)| <= 10
    ensures forall e :: e in ReportErrors(p) <==>
      exists i :: 0 <= i < 10 && !ReportChecks(p)[i].passes && ReportChecks(p)[i].message == e
  {
    FailuresSound(ReportChecks(p), 10);
    FailuresComplete(ReportChecks(p), 10);
  }

  /** A blank reporter name is always the first message. */
  lemma BlankReporterNameReportedFirst(p: DisasterReportPayload)
    requires IsInvalidString(p.reporterName)
    ensures |ReportErrors(p)| >= 1
    ensures ReportErrors(p)[0] == BlankMessage("reporterName", p.reporterName)
  {
    ReportErrorsByField(p);
  }

  /** A rejected email address is reported. */
  lemma BadEmailReported(p: DisasterReportPayload)
    requires !EmailOk(p.email)
    ensures FormatMessage("email", p.email) in ReportErrors(p)
  {
    ReportErrorsByField(p);
    var before := []
      + (if IsInvalidString(p.reporterName) then [BlankMessage("reporterName", p.reporterName)] else [])
      + (if IsInvalidString(p.contact) then [BlankMessage("contact", p.contact)] else []);
    assert ReportErrors(p)[|before|] == FormatMessage("email", p.email);
  }

  /** Latitude and longitude never affect the report validator. */
  lemma ReportErrorsIgnoreCoordinates(p: DisasterReportPayload, latitude: string, longitude: string)
    ensures ReportErrors(p.(latitude := latitude, longitude := longitude)) == ReportErrors(p)
  {
    assert ReportChecks(p.(latitude := latitude, longitude := longitude)) == ReportChecks(p);
  }

  /** A payload whose fields are all filled in and whose email address has
      the accepted shape passes the report validator. */
  lemma FilledReportAccepted(x: string)
    requires |x| > 0 && !IsJsSpace(x[0])
    ensures ReportErrors(DisasterReportPayload(x, x, "amy@example.com", x, x, "", "", x, x, x, x, x)) == []
  {
    PlainEmailAccepted();
    ReportErrorsEmptyIff(DisasterReportPayload(x, x, "amy@example.com", x, x, "", "", x, x, x, x, x));
  }

  /** An all-empty payload draws all ten messages. */
  lemma EmptyReportFullyRejected()
    ensures |ReportErrors(DisasterReportPayload("", "", "", "", "", "", "", "", "", "", "", ""))| == 10
  {
    var q := DisasterReportPayload("", "", "", "", "", "", "", "", "", "", "", "");
    assert !EmailOk(q.email);
    ReportErrorsByField(q);
  }

  /** The image validator reports nothing exactly when none of the three
      fields is blank. */
  lemma ImageErrorsEmptyIff(p: DisasterImage)
    ensures ImageErrors(p) == [] <==>
      !IsInvalidString(p.disasterId) && !IsInvalidString(p.timestamp) && !IsInvalidString(p.disasterImageUrl)
  {
    ImageErrorsByField(p);
  }

  /** Behind the identifier check only the timestamp and the address can
      draw messages. */
  lemma ImageErrorsBehindUuidCheck(p: DisasterImage)
    requires IsValidUuid(p.disasterId)
    ensures ImageErrors(p) == []
      + (if IsInvalidString(p.timestamp) then [BlankMessage("timestamp", p.timestamp)] else [])
      + (if IsInvalidString(p.disasterImageUrl) then [BlankMessage("imageUrl", p.disasterImageUrl)] else [])
  {
    ValidUuidIsNotBlank(p.disasterId);
    ImageErrorsByField(p);
  }
}
