/**
 * The HTTP controllers: the checks between a pipeline result and the
 * database save (`processAndSave`), the date-time stamp the saved record
 * carries (`buildISTDate`), and the entry guards of the text and document
 * endpoints.
 *
 * A response is the status code, a body and the record a save was attempted
 * with. The JavaScript `Date` parser is an input (`isValidDate`, a predicate
 * on the stamp; the record stores the stamp that parsed), and so are the
 * outcome of `save()` and of the OCR engine.
 */
module AppointmentController {

  import opened Wrappers
  import opened JsText
  import opened AiService

  // ===========================================================================
  // buildISTDate
  // ===========================================================================

  const IstSuffix: string := ":00.000+05:30"

  /** `${date}T${time}:00.000+05:30`: an RFC 3339 date-time with India's fixed offset. */
  function IstStamp(date: string, time: string): (r: string)
    ensures |r| == |date| + |time| + 1 + |IstSuffix|
    ensures StartsWith(r, date) && r[|date|] == 'T' && EndsWith(r, IstSuffix)
  {
    date + "T" + time + IstSuffix
  }

  /** None stands for `null`: a falsy date or time, or a stamp the Date parser rejects. */
  function BuildIstDate(date: Option<string>, time: Option<string>, isValidDate: string -> bool): (r: Option<string>)
    ensures r.Some? <==> IsTruthy(date) && IsTruthy(time) && isValidDate(IstStamp(date.value, time.value))
    ensures r.Some? ==> r.value == IstStamp(date.value, time.value)
  {
    if !IsTruthy(date) || !IsTruthy(time) then None
    else
      var stamp := IstStamp(date.value, time.value);
      if isValidDate(stamp) then Some(stamp) else None
  }

  /** The position of the first `c` in `s`, or `|s|` when there is none. */
  function IndexOf(s: string, c: char): (k: nat)
    ensures k <= |s| && c !in s[..k]
    ensures k < |s| ==> s[k] == c
    decreases |s|
  {
    if s == [] then 0
    else if s[0] == c then 0
    else
      var k := 1 + IndexOf(s[1..], c);
      assert s[..k] == [s[0]] + s[1..][..k - 1];
      k
  }

  /** Reads the date and the time back out of a stamp: up to the first 'T', and up to the suffix. */
  function SplitIstStamp(stamp: string): (string, string) {
    var k := IndexOf(stamp, 'T');
    if k < |stamp| && EndsWith(stamp[k + 1..], IstSuffix) then
      (stamp[..k], stamp[k + 1..|stamp| - |IstSuffix|])
    else (stamp, "")
  }

  lemma {:induction false} IndexOfPrefix(a: string, b: string, c: char)
    requires c !in a
    ensures IndexOf(a + [c] + b, c) == |a|
    decreases |a|
  {
    if a != [] {
      assert (a + [c] + b)[1..] == a[1..] + [c] + b;
      IndexOfPrefix(a[1..], b, c);
    }
  }

  /** A date without a 'T' and the time are recovered from the stamp built from them. */
  lemma IstStampRoundTrip(date: string, time: string)
    requires 'T' !in date
    ensures SplitIstStamp(IstStamp(date, time)) == (date, time)
  {
    var s := IstStamp(date, time);
    assert s == date + ['T'] + (time + IstSuffix);
    IndexOfPrefix(date, time + IstSuffix, 'T');
    assert s[|date| + 1..] == time + IstSuffix;
    assert s[..|date|] == date;
  }

  /** Different (date, time) pairs give different stamps. */
  lemma IstStampInjective(d1: string, t1: string, d2: string, t2: string)
    requires 'T' !in d1 && 'T' !in d2
    requires IstStamp(d1, t1) == IstStamp(d2, t2)
    ensures d1 == d2 && t1 == t2
  {
    IstStampRoundTrip(d1, t1);
    IstStampRoundTrip(d2, t2);
  }

  // ===========================================================================
  // The `missing` list
  // ===========================================================================

  /** The order in which the fields are checked. */
  function FieldRank(name: string): nat {
    if name == "department" then 0 else if name == "date" then 1 else 2
  }

  predicate IsFieldName(name: string) {
    name == "department" || name == "date" || name == "time"
  }

  /** The falsy fields among department, date and time, in that order, each once. */
  function MissingFields(a: FinalAppointment): (missing: seq<string>)
    ensures "department" in missing <==> !IsTruthy(a.department)
    ensures "date" in missing <==> !IsTruthy(a.date)
    ensures "time" in missing <==> !IsTruthy(a.time)
    ensures forall i :: 0 <= i < |missing| ==> IsFieldName(missing[i])
    ensures forall i, j :: 0 <= i < j < |missing| ==> FieldRank(missing[i]) < FieldRank(missing[j])
  {
    (if !IsTruthy(a.department) then ["department"] else []) +
    (if !IsTruthy(a.date) then ["date"] else []) +
    (if !IsTruthy(a.time) then ["time"] else [])
  }

  // ===========================================================================
  // processAndSave
  // ===========================================================================

  const NoResultMessage: string := "No parsing result"
  const NoFinalMessage: string := "AI did not produce a final appointment."
  const MissingMessage: string := "Missing fields in final appointment."
  const InvalidDateMessage: string := "Invalid date/time combination."
  const SaveErrorMessage: string := "Internal server error while saving appointment."

  /** The extra field of a clarification body. */
  datatype Detail =
    | NoDetail
    | FinalDetail(final: Option<Step4>)        // `detail: final || null`
    | MissingDetail(missing: seq<string>)
    | DateTimeDetail(date: string, time: string)

  datatype Body =
    | Clarify(message: string, detail: Detail)  // `{status: 'needs_clarification', message, ...}`
    | Forwarded(result: PipelineResult)         // the pipeline's own object
    | Done(pipelineResults: PipelineResult)     // `{status: 'ok', pipeline_results}`
    | Failure(error: string)                    // `{error}`

  /** The fields of the stored appointment (its status is the schema default). */
  datatype AppointmentDoc = AppointmentDoc(
    department: string, appointmentDate: string, reason: string, originalQuery: string)

  datatype SaveOutcome = Saved | ValidationError(message: string) | SaveFailed

  /** The response sent, and the record handed to `save()` if one was. */
  datatype Response = Response(code: nat, body: Body, attempted: Option<AppointmentDoc>)

  /** `final` is present, has status 'ok' and an appointment object. */
  predicate HasFinalAppointment(final: Option<Step4>) {
    final.Some? && final.value.status == Some("ok") && final.value.appointment.Some?
  }

  /** Every check of `processAndSave` passes, so a save is attempted. */
  predicate ReadyToSave(result: Option<PipelineResult>, isValidDate: string -> bool) {
    result.Some? && result.value.status != Some(NeedsClarification) &&
    HasFinalAppointment(result.value.step4) &&
    var a := result.value.step4.value.appointment.value;
    IsTruthy(a.department) && IsTruthy(a.date) && IsTruthy(a.time) &&
    isValidDate(IstStamp(a.date.value, a.time.value))
  }

  function ProcessAndSave(result: Option<PipelineResult>, originalQuery: string,
                          isValidDate: string -> bool, save: AppointmentDoc -> SaveOutcome): (resp: Response)
    ensures resp.code == 201 || resp.code == 400 || resp.code == 500
    ensures resp.attempted.Some? <==> ReadyToSave(result, isValidDate)
    ensures resp.code == 201 <==> resp.attempted.Some? && save(resp.attempted.value) == Saved
    ensures resp.code == 201 ==> resp.body == Done(result.value)
  {
    if result.None? then Response(400, Clarify(NoResultMessage, NoDetail), None)
    else
      var p := result.value;
      if p.status == Some(NeedsClarification) then Response(400, Forwarded(p), None)
      else if !HasFinalAppointment(p.step4) then Response(400, Clarify(NoFinalMessage, FinalDetail(p.step4)), None)
      else
        var a := p.step4.value.appointment.value;
        var missing := MissingFields(a);
        if |missing| > 0 then Response(400, Clarify(MissingMessage, MissingDetail(missing)), None)
        else
          match BuildIstDate(a.date, a.time, isValidDate)
          case None => Response(400, Clarify(InvalidDateMessage, DateTimeDetail(a.date.value, a.time.value)), None)
          case Some(when) =>
            var doc := AppointmentDoc(a.department.value, when, a.department.value, originalQuery);
            match save(doc)
            case Saved => Response(201, Done(p), Some(doc))
            case ValidationError(message) => Response(400, Failure(message), Some(doc))
            case SaveFailed => Response(500, Failure(SaveErrorMessage), Some(doc))
  }

  /** An absent result is a 400 "No parsing result", and nothing is saved. */
  lemma NoResultRejected(q: string, isValidDate: string -> bool, save: AppointmentDoc -> SaveOutcome)
    ensures ProcessAndSave(None, q, isValidDate, save) == Response(400, Clarify(NoResultMessage, NoDetail), None)
  {
  }

  /** A clarification result is forwarded unchanged with 400, and nothing is saved. */
  lemma ClarificationForwarded(p: PipelineResult, q: string, isValidDate: string -> bool, save: AppointmentDoc -> SaveOutcome)
    requires p.status == Some(NeedsClarification)
    ensures ProcessAndSave(Some(p), q, isValidDate, save) == Response(400, Forwarded(p), None)
  {
  }

  /** Without a final 'ok' appointment the answer is 400, carrying `final` (or null) as detail. */
  lemma NoFinalRejected(p: PipelineResult, q: string, isValidDate: string -> bool, save: AppointmentDoc -> SaveOutcome)
    requires p.status != Some(NeedsClarification) && !HasFinalAppointment(p.step4)
    ensures ProcessAndSave(Some(p), q, isValidDate, save)
            == Response(400, Clarify(NoFinalMessage, FinalDetail(p.step4)), None)
  {
  }

  /** A falsy department, date or time is a 400 listing exactly those fields, and nothing is saved. */
  lemma MissingFieldsRejected(p: PipelineResult, q: string, isValidDate: string -> bool, save: AppointmentDoc -> SaveOutcome)
    requires p.status != Some(NeedsClarification) && HasFinalAppointment(p.step4)
    requires var a := p.step4.value.appointment.value;
      !IsTruthy(a.department) || !IsTruthy(a.date) || !IsTruthy(a.time)
    ensures var resp := ProcessAndSave(Some(p), q, isValidDate, save);
      resp.code == 400 && resp.attempted.None? &&
      resp.body == Clarify(MissingMessage, MissingDetail(MissingFields(p.step4.value.appointment.value))) &&
      |resp.body.detail.missing| > 0
  {
    var a := p.step4.value.appointment.value;
    assert MissingFields(a) != [] by {
      if !IsTruthy(a.department) {
        assert "department" in MissingFields(a);
      } else if !IsTruthy(a.date) {
        assert "date" in MissingFields(a);
      } else {
        assert "time" in MissingFields(a);
      }
    }
  }

  /** A date and time the Date parser rejects give 400 with both echoed, and nothing is saved. */
  lemma InvalidDateRejected(p: PipelineResult, q: string, isValidDate: string -> bool, save: AppointmentDoc -> SaveOutcome)
    requires p.status != Some(NeedsClarification) && HasFinalAppointment(p.step4)
    requires var a := p.step4.value.appointment.value;
      IsTruthy(a.department) && IsTruthy(a.date) && IsTruthy(a.time) &&
      !isValidDate(IstStamp(a.date.value, a.time.value))
    ensures var a := p.step4.value.appointment.value;
      ProcessAndSave(Some(p), q, isValidDate, save)
      == Response(400, Clarify(InvalidDateMessage, DateTimeDetail(a.date.value, a.time.value)), None)
  {
    var a := p.step4.value.appointment.value;
    assert MissingFields(a) == [];
  }

  /**
   * Once every check passes, the record handed to `save()` has department and
   * reason both equal to the appointment's department, the IST stamp as its
   * date, and the caller's original query; the save outcome decides the code.
   */
  lemma SaveAttempted(p: PipelineResult, q: string, isValidDate: string -> bool, save: AppointmentDoc -> SaveOutcome)
    requires ReadyToSave(Some(p), isValidDate)
    ensures var a := p.step4.value.appointment.value;
      var doc := AppointmentDoc(a.department.value, IstStamp(a.date.value, a.time.value), a.department.value, q);
      var resp := ProcessAndSave(Some(p), q, isValidDate, save);
      resp.attempted == Some(doc) &&
      (save(doc) == Saved ==> resp.code == 201 && resp.body == Done(p)) &&
      (save(doc).ValidationError? ==> resp.code == 400 && resp.body == Failure(save(doc).message)) &&
      (save(doc) == SaveFailed ==> resp.code == 500 && resp.body == Failure(SaveErrorMessage))
  {
    var a := p.step4.value.appointment.value;
    assert MissingFields(a) == [];
  }

  /** What is stored is always a complete appointment: non-empty department, date and time, final status 'ok'. */
  lemma SavedRecordComplete(result: Option<PipelineResult>, q: string, isValidDate: string -> bool, save: AppointmentDoc -> SaveOutcome)
    requires ProcessAndSave(result, q, isValidDate, save).attempted.Some?
    ensures var doc := ProcessAndSave(result, q, isValidDate, save).attempted.value;
      var a := result.value.step4.value.appointment.value;
      result.value.step4.value.status == Some("ok") &&
      doc.department != "" && doc.reason == doc.department && doc.originalQuery == q &&
      a.date.value != "" && a.time.value != "" && doc.appointmentDate == IstStamp(a.date.value, a.time.value) &&
      isValidDate(doc.appointmentDate)
  {
    SaveAttempted(result.value, q, isValidDate, save);
  }

  /** Whatever clarification the pipeline resolves to is forwarded with 400 and never saved. */
  lemma PipelineClarificationNeverSaved(rawText: string, svc: Services, q: string,
                                        isValidDate: string -> bool, save: AppointmentDoc -> SaveOutcome)
    requires Pipeline(rawText, svc).result.status.Some?
    ensures var r := Pipeline(rawText, svc).result;
      ProcessAndSave(Some(r), q, isValidDate, save) == Response(400, Forwarded(r), None)
  {
    ClarificationForwarded(Pipeline(rawText, svc).result, q, isValidDate, save);
  }

  // ===========================================================================
  // The two endpoints
  // ===========================================================================

  const QueryRequiredMessage: string := "Query text is required."
  const NoDocumentMessage: string := "No document image was uploaded or middleware failed."
  const UnreadableDocumentMessage: string := "Could not extract text from the document.Please upload a better quality image."
  const DocumentErrorMessage: string := "An internal server error occurred while processing the document."
  const DocumentQueryPrefix: string := "Parsed from document: "

  /** The response, and the text handed to the pipeline if it was called. */
  datatype Handled = Handled(response: Response, pipelineInput: Option<string>)

  /** `parseTextController`: a falsy `query` is refused before the pipeline runs. */
  function ParseText(query: Option<string>, svc: Services,
                     isValidDate: string -> bool, save: AppointmentDoc -> SaveOutcome): (h: Handled)
    ensures !IsTruthy(query) ==> h == Handled(Response(400, Failure(QueryRequiredMessage), None), None)
    ensures IsTruthy(query) ==> h.pipelineInput == Some(query.value)
    ensures IsTruthy(query) ==>
              h.response == ProcessAndSave(Some(Pipeline(query.value, svc).result), query.value, isValidDate, save)
    ensures h.response.attempted.Some? <==>
              IsTruthy(query) && ReadyToSave(Some(Pipeline(query.value, svc).result), isValidDate)
    ensures h.response.attempted.Some? ==> h.response.attempted.value.originalQuery == query.value
  {
    if !IsTruthy(query) then Handled(Response(400, Failure(QueryRequiredMessage), None), None)
    else
      var result := Pipeline(query.value, svc).result;
      Handled(ProcessAndSave(Some(result), query.value, isValidDate, save), Some(query.value))
  }

  datatype UploadedFile = UploadedFile(originalName: string)

  /** The OCR engine either fails (which raises) or yields `data.text`, possibly absent. */
  datatype OcrReply = OcrFailed | Recognized(text: Option<string>)

  /** A file arrived and OCR produced text that is not blank: the pipeline runs on that text. */
  predicate Readable(file: Option<UploadedFile>, ocr: OcrReply) {
    file.Some? && ocr.Recognized? && IsTruthy(ocr.text) && Trim(ocr.text.value) != ""
  }

  /**
   * `parseDocumentController`: no file is 400, an OCR failure is 500, an
   * absent or whitespace-only text is 400, all before the pipeline runs.
   */
  function ParseDocument(file: Option<UploadedFile>, ocr: OcrReply, svc: Services,
                         isValidDate: string -> bool, save: AppointmentDoc -> SaveOutcome): (h: Handled)
    ensures file.None? ==> h == Handled(Response(400, Failure(NoDocumentMessage), None), None)
    ensures file.Some? && ocr.OcrFailed? ==> h == Handled(Response(500, Failure(DocumentErrorMessage), None), None)
    ensures file.Some? && ocr.Recognized? && !Readable(file, ocr) ==>
              h == Handled(Response(400, Clarify(UnreadableDocumentMessage, NoDetail), None), None)
    ensures h.pipelineInput.Some? <==> Readable(file, ocr)
    ensures h.pipelineInput.Some? ==> h.pipelineInput == ocr.text
    ensures Readable(file, ocr) ==>
              h.response == ProcessAndSave(Some(Pipeline(ocr.text.value, svc).result),
                                           DocumentQueryPrefix + file.value.originalName, isValidDate, save)
    ensures h.response.attempted.Some? <==>
              Readable(file, ocr) && ReadyToSave(Some(Pipeline(ocr.text.value, svc).result), isValidDate)
    ensures h.response.attempted.Some? ==>
              h.response.attempted.value.originalQuery == DocumentQueryPrefix + file.value.originalName
  {
    if file.None? then Handled(Response(400, Failure(NoDocumentMessage), None), None)
    else
      match ocr
      case OcrFailed => Handled(Response(500, Failure(DocumentErrorMessage), None), None)
      case Recognized(text) =>
        if !IsTruthy(text) || Trim(text.value) == "" then
          Handled(Response(400, Clarify(UnreadableDocumentMessage, NoDetail), None), None)
        else
          var result := Pipeline(text.value, svc).result;
          Handled(ProcessAndSave(Some(result), DocumentQueryPrefix + file.value.originalName, isValidDate, save),
                  Some(text.value))
  }

  /** OCR text made only of whitespace is refused with 400 and the pipeline is not called. */
  lemma BlankDocumentRejected(file: UploadedFile, text: string, svc: Services,
                              isValidDate: string -> bool, save: AppointmentDoc -> SaveOutcome)
    requires AllTrimmable(text)
    ensures ParseDocument(Some(file), Recognized(Some(text)), svc, isValidDate, save)
            == Handled(Response(400, Clarify(UnreadableDocumentMessage, NoDetail), None), None)
  {
    TrimEmptyIff(text);
  }

  /** A clarification from the pipeline on a text request is forwarded to the client with 400 and never saved. */
  lemma TextClarificationForwarded(query: string, svc: Services,
                                   isValidDate: string -> bool, save: AppointmentDoc -> SaveOutcome)
    requires query != "" && Pipeline(query, svc).result.status.Some?
    ensures ParseText(Some(query), svc, isValidDate, save).response
            == Response(400, Forwarded(Pipeline(query, svc).result), None)
  {
    PipelineClarificationNeverSaved(query, svc, query, isValidDate, save);
  }

  /** A clarification from the pipeline on a readable document is forwarded with 400 and never saved. */
  lemma DocumentClarificationForwarded(file: UploadedFile, text: string, svc: Services,
                                       isValidDate: string -> bool, save: AppointmentDoc -> SaveOutcome)
    requires Readable(Some(file), Recognized(Some(text))) && Pipeline(text, svc).result.status.Some?
    ensures ParseDocument(Some(file), Recognized(Some(text)), svc, isValidDate, save).response
            == Response(400, Forwarded(Pipeline(text, svc).result), None)
  {
    PipelineClarificationNeverSaved(text, svc, DocumentQueryPrefix + file.originalName, isValidDate, save);
  }

  /**
   * The commit path end to end: both calls succeed, the guardrail passes, the
   * final appointment is complete with status 'ok', its stamp parses and the
   * save succeeds; then a text request answers 201 with the pipeline's object
   * and stores the appointment built from the second reply.
   */
  lemma TextRequestCommitted(q: string, svc: Services, x: Extraction, f: Finalization,
                             isValidDate: string -> bool, save: AppointmentDoc -> SaveOutcome)
    requires q != ""
    requires FirstCall(q, svc) == Some(x) && PassesGuardrail(x)
    requires SecondCall(svc, x.entities.value) == Some(f)
    requires f.status == Some("ok") && f.appointment.Some?
    requires var a := f.appointment.value;
      IsTruthy(a.department) && IsTruthy(a.date) && IsTruthy(a.time) &&
      isValidDate(IstStamp(a.date.value, a.time.value)) &&
      save(AppointmentDoc(a.department.value, IstStamp(a.date.value, a.time.value), a.department.value, q)) == Saved
    ensures var a := f.appointment.value;
      var h := ParseText(Some(q), svc, isValidDate, save);
      h.pipelineInput == Some(q) &&
      h.response == Response(201, Done(FullResponse(q, x, f)),
        Some(AppointmentDoc(a.department.value, IstStamp(a.date.value, a.time.value), a.department.value, q)))
  {
    SuccessPath(q, svc, x, f);
    assert Pipeline(q, svc).result == FullResponse(q, x, f);
    SaveAttempted(FullResponse(q, x, f), q, isValidDate, save);
  }

  /**
   * The end-to-end scenario: "book dentist tomorrow at 5pm", an extraction with
   * confidence 0.9 and a normalization to 2025-06-02 17:00 in Dentistry, a
   * valid stamp ("2025-06-02T17:00:00.000+05:30") and a successful save give
   * 201 and store that appointment.
   */
  lemma DentistScenario(svc: Services, isValidDate: string -> bool, save: AppointmentDoc -> SaveOutcome)
    requires var e := Entities(Some("tomorrow"), Some("5pm"), Some("dentist"));
      FirstCall("book dentist tomorrow at 5pm", svc) == Some(Extraction(Some(e), Number(0.9))) &&
      SecondCall(svc, e) == Some(Finalization(
        Some(Normalized(Some("2025-06-02"), Some("17:00"), Some("Asia/Kolkata"))), Some(0.92),
        Some(FinalAppointment(Some("Dentistry"), Some("2025-06-02"), Some("17:00"), Some("Asia/Kolkata"))),
        Some("ok")))
    requires isValidDate(IstStamp("2025-06-02", "17:00"))
    requires save(AppointmentDoc("Dentistry", IstStamp("2025-06-02", "17:00"), "Dentistry",
                                 "book dentist tomorrow at 5pm")) == Saved
    ensures var h := ParseText(Some("book dentist tomorrow at 5pm"), svc, isValidDate, save);
      h.response.code == 201 &&
      h.response.attempted == Some(AppointmentDoc("Dentistry", IstStamp("2025-06-02", "17:00"), "Dentistry",
                                                  "book dentist tomorrow at 5pm")) &&
      h.response.body.Done? &&
      h.response.body.pipelineResults.step3 ==
        Some(Step3(Some(Normalized(Some("2025-06-02"), Some("17:00"), Some("Asia/Kolkata"))), Some(0.92))) &&
      h.response.body.pipelineResults.step4 ==
        Some(Step4(Some(FinalAppointment(Some("Dentistry"), Some("2025-06-02"), Some("17:00"), Some("Asia/Kolkata"))),
                   Some("ok")))
  {
    var q := "book dentist tomorrow at 5pm";
    var e := Entities(Some("tomorrow"), Some("5pm"), Some("dentist"));
    TextRequestCommitted(q, svc, Extraction(Some(e), Number(0.9)), SecondCall(svc, e).value, isValidDate, save);
  }
}
